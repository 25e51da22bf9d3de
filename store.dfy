/** The write side of the data-access layer (`src/lib/api.ts`): the remote
    store as an object whose tables the mutations change in place. The
    signed-in user, the identifiers and timestamps the store assigns, the
    random parts of upload names and every failure the store can report
    are inputs. */
module Mutations {
  import opened Wrappers
  import opened Text
  import opened Seqs
  import opened Records
  import opened Schemas
  import opened Api
  import Uri

  // ---------------------------------------------------------------------
  // togglePostLike

  /** Every row except the caller's like of the post. */
  function NotLikeBy(postId: PostId, user: UserId): Like -> bool {
    (l: Like) => l != Like(postId, user)
  }

  /** The rows of other users. */
  function OfOtherUsers(user: UserId): Like -> bool {
    (l: Like) => l.user_id != user
  }

  /** What the store answers when a second identical like is inserted:
      a (post, user) pair is liked at most once. */
  const DuplicateLike := "duplicate key value violates unique constraint"

  datatype LikeOutcome = LikeOutcome(result: Result<bool, string>, likes: seq<Like>)

  /** `togglePostLike` on the likes table: the caller's like is looked up
      with `.single()`; when it is found it is deleted and the answer is
      `false`, otherwise one row is inserted and the answer is `true`. A
      failed lookup reads as "not liked". */
  function Toggle(likes: seq<Like>, caller: Option<UserId>, postId: PostId,
                  lookupFails: bool, writeError: Option<string>): (o: LikeOutcome)
    ensures caller.None? ==> o == LikeOutcome(Err(LoginRequired), likes)
    ensures o.result.Err? ==> o.likes == likes
    ensures o.result == Ok(true) ==> caller.Some? && o.likes == likes + [Like(postId, caller.value)]
    ensures o.result == Ok(false) ==> caller.Some? && o.likes == Filter(likes, NotLikeBy(postId, caller.value))
  {
    if caller.None? then LikeOutcome(Err(LoginRequired), likes)
    else
      var mine := Like(postId, caller.value);
      if !lookupFails && Count(likes, LikeBy(postId, caller.value)) == 1 then
        if writeError.Some? then LikeOutcome(Err(writeError.value), likes)
        else LikeOutcome(Ok(false), Filter(likes, NotLikeBy(postId, caller.value)))
      else if writeError.Some? then LikeOutcome(Err(writeError.value), likes)
      else if mine in likes then LikeOutcome(Err(DuplicateLike), likes)
      else LikeOutcome(Ok(true), likes + [mine])
  }

  /** With no failures a toggle flips the caller's like of the post and
      answers whether the post is now liked. */
  lemma ToggleFlips(likes: seq<Like>, user: UserId, postId: PostId)
    requires DistinctBy(likes, (l: Like) => l)
    ensures var o := Toggle(likes, Some(user), postId, false, None);
      && o.result == Ok(Like(postId, user) !in likes)
      && (Like(postId, user) in o.likes <==> Like(postId, user) !in likes)
  {
    SingleLikeIffLiked(likes, postId, user);
  }

  /** A toggle touches no row but the caller's like of that post. */
  lemma ToggleKeepsOtherRows(likes: seq<Like>, caller: Option<UserId>, postId: PostId,
                             lookupFails: bool, writeError: Option<string>)
    requires caller.Some?
    ensures var o := Toggle(likes, caller, postId, lookupFails, writeError);
      Filter(o.likes, NotLikeBy(postId, caller.value)) == Filter(likes, NotLikeBy(postId, caller.value))
  {
    var o := Toggle(likes, caller, postId, lookupFails, writeError);
    var p := NotLikeBy(postId, caller.value);
    if o.result == Ok(true) {
      FilterAppendRejected(likes, Like(postId, caller.value), p);
    } else if o.result == Ok(false) {
      FilterIdempotent(likes, p);
    }
  }

  /** In particular, other users' likes never change. */
  lemma ToggleKeepsOtherUsers(likes: seq<Like>, caller: Option<UserId>, postId: PostId,
                              lookupFails: bool, writeError: Option<string>)
    requires caller.Some?
    ensures var o := Toggle(likes, caller, postId, lookupFails, writeError);
      Filter(o.likes, OfOtherUsers(caller.value)) == Filter(likes, OfOtherUsers(caller.value))
  {
    var o := Toggle(likes, caller, postId, lookupFails, writeError);
    ToggleKeepsOtherRows(likes, caller, postId, lookupFails, writeError);
    FilterNarrower(o.likes, likes, NotLikeBy(postId, caller.value), OfOtherUsers(caller.value));
  }

  /** Deleting by value removes every copy of `x` and leaves every other
      row as often as it was there. */
  lemma {:induction false} FilterOutOnce(likes: seq<Like>, x: Like)
    ensures multiset(Filter(likes, (l: Like) => l != x)) == multiset(likes)[x := 0]
  {
    if likes != [] {
      assert likes == [likes[0]] + likes[1..];
      FilterOutOnce(likes[1..], x);
    }
  }

  /** Two successful toggles leave the same like rows as before. */
  lemma ToggleTwiceRestores(likes: seq<Like>, user: UserId, postId: PostId)
    requires DistinctBy(likes, (l: Like) => l)
    ensures var once := Toggle(likes, Some(user), postId, false, None).likes;
      multiset(Toggle(once, Some(user), postId, false, None).likes) == multiset(likes)
  {
    var x := Like(postId, user);
    var once := Toggle(likes, Some(user), postId, false, None).likes;
    ToggleFlips(likes, user, postId);
    TogglePreservesDistinct(likes, Some(user), postId, false, None);
    ToggleFlips(once, user, postId);
    assert NotLikeBy(postId, user) == (l: Like) => l != x;
    if x in likes {
      DistinctByMultiplicity(likes, (l: Like) => l, x);
      FilterOutOnce(likes, x);
    } else {
      FilterOutOnce(once, x);
      assert multiset(once) == multiset(likes) + multiset{x};
    }
  }

  /** A toggle keeps each (post, user) pair liked at most once. */
  lemma TogglePreservesDistinct(likes: seq<Like>, caller: Option<UserId>, postId: PostId,
                                lookupFails: bool, writeError: Option<string>)
    requires DistinctBy(likes, (l: Like) => l)
    ensures DistinctBy(Toggle(likes, caller, postId, lookupFails, writeError).likes, (l: Like) => l)
  {
    var o := Toggle(likes, caller, postId, lookupFails, writeError);
    if o.result == Ok(false) {
      DistinctByFilter(likes, NotLikeBy(postId, caller.value), (l: Like) => l);
    } else if o.result == Ok(true) {
      DistinctByAppend(likes, (l: Like) => l, Like(postId, caller.value));
    }
  }

  // ---------------------------------------------------------------------
  // uploadImages

  const Bucket := "post-images"

  /** Where a public object URL's path starts. */
  const PublicPrefix := "/storage/v1/object/public/post-images/"

  const UploadFailedPrefix := "이미지 업로드 실패 ("

  /** `post-images/<stamp>-<index>-<random>.<extension>`, the extension being
      what follows the name's last dot (the whole name when it has none). */
  function ObjectPath(stamp: int, index: nat, rand: string, name: string): string {
    Bucket + "/" + FileName(stamp, index, rand, name)
  }

  /** The object's name inside the folder. */
  function FileName(stamp: int, index: nat, rand: string, name: string): string {
    IntToString(stamp) + "-" + IntToString(index) + "-" + rand + "." + LastSegment(name, '.')
  }

  /** `getPublicUrl(path)` against the project's base URL: the storage
      client passes the whole URL through `encodeURI`. */
  function PublicUrl(base: string, path: string): string {
    Uri.EncodeUri(base + PublicPrefix + path)
  }

  /** The values `Date.now()` and `Math.random()` supply to each image's
      name, and the answer of each upload. */
  datatype UploadInputs = UploadInputs(stamps: seq<int>, rands: seq<string>, errors: seq<Option<string>>)

  predicate Fits(images: seq<File>, u: UploadInputs) {
    |u.stamps| == |images| && |u.rands| == |images| && |u.errors| == |images|
  }

  /** The object the `i`-th upload writes. */
  function PathOf(images: seq<File>, u: UploadInputs, i: nat): string
    requires Fits(images, u) && i < |images|
  {
    ObjectPath(u.stamps[i], i, u.rands[i], images[i].name)
  }

  /** The objects the first `n` uploads leave in the bucket: those that
      succeed. */
  function Stored(images: seq<File>, u: UploadInputs, n: nat): set<string>
    requires Fits(images, u) && n <= |images|
  {
    if n == 0 then {}
    else Stored(images, u, n - 1) + (if u.errors[n - 1].None? then {PathOf(images, u, n - 1)} else {})
  }

  /** An object is stored exactly when some upload among the first `n`
      succeeds in writing it. */
  lemma {:induction false} InStored(images: seq<File>, u: UploadInputs, n: nat, x: string)
    requires Fits(images, u) && n <= |images|
    ensures x in Stored(images, u, n) <==> exists i :: 0 <= i < n && u.errors[i].None? && x == PathOf(images, u, i)
  {
    if n > 0 {
      InStored(images, u, n - 1, x);
      if x in Stored(images, u, n) {
        if x in Stored(images, u, n - 1) {
          var i :| 0 <= i < n - 1 && u.errors[i].None? && x == PathOf(images, u, i);
          assert 0 <= i < n && u.errors[i].None? && x == PathOf(images, u, i);
        } else {
          assert 0 <= n - 1 < n && u.errors[n - 1].None? && x == PathOf(images, u, n - 1);
        }
      }
      if exists i :: 0 <= i < n && u.errors[i].None? && x == PathOf(images, u, i) {
        var i :| 0 <= i < n && u.errors[i].None? && x == PathOf(images, u, i);
        if i < n - 1 {
          assert x in Stored(images, u, n - 1);
        }
      }
    }
  }

  /** The objects all the uploads that succeed leave in the bucket. */
  function UploadedPaths(images: seq<File>, u: UploadInputs): set<string>
    requires Fits(images, u)
  {
    Stored(images, u, |images|)
  }

  /** The lowest position whose upload fails. */
  function FirstFailure(errors: seq<Option<string>>): (k: Option<nat>)
    ensures k.None? <==> forall i :: 0 <= i < |errors| ==> errors[i].None?
    ensures k.Some? ==> k.value < |errors| && errors[k.value].Some?
    ensures k.Some? ==> forall i :: 0 <= i < k.value ==> errors[i].None?
  {
    if errors == [] then None
    else if errors[0].Some? then Some(0)
    else match FirstFailure(errors[1..])
      case None => None
      case Some(k) => Some(k + 1)
  }

  /** `uploadImages`: one public URL per image, in input order, or the
      message naming a file whose upload failed. */
  function UploadOutcome(images: seq<File>, u: UploadInputs, base: string): (r: Result<seq<string>, string>)
    requires Fits(images, u)
    ensures images == [] ==> r == Ok([])
    ensures r.Ok? <==> forall i :: 0 <= i < |images| ==> u.errors[i].None?
    ensures r.Ok? ==> |r.value| == |images|
    ensures r.Ok? ==> forall i :: 0 <= i < |images| ==>
      r.value[i] == PublicUrl(base, ObjectPath(u.stamps[i], i, u.rands[i], images[i].name))
    ensures r.Err? ==> exists i :: 0 <= i < |images| && u.errors[i].Some? &&
                                   r.error == UploadFailedPrefix + images[i].name + "): " + u.errors[i].value
  {
    if images == [] then Ok([])
    else match FirstFailure(u.errors)
      case Some(k) => Err(UploadFailedPrefix + images[k].name + "): " + u.errors[k].value)
      case None => Ok(seq(|images|, i requires 0 <= i < |images| =>
        PublicUrl(base, ObjectPath(u.stamps[i], i, u.rands[i], images[i].name))))
  }

  // ---------------------------------------------------------------------
  // deletePost

  const PostNotFound := "게시글을 찾을 수 없습니다."
  const NotPostOwner := "본인이 작성한 게시글만 삭제할 수 있습니다."
  const DeletePostFailed := "게시글 삭제에 실패했습니다: "
  const CreatePostFailed := "게시글 작성에 실패했습니다: "

  /** The URL up to its query or fragment: the part whose last segment the
      object name is. */
  function Pathname(url: string): (r: string)
    ensures |r| <= |url|
    ensures NoQuery(r)
    ensures NoQuery(url) ==> r == url
  {
    if url == [] || url[0] == '?' || url[0] == '#' then [] else [url[0]] + Pathname(url[1..])
  }

  /** The path is where the URL starts, and it stops only at a `?` or a
      `#`. */
  lemma {:induction false} PathnameIsPrefix(url: string)
    ensures var r := Pathname(url); r == url[..|r|] && (|r| < |url| ==> url[|r|] in "?#")
  {
    if url != [] && url[0] != '?' && url[0] != '#' {
      PathnameIsPrefix(url[1..]);
    }
  }

  /** The object `deletePost` removes for an image URL: the bucket folder
      and the URL path's last segment. */
  function RemovedPath(url: string): string {
    Bucket + "/" + LastSegment(Pathname(url), '/')
  }

  /** The object a deletion that decodes the segment (with
      `decodeURIComponent`) would remove, or nothing when the segment holds
      a malformed escape and the decoding throws. */
  function DecodedRemovedPath(url: string): (r: Option<string>)
    ensures r.Some? <==> Uri.DecodeUriComponent(LastSegment(Pathname(url), '/')).Some?
  {
    var segment := Uri.DecodeUriComponent(LastSegment(Pathname(url), '/'));
    if segment.None? then None else Some(Bucket + "/" + segment.value)
  }

  /** The objects that decoding deletion removes for a post's images; the
      `map` over them throws, and nothing is removed, when one fails. */
  function DecodedRemovedPaths(urls: seq<string>): (r: Option<set<string>>)
    ensures r.Some? <==> forall u :: u in urls ==> DecodedRemovedPath(u).Some?
    ensures r.Some? ==> forall x :: x in r.value <==> exists u :: u in urls && DecodedRemovedPath(u) == Some(x)
  {
    if forall u :: u in urls ==> DecodedRemovedPath(u).Some?
    then Some(set u | u in urls :: DecodedRemovedPath(u).value)
    else None
  }

  /** No `/`, `?` or `#`: a string that cannot end a URL path segment. */
  predicate Plain(s: string) {
    '/' !in s && '?' !in s && '#' !in s
  }

  lemma PlainAppend(a: string, b: string)
    ensures Plain(a + b) <==> Plain(a) && Plain(b)
  {
    assert forall c :: c in a + b <==> c in a || c in b;
  }

  lemma DigitsArePlain(n: int)
    ensures Plain(IntToString(n))
  {
    var ds := NatToString(if n < 0 then -n else n);
    assert forall c :: c in ds ==> IsDigit(c);
  }

  /** The name an upload gives is plain when its random part and the file
      name are. */
  lemma FileNameIsPlain(stamp: int, index: nat, rand: string, name: string)
    requires Plain(rand) && Plain(name)
    ensures Plain(FileName(stamp, index, rand, name))
  {
    var ext := LastSegment(name, '.');
    assert Plain(ext) by {
      LastSegmentIsSuffix(name, '.');
      assert forall c :: c in ext ==> c in name;
    }
    DigitsArePlain(stamp);
    DigitsArePlain(index);
    var a := IntToString(stamp) + "-";
    PlainAppend(IntToString(stamp), "-");
    var b := a + IntToString(index);
    PlainAppend(a, IntToString(index));
    var c := b + "-";
    PlainAppend(b, "-");
    var d := c + rand;
    PlainAppend(c, rand);
    var e := d + ".";
    PlainAppend(d, ".");
    PlainAppend(e, ext);
  }

  /** No `?` or `#`: nothing that would end a URL's path. */
  predicate NoQuery(s: string) {
    '?' !in s && '#' !in s
  }

  lemma NoQueryAppend(a: string, b: string)
    ensures NoQuery(a + b) <==> NoQuery(a) && NoQuery(b)
  {
    assert forall c :: c in a + b <==> c in a || c in b;
  }

  lemma FixedPartsHaveNoQuery()
    ensures NoQuery(PublicPrefix) && NoQuery(Bucket) && NoQuery(['/'])
  {
    assert forall i | 0 <= i < |PublicPrefix| :: PublicPrefix[i] != '?' && PublicPrefix[i] != '#';
    assert forall i | 0 <= i < |Bucket| :: Bucket[i] != '?' && Bucket[i] != '#';
  }

  /** The fixed parts of a public URL are written as they are. */
  lemma FixedPartsAreKept()
    ensures Uri.EncodeUri(PublicPrefix + Bucket + "/") == PublicPrefix + Bucket + "/"
  {
    assert Uri.AllKept(PublicPrefix + Bucket + "/");
    Uri.EncodeUriIdentity(PublicPrefix + Bucket + "/");
  }

  lemma PrefixCancels(p: string, x: string, y: string)
    ensures p + x == p + y <==> x == y
  {
    if p + x == p + y {
      assert x == (p + x)[|p|..] && y == (p + y)[|p|..];
    }
  }

  /** Regrouping the pieces of a URL around its last `/`. */
  lemma Regroup(a: string, p: string, b: string, f: string)
    ensures a + (p + b + "/") + f == (a + p + b) + ['/'] + f
  {
  }

  /** A public URL is the encoded base, the folder's URL, a `/`, and the
      encoded file name. */
  lemma PublicUrlSplits(base: string, file: string)
    ensures PublicUrl(base, Bucket + "/" + file) ==
      (Uri.EncodeUri(base) + PublicPrefix + Bucket) + ['/'] + Uri.EncodeUri(file)
  {
    var fixed := PublicPrefix + Bucket + "/";
    assert base + PublicPrefix + (Bucket + "/" + file) == base + fixed + file;
    FixedPartsAreKept();
    Uri.EncodeUriAppend(base + fixed, file);
    Uri.EncodeUriAppend(base, fixed);
    Regroup(Uri.EncodeUri(base), PublicPrefix, Bucket, Uri.EncodeUri(file));
  }

  /** The last segment of an upload's public URL is the encoded file name,
      when the base URL, the random part and the file name carry no `/`,
      `?` or `#`. */
  lemma LastSegmentOfUpload(base: string, stamp: int, index: nat, rand: string, name: string)
    requires NoQuery(base)
    requires Plain(rand) && Plain(name)
    ensures LastSegment(Pathname(PublicUrl(base, ObjectPath(stamp, index, rand, name))), '/') ==
      Uri.EncodeUri(FileName(stamp, index, rand, name))
  {
    var file := FileName(stamp, index, rand, name);
    var encoded := Uri.EncodeUri(file);
    var head := Uri.EncodeUri(base) + PublicPrefix + Bucket;
    FileNameIsPlain(stamp, index, rand, name);
    Uri.EncodeUriKeepsPunctuation(base, '?');
    Uri.EncodeUriKeepsPunctuation(base, '#');
    Uri.EncodeUriKeepsPunctuation(file, '/');
    Uri.EncodeUriKeepsPunctuation(file, '?');
    Uri.EncodeUriKeepsPunctuation(file, '#');
    PublicUrlSplits(base, file);
    FixedPartsHaveNoQuery();
    NoQueryAppend(Uri.EncodeUri(base), PublicPrefix);
    NoQueryAppend(Uri.EncodeUri(base) + PublicPrefix, Bucket);
    NoQueryAppend(head, ['/']);
    NoQueryAppend(head + ['/'], encoded);
    LastSegmentOfJoin(head, '/', encoded);
  }

  /** As written, deleting a post removes the object an upload stored
      exactly when `encodeURI` leaves its file name as it is; otherwise it
      names an object that does not exist and the stored one stays. */
  lemma RemovedPathOfUpload(base: string, stamp: int, index: nat, rand: string, name: string)
    requires NoQuery(base)
    requires Plain(rand) && Plain(name)
    ensures RemovedPath(PublicUrl(base, ObjectPath(stamp, index, rand, name))) ==
      Bucket + "/" + Uri.EncodeUri(FileName(stamp, index, rand, name))
    ensures RemovedPath(PublicUrl(base, ObjectPath(stamp, index, rand, name))) == ObjectPath(stamp, index, rand, name)
      <==> Uri.AllKept(FileName(stamp, index, rand, name))
  {
    var file := FileName(stamp, index, rand, name);
    LastSegmentOfUpload(base, stamp, index, rand, name);
    Uri.EncodeUriIdentity(file);
    PrefixCancels(Bucket + "/", Uri.EncodeUri(file), file);
  }

  /** An image named "photo 1", with no dot, is stored as
      `...-<random>.photo 1`, and the deletion, as written, asks for
      `...-<random>.photo%201` instead. */
  lemma ImageWithSpaceOutlivesItsPost(base: string, stamp: int, index: nat, rand: string)
    requires NoQuery(base) && Plain(rand)
    ensures RemovedPath(PublicUrl(base, ObjectPath(stamp, index, rand, "photo 1"))) != ObjectPath(stamp, index, rand, "photo 1")
  {
    var name := "photo 1";
    assert Plain(name);
    LastSegmentIsSuffix(name, '.');
    var ext := LastSegment(name, '.');
    assert ext == name;
    var file := FileName(stamp, index, rand, name);
    assert file[|file| - 2] == ' ';
    assert !Uri.Kept(' ');
    RemovedPathOfUpload(base, stamp, index, rand, name);
  }

  /** Decoding the segment before deleting removes the object an upload
      stored, whatever characters its file name holds, when the base URL,
      the random part and the file name carry no `/`, `?` or `#`. */
  lemma DecodedPathOfUpload(base: string, stamp: int, index: nat, rand: string, name: string)
    requires NoQuery(base)
    requires Plain(rand) && Plain(name)
    ensures DecodedRemovedPath(PublicUrl(base, ObjectPath(stamp, index, rand, name))) == Some(ObjectPath(stamp, index, rand, name))
  {
    LastSegmentOfUpload(base, stamp, index, rand, name);
    Uri.DecodeEncode(FileName(stamp, index, rand, name));
  }

  /** Each decoded path of such URLs is a stored object. */
  lemma DecodedPathsAreStored(images: seq<File>, u: UploadInputs, urls: seq<string>, x: string)
    requires Fits(images, u) && |urls| == |images|
    requires forall i :: 0 <= i < |images| ==> u.errors[i].None?
    requires forall i :: 0 <= i < |urls| ==> DecodedRemovedPath(urls[i]) == Some(PathOf(images, u, i))
    requires exists url :: url in urls && DecodedRemovedPath(url) == Some(x)
    ensures x in UploadedPaths(images, u)
  {
    var url :| url in urls && DecodedRemovedPath(url) == Some(x);
    var i :| 0 <= i < |urls| && urls[i] == url;
    InStored(images, u, |images|, x);
  }

  /** Each stored object is the decoded path of one of such URLs. */
  lemma StoredIsDecodedPath(images: seq<File>, u: UploadInputs, urls: seq<string>, x: string)
    requires Fits(images, u) && |urls| == |images|
    requires forall i :: 0 <= i < |urls| ==> DecodedRemovedPath(urls[i]) == Some(PathOf(images, u, i))
    requires x in UploadedPaths(images, u)
    ensures exists url :: url in urls && DecodedRemovedPath(url) == Some(x)
  {
    InStored(images, u, |images|, x);
    var i :| 0 <= i < |images| && u.errors[i].None? && x == PathOf(images, u, i);
    assert urls[i] in urls;
  }

  /** URLs that each decode to the object of their own upload, when every
      upload succeeded, name exactly the objects stored. */
  lemma DecodedPathsOfUploads(images: seq<File>, u: UploadInputs, urls: seq<string>)
    requires Fits(images, u) && |urls| == |images|
    requires forall i :: 0 <= i < |images| ==> u.errors[i].None?
    requires forall i :: 0 <= i < |urls| ==> DecodedRemovedPath(urls[i]) == Some(PathOf(images, u, i))
    ensures DecodedRemovedPaths(urls) == Some(UploadedPaths(images, u))
  {
    assert forall url :: url in urls ==> DecodedRemovedPath(url).Some?;
    var paths := DecodedRemovedPaths(urls).value;
    forall x | x in paths ensures x in UploadedPaths(images, u) {
      DecodedPathsAreStored(images, u, urls, x);
    }
    forall x | x in UploadedPaths(images, u) ensures x in paths {
      StoredIsDecodedPath(images, u, urls, x);
    }
    assert paths == UploadedPaths(images, u);
  }

  /** So, with decoding, the URLs of a successful upload name exactly the
      objects it stored. */
  lemma UploadDeleteRoundTrip(images: seq<File>, u: UploadInputs, base: string)
    requires Fits(images, u) && UploadOutcome(images, u, base).Ok?
    requires NoQuery(base)
    requires forall i :: 0 <= i < |images| ==> Plain(u.rands[i]) && Plain(images[i].name)
    ensures DecodedRemovedPaths(UploadOutcome(images, u, base).value) == Some(UploadedPaths(images, u))
  {
    var urls := UploadOutcome(images, u, base).value;
    forall i | 0 <= i < |urls| ensures DecodedRemovedPath(urls[i]) == Some(PathOf(images, u, i)) {
      UrlOfUpload(images, u, base, i);
    }
    DecodedPathsOfUploads(images, u, urls);
  }

  /** The `i`-th URL of a successful upload names, once decoded, the
      `i`-th object stored. */
  lemma UrlOfUpload(images: seq<File>, u: UploadInputs, base: string, i: nat)
    requires Fits(images, u) && UploadOutcome(images, u, base).Ok? && i < |images|
    requires NoQuery(base)
    requires forall i :: 0 <= i < |images| ==> Plain(u.rands[i]) && Plain(images[i].name)
    ensures u.errors[i].None?
    ensures DecodedRemovedPath(UploadOutcome(images, u, base).value[i]) == Some(PathOf(images, u, i))
  {
    DecodedPathOfUpload(base, u.stamps[i], i, u.rands[i], images[i].name);
  }

  /** The rows `.eq("id", postId)` selects. */
  function WithId(postId: PostId): Post -> bool {
    (p: Post) => p.id == postId
  }

  /** Every row but the caller's post with that id. */
  function NotOwnedWithId(postId: PostId, user: UserId): Post -> bool {
    (p: Post) => !(p.id == postId && p.user_id == user)
  }

  /** The checks `deletePost` makes before it deletes anything: a signed-in
      caller, exactly one post with the id, owned by the caller. */
  datatype DeleteCheck = Refused(message: string) | Allowed(user: UserId, post: Post)

  function CheckDelete(posts: seq<Post>, caller: Option<UserId>, postId: PostId, fetchFails: bool): (c: DeleteCheck)
    ensures c.Allowed? <==>
      && caller.Some? && !fetchFails && Count(posts, WithId(postId)) == 1
      && Filter(posts, WithId(postId))[0].user_id == caller.value
    ensures c.Allowed? ==> c.user == caller.value && c.post in posts && c.post.id == postId && c.post.user_id == c.user
    ensures caller.None? ==> c == Refused(LoginRequired)
    ensures caller.Some? && (fetchFails || Count(posts, WithId(postId)) != 1) ==> c == Refused(PostNotFound)
    ensures (caller.Some? && !fetchFails && Count(posts, WithId(postId)) == 1 &&
             Filter(posts, WithId(postId))[0].user_id != caller.value) ==> c == Refused(NotPostOwner)
  {
    var found := Filter(posts, WithId(postId));
    if caller.None? then Refused(LoginRequired)
    else if fetchFails || |found| != 1 then Refused(PostNotFound)
    else if found[0].user_id != caller.value then Refused(NotPostOwner)
    else
      assert found[0] in found;
      Allowed(caller.value, found[0])
  }

  /** After a successful deletion no post with the id is left. */
  lemma DeletedPostIsGone(posts: seq<Post>, caller: Option<UserId>, postId: PostId)
    requires CheckDelete(posts, caller, postId, false).Allowed?
    ensures forall p :: p in Filter(posts, NotOwnedWithId(postId, caller.value)) ==> p.id != postId
  {
    var post := CheckDelete(posts, caller, postId, false).post;
    var found := Filter(posts, WithId(postId));
    forall p | p in posts && p.id == postId ensures p.user_id == caller.value {
      assert p in found;
      if |found| == 1 {
        assert found[0] in found;
      }
    }
  }

  // ---------------------------------------------------------------------
  // createComment, updateComment, deleteComment

  const CreateCommentFailed := "댓글 작성에 실패했습니다: "
  const UpdateCommentFailed := "댓글 수정에 실패했습니다: "
  const DeleteCommentFailed := "댓글 삭제에 실패했습니다: "

  /** The text a soft-deleted comment keeps. */
  const DeletedText := "삭제된 댓글입니다."

  /** `parent_id: parent_id || null`. */
  function ParentOf(parentId: Option<CommentId>): (r: Option<CommentId>)
    ensures r.Some? <==> parentId.Some? && parentId.value != ""
    ensures r.Some? ==> r == parentId
  {
    if parentId.Some? && parentId.value != "" then parentId else None
  }

  /** The rows `.eq("id", commentId).eq("user_id", user)` selects. */
  function OwnComment(commentId: CommentId, user: UserId): Comment -> bool {
    (c: Comment) => c.id == commentId && c.user_id == user
  }

  /** Only the caller's own row with that id changes: it gets the new
      content and the edited mark, and keeps every other field. */
  function EditRows(comments: seq<Comment>, commentId: CommentId, user: UserId, content: string): (r: seq<Comment>)
    ensures |r| == |comments|
    ensures forall i :: 0 <= i < |r| ==> r[i].(content := comments[i].content, is_edited := comments[i].is_edited) == comments[i]
    ensures forall i :: 0 <= i < |r| && OwnComment(commentId, user)(comments[i]) ==> r[i].content == content && r[i].is_edited
    ensures forall i :: 0 <= i < |r| && !OwnComment(commentId, user)(comments[i]) ==> r[i] == comments[i]
  {
    seq(|comments|, i requires 0 <= i < |comments| =>
      if OwnComment(commentId, user)(comments[i]) then comments[i].(content := content, is_edited := true) else comments[i])
  }

  /** Only the caller's own row with that id changes: it is marked deleted
      and its text replaced, and the row stays with its other fields. */
  function SoftDeleteRows(comments: seq<Comment>, commentId: CommentId, user: UserId): (r: seq<Comment>)
    ensures |r| == |comments|
    ensures forall i :: 0 <= i < |r| ==> r[i].(content := comments[i].content, is_deleted := comments[i].is_deleted) == comments[i]
    ensures forall i :: 0 <= i < |r| && OwnComment(commentId, user)(comments[i]) ==> r[i].content == DeletedText && r[i].is_deleted
    ensures forall i :: 0 <= i < |r| && !OwnComment(commentId, user)(comments[i]) ==> r[i] == comments[i]
  {
    seq(|comments|, i requires 0 <= i < |comments| =>
      if OwnComment(commentId, user)(comments[i]) then comments[i].(content := DeletedText, is_deleted := true) else comments[i])
  }

  /** Editing or deleting a comment someone else wrote changes nothing. */
  lemma NonOwnerChangesNothing(comments: seq<Comment>, commentId: CommentId, user: UserId, content: string)
    requires forall c :: c in comments ==> !(c.id == commentId && c.user_id == user)
    ensures EditRows(comments, commentId, user, content) == comments
    ensures SoftDeleteRows(comments, commentId, user) == comments
  {
    assert forall i :: 0 <= i < |comments| ==> comments[i] in comments;
  }

  /** A soft delete keeps every row and its id, author, post and parent, so
      the replies of a deleted comment keep their place. */
  lemma SoftDeleteKeepsRows(comments: seq<Comment>, commentId: CommentId, user: UserId)
    ensures var r := SoftDeleteRows(comments, commentId, user);
      forall i :: 0 <= i < |r| ==>
        && r[i].id == comments[i].id && r[i].user_id == comments[i].user_id
        && r[i].post_id == comments[i].post_id && r[i].parent_id == comments[i].parent_id
        && r[i].created_at == comments[i].created_at
  {
  }

  /** After the caller deletes their comment it leaves the post's tree and
      the post's comment count. */
  lemma SoftDeletedLeavesTree(comments: seq<Comment>, commentId: CommentId, user: UserId,
                              postId: PostId, failedReplies: set<CommentId>, i: nat)
    requires i < |FetchComments(SoftDeleteRows(comments, commentId, user), postId, None, failedReplies).value|
    ensures var th := FetchComments(SoftDeleteRows(comments, commentId, user), postId, None, failedReplies).value[i];
      && !(th.comment.id == commentId && th.comment.user_id == user)
      && forall c :: c in th.replies ==> !(c.id == commentId && c.user_id == user)
  {
    var after := SoftDeleteRows(comments, commentId, user);
    FetchCommentsTopLevel(after, postId, failedReplies);
    FetchCommentsReplies(after, postId, failedReplies, i);
    forall c | c in after && c.id == commentId && c.user_id == user ensures c.is_deleted {
      var k :| 0 <= k < |after| && after[k] == c;
    }
  }

  // ---------------------------------------------------------------------
  // The store

  class Store {
    var posts: seq<Post>
    var likes: seq<Like>
    var comments: seq<Comment>
    var topics: seq<Topic>
    /** The object names in the `post-images` bucket. */
    var objects: set<string>
    /** The user `auth.getUser()` returns; `None` also when it fails. */
    var caller: Option<UserId>

    /** Post and comment ids are unique, and a user likes a post at most
        once: the keys the store enforces. */
    ghost predicate Valid()
      reads this
    {
      && DistinctBy(posts, (p: Post) => p.id)
      && DistinctBy(likes, (l: Like) => l)
      && DistinctBy(comments, (c: Comment) => c.id)
    }

    constructor (posts: seq<Post>, likes: seq<Like>, comments: seq<Comment>, topics: seq<Topic>,
                 objects: set<string>, caller: Option<UserId>)
      ensures this.posts == posts && this.likes == likes && this.comments == comments
      ensures this.topics == topics && this.objects == objects && this.caller == caller
    {
      this.posts := posts;
      this.likes := likes;
      this.comments := comments;
      this.topics := topics;
      this.objects := objects;
      this.caller := caller;
    }

    /** `togglePostLike(postId)`. */
    method TogglePostLike(postId: PostId, lookupFails: bool, writeError: Option<string>) returns (r: Result<bool, string>)
      requires Valid()
      modifies this
      ensures Valid()
      ensures var o := Toggle(old(likes), caller, postId, lookupFails, writeError);
        r == o.result && likes == o.likes
      ensures posts == old(posts) && comments == old(comments) && topics == old(topics)
      ensures objects == old(objects) && caller == old(caller)
    {
      TogglePreservesDistinct(likes, caller, postId, lookupFails, writeError);
      if caller.None? {
        return Err(LoginRequired);
      }
      var user := caller.value;
      var existing := !lookupFails && Count(likes, LikeBy(postId, user)) == 1;
      if existing {
        if writeError.Some? {
          return Err(writeError.value);
        }
        likes := Filter(likes, NotLikeBy(postId, user));
        return Ok(false);
      }
      if writeError.Some? {
        return Err(writeError.value);
      }
      if Like(postId, user) in likes {
        return Err(DuplicateLike);
      }
      likes := likes + [Like(postId, user)];
      return Ok(true);
    }

    /** The row `createPost` inserts. */
    static function NewPostRow(form: PostForm, id: PostId, now: int, user: UserId, urls: seq<string>): Post {
      Post(id, form.title, form.content, Some(form.topic_id), urls, 0, 0, true, now, user)
    }

    /** `createPost(postData)`: upload the images, then insert the post.
        Uploads that succeed stay stored whatever happens next. */
    method UploadImages(images: seq<File>, u: UploadInputs, base: string) returns (r: Result<seq<string>, string>)
      requires Fits(images, u)
      modifies this
      ensures r == UploadOutcome(images, u, base)
      ensures objects == old(objects) + UploadedPaths(images, u)
      ensures posts == old(posts) && likes == old(likes) && comments == old(comments)
      ensures topics == old(topics) && caller == old(caller)
    {
      var i := 0;
      while i < |images|
        invariant 0 <= i <= |images|
        invariant posts == old(posts) && likes == old(likes) && comments == old(comments)
        invariant topics == old(topics) && caller == old(caller)
        invariant objects == old(objects) + Stored(images, u, i)
      {
        if u.errors[i].None? {
          objects := objects + {PathOf(images, u, i)};
        }
        i := i + 1;
      }
      r := UploadOutcome(images, u, base);
    }

    /** `createPost(postData)`: upload the images, then insert the post.
        Uploads that succeed stay stored whatever happens next. */
    method CreatePost(form: PostForm, id: PostId, now: int, u: UploadInputs, base: string,
                      insertError: Option<string>) returns (r: Result<Post, string>)
      requires Valid()
      requires Fits(form.images.GetOr([]), u)
      requires forall p :: p in posts ==> p.id != id
      modifies this
      ensures Valid()
      ensures likes == old(likes) && comments == old(comments) && topics == old(topics) && caller == old(caller)
      ensures caller.None? ==> r == Err(LoginRequired) && posts == old(posts) && objects == old(objects)
      ensures caller.Some? ==> objects == old(objects) + UploadedPaths(form.images.GetOr([]), u)
      ensures caller.Some? ==> var up := UploadOutcome(form.images.GetOr([]), u, base);
        if up.Err? then r == Err(up.error) && posts == old(posts)
        else if insertError.Some? then r == Err(CreatePostFailed + insertError.value) && posts == old(posts)
        else r == Ok(NewPostRow(form, id, now, caller.value, up.value)) && posts == old(posts) + [r.value]
    {
      if caller.None? {
        return Err(LoginRequired);
      }
      var up := UploadImages(form.images.GetOr([]), u, base);
      if up.Err? {
        return Err(up.error);
      }
      if insertError.Some? {
        return Err(CreatePostFailed + insertError.value);
      }
      var row := NewPostRow(form, id, now, caller.value, up.value);
      DistinctByAppend(posts, (p: Post) => p.id, row);
      posts := posts + [row];
      return Ok(row);
    }

    /** `deletePost(postId)`: refuse unless the caller owns the post; then
        remove its images (a storage failure is ignored) and delete the row
        by id and owner. */
    method DeletePost(postId: PostId, fetchFails: bool, storageFails: bool, deleteError: Option<string>)
      returns (r: Result<(), string>)
      requires Valid()
      modifies this
      ensures Valid()
      ensures likes == old(likes) && comments == old(comments) && topics == old(topics) && caller == old(caller)
      ensures var check := CheckDelete(old(posts), caller, postId, fetchFails);
        if check.Refused? then
          r == Err(check.message) && posts == old(posts) && objects == old(objects)
        else
          && objects == (if check.post.images != [] && !storageFails && DecodedRemovedPaths(check.post.images).Some?
                         then old(objects) - DecodedRemovedPaths(check.post.images).value else old(objects))
          && (deleteError.Some? ==> r == Err(DeletePostFailed + deleteError.value) && posts == old(posts))
          && (deleteError.None? ==> r == Ok(()) && posts == Filter(old(posts), NotOwnedWithId(postId, check.user)))
    {
      var check := CheckDelete(posts, caller, postId, fetchFails);
      if check.Refused? {
        return Err(check.message);
      }
      var paths := DecodedRemovedPaths(check.post.images);
      if check.post.images != [] && !storageFails && paths.Some? {
        objects := objects - paths.value;
      }
      if deleteError.Some? {
        return Err(DeletePostFailed + deleteError.value);
      }
      DistinctByFilter(posts, NotOwnedWithId(postId, check.user), (p: Post) => p.id);
      posts := Filter(posts, NotOwnedWithId(postId, check.user));
      return Ok(());
    }

    /** The row `createComment` inserts. */
    static function NewCommentRow(id: CommentId, postId: PostId, user: UserId, content: string,
                                  parentId: Option<CommentId>, now: int): Comment {
      Comment(id, postId, user, ParentOf(parentId), content, 0, false, false, now)
    }

    /** `createComment(postId, { content, parent_id })`. */
    method CreateComment(postId: PostId, content: string, parentId: Option<CommentId>,
                         id: CommentId, now: int, insertError: Option<string>) returns (r: Result<Comment, string>)
      requires Valid()
      requires forall c :: c in comments ==> c.id != id
      modifies this
      ensures Valid()
      ensures posts == old(posts) && likes == old(likes) && topics == old(topics)
      ensures objects == old(objects) && caller == old(caller)
      ensures caller.None? ==> r == Err(LoginRequired) && comments == old(comments)
      ensures caller.Some? && insertError.Some? ==>
        r == Err(CreateCommentFailed + insertError.value) && comments == old(comments)
      ensures caller.Some? && insertError.None? ==>
        && r == Ok(NewCommentRow(id, postId, caller.value, content, parentId, now))
        && comments == old(comments) + [r.value]
    {
      if caller.None? {
        return Err(LoginRequired);
      }
      if insertError.Some? {
        return Err(CreateCommentFailed + insertError.value);
      }
      var row := NewCommentRow(id, postId, caller.value, content, parentId, now);
      DistinctByAppend(comments, (c: Comment) => c.id, row);
      comments := comments + [row];
      return Ok(row);
    }

    /** `updateComment(commentId, content)`: only the caller's own row with
        that id is changed, and `.single()` makes finding none an error. */
    method UpdateComment(commentId: CommentId, content: string, writeError: Option<string>)
      returns (r: Result<Comment, string>)
      requires Valid()
      modifies this
      ensures Valid()
      ensures posts == old(posts) && likes == old(likes) && topics == old(topics)
      ensures objects == old(objects) && caller == old(caller)
      ensures caller.None? ==> r == Err(LoginRequired) && comments == old(comments)
      ensures caller.Some? && writeError.Some? ==>
        r == Err(UpdateCommentFailed + writeError.value) && comments == old(comments)
      ensures caller.Some? && writeError.None? ==>
        var mine := Filter(old(comments), OwnComment(commentId, caller.value));
        if |mine| != 1 then r == Err(UpdateCommentFailed + NotSingleRow) && comments == old(comments)
        else && r == Ok(mine[0].(content := content, is_edited := true))
             && comments == EditRows(old(comments), commentId, caller.value, content)
    {
      if caller.None? {
        return Err(LoginRequired);
      }
      if writeError.Some? {
        return Err(UpdateCommentFailed + writeError.value);
      }
      var mine := Filter(comments, OwnComment(commentId, caller.value));
      if |mine| != 1 {
        return Err(UpdateCommentFailed + NotSingleRow);
      }
      EditKeepsIds(comments, commentId, caller.value, content);
      comments := EditRows(comments, commentId, caller.value, content);
      return Ok(mine[0].(content := content, is_edited := true));
    }

    /** `deleteComment(commentId)`: a soft delete of the caller's own row
        with that id. Finding no such row is not an error. */
    method DeleteComment(commentId: CommentId, writeError: Option<string>) returns (r: Result<(), string>)
      requires Valid()
      modifies this
      ensures Valid()
      ensures posts == old(posts) && likes == old(likes) && topics == old(topics)
      ensures objects == old(objects) && caller == old(caller)
      ensures caller.None? ==> r == Err(LoginRequired) && comments == old(comments)
      ensures caller.Some? && writeError.Some? ==>
        r == Err(DeleteCommentFailed + writeError.value) && comments == old(comments)
      ensures caller.Some? && writeError.None? ==>
        r == Ok(()) && comments == SoftDeleteRows(old(comments), commentId, caller.value)
    {
      if caller.None? {
        return Err(LoginRequired);
      }
      if writeError.Some? {
        return Err(DeleteCommentFailed + writeError.value);
      }
      SoftDeleteKeepsIds(comments, commentId, caller.value);
      comments := SoftDeleteRows(comments, commentId, caller.value);
      return Ok(());
    }
  }

  /** Editing keeps the comment ids, hence their uniqueness. */
  lemma EditKeepsIds(comments: seq<Comment>, commentId: CommentId, user: UserId, content: string)
    requires DistinctBy(comments, (c: Comment) => c.id)
    ensures DistinctBy(EditRows(comments, commentId, user, content), (c: Comment) => c.id)
  {
    var r := EditRows(comments, commentId, user, content);
    assert forall i :: 0 <= i < |r| ==> r[i].id == comments[i].id;
  }

  /** Soft deletion keeps the comment ids, hence their uniqueness. */
  lemma SoftDeleteKeepsIds(comments: seq<Comment>, commentId: CommentId, user: UserId)
    requires DistinctBy(comments, (c: Comment) => c.id)
    ensures DistinctBy(SoftDeleteRows(comments, commentId, user), (c: Comment) => c.id)
  {
    SoftDeleteKeepsRows(comments, commentId, user);
  }
}
