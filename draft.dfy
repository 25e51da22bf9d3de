/** The post creation page (`src/app/posts/create/page.tsx`): the images
    chosen so far and their previews, the form fields, the "unsaved
    changes" flag, and how a failed submission is reported. The preview
    URLs the browser makes for new files are inputs. */
module PostDraft {
  import opened Wrappers
  import opened Text
  import opened Records
  import opened Schemas
  import Mutations

  /** The image types the page accepts. */
  const AllowedTypes: seq<string> := ["image/jpeg", "image/jpg", "image/png", "image/webp"]

  /** Why a batch of chosen files is turned away, if it is. */
  datatype BatchVerdict = Accepted | TooMany | TooLarge(name: string) | BadType(name: string)

  /** A single file the page accepts: at most 5 MB and of an allowed type. */
  predicate FileOk(f: File) {
    f.size <= MaxImageBytes && f.mimeType in AllowedTypes
  }

  /** The verdict on the files from position `i` on, checked in order, the
      size before the type. */
  function FirstRejection(files: seq<File>, i: nat): (v: BatchVerdict)
    requires i <= |files|
    ensures v.Accepted? <==> forall j :: i <= j < |files| ==> FileOk(files[j])
    ensures v.TooLarge? ==> exists j :: i <= j < |files| && files[j].name == v.name && files[j].size > MaxImageBytes &&
                                        forall k :: i <= k < j ==> FileOk(files[k])
    ensures v.BadType? ==> exists j :: i <= j < |files| && files[j].name == v.name && files[j].size <= MaxImageBytes &&
                                       files[j].mimeType !in AllowedTypes && forall k :: i <= k < j ==> FileOk(files[k])
    ensures !v.TooMany?
    decreases |files| - i
  {
    if i == |files| then Accepted
    else if files[i].size > MaxImageBytes then TooLarge(files[i].name)
    else if files[i].mimeType !in AllowedTypes then BadType(files[i].name)
    else FirstRejection(files, i + 1)
  }

  /** `handleImageChange`'s decision on a batch when `selected` images are
      already chosen: too many in total, else the first file too large or
      of another type, else accepted. */
  function BatchCheck(files: seq<File>, selected: nat): (v: BatchVerdict)
    ensures v.Accepted? <==> selected + |files| <= MaxImages && forall f :: f in files ==> FileOk(f)
    ensures v.TooMany? <==> selected + |files| > MaxImages
  {
    if |files| + selected > MaxImages then TooMany
    else
      var v := FirstRejection(files, 0);
      assert v.Accepted? <==> forall f :: f in files ==> FileOk(f) by {
        if v.Accepted? {
          forall f | f in files ensures FileOk(f) {
            var j :| 0 <= j < |files| && files[j] == f;
          }
        }
      }
      v
  }

  /** `list.filter((_, i) => i !== index)`. */
  function RemoveAt<T>(xs: seq<T>, index: int): (r: seq<T>)
    ensures 0 <= index < |xs| ==> |r| == |xs| - 1
    ensures !(0 <= index < |xs|) ==> r == xs
  {
    if 0 <= index < |xs| then xs[..index] + xs[index + 1..] else xs
  }

  /** Removal drops exactly the element at `index`: those before it keep
      their place and those after it move down by one. */
  lemma RemoveAtKeepsOthers<T>(xs: seq<T>, index: int)
    requires 0 <= index < |xs|
    ensures var r := RemoveAt(xs, index);
      && (forall j :: 0 <= j < index ==> r[j] == xs[j])
      && (forall j :: index <= j < |r| ==> r[j] == xs[j + 1])
  {
  }

  /** Removing the last element appended gives back the list before. */
  lemma RemoveAtUndoesAppend<T>(xs: seq<T>, x: T)
    ensures RemoveAt(xs + [x], |xs|) == xs
  {
    assert (xs + [x])[..|xs|] == xs;
  }

  /** The status line while a submission is in flight. */
  function PendingStatus(images: Option<seq<File>>): (r: string)
    ensures images.Some? && |images.value| > 0 ==> r == "이미지 " + IntToString(|images.value|) + "개 업로드 중..."
    ensures images.None? || |images.value| == 0 ==> r == "게시글 작성 중..."
  {
    if images.Some? && |images.value| > 0 then "이미지 " + IntToString(|images.value|) + "개 업로드 중..."
    else "게시글 작성 중..."
  }

  const ImageUploadWord := "이미지 업로드"
  const NetworkWord := "네트워크"
  const SizeWord := "크기"
  const ImageUploadToast := "이미지 업로드에 실패했습니다. 이미지 파일을 확인해주세요."
  const NetworkToast := "네트워크 연결을 확인해주세요."
  const SizeToast := "이미지 파일 크기가 너무 큽니다. 5MB 이하의 파일을 사용해주세요."
  const GenericToast := "게시글 작성에 실패했습니다. 다시 시도해주세요."

  /** The toast shown for a failed submission: the first keyword found in
      the message decides, and an error without one shows its own message. */
  function FailureToast(e: Thrown): (r: string)
    ensures e.NotAnError? ==> r == GenericToast
    ensures e.ErrorWith? && Contains(e.message, ImageUploadWord) ==> r == ImageUploadToast
    ensures e.ErrorWith? && !Contains(e.message, ImageUploadWord) && Contains(e.message, NetworkWord) ==> r == NetworkToast
    ensures (e.ErrorWith? && !Contains(e.message, ImageUploadWord) && !Contains(e.message, NetworkWord) &&
             Contains(e.message, SizeWord)) ==> r == SizeToast
    ensures (e.ErrorWith? && !Contains(e.message, ImageUploadWord) && !Contains(e.message, NetworkWord) &&
             !Contains(e.message, SizeWord)) ==> r == e.message
  {
    match e
    case NotAnError => GenericToast
    case ErrorWith(m) =>
      if Contains(m, ImageUploadWord) then ImageUploadToast
      else if Contains(m, NetworkWord) then NetworkToast
      else if Contains(m, SizeWord) then SizeToast
      else m
  }

  /** A failed upload, as `createPost` reports it, is shown as an image
      upload failure whatever the file and the storage error. */
  lemma UploadFailureToast(name: string, storageError: string)
    ensures FailureToast(ErrorWith(Mutations.UploadFailedPrefix + name + "): " + storageError)) == ImageUploadToast
  {
    var m := Mutations.UploadFailedPrefix + name + "): " + storageError;
    assert Mutations.UploadFailedPrefix == ImageUploadWord + " 실패 (";
    PrefixContained(m, ImageUploadWord, " 실패 (" + name + "): " + storageError);
  }

  /** Where a submission leaves the page. */
  datatype SubmitResult = NotSubmitted | Navigated(href: string) | Failed(toast: string)

  /** The page's state. */
  class Draft {
    var title: string
    var content: string
    var topicId: string
    var images: seq<File>
    var previews: seq<string>
    var dirty: bool
    var status: string

    /** Each chosen image has its preview at the same position, and no more
        than five are chosen. */
    ghost predicate Valid()
      reads this
    {
      |images| == |previews| && |images| <= MaxImages
    }

    /** The form's values. */
    function Form(): PostForm
      reads this
    {
      PostForm(title, content, topicId, Some(images))
    }

    /** The page as it opens. */
    constructor ()
      ensures Valid()
      ensures title == "" && content == "" && topicId == "" && images == [] && previews == []
      ensures !dirty && status == ""
    {
      title, content, topicId := "", "", "";
      images, previews := [], [];
      dirty, status := false, "";
    }

    /** The form's `watch` callback after a named field changes: the flag is
        raised when some field is filled or an image is chosen. */
    method Watch()
      modifies this
      ensures dirty == (old(dirty) || title != "" || content != "" || topicId != "" || |images| > 0)
      ensures title == old(title) && content == old(content) && topicId == old(topicId)
      ensures images == old(images) && previews == old(previews) && status == old(status)
    {
      if title != "" || content != "" || topicId != "" || |images| > 0 {
        dirty := true;
      }
    }

    /** `handleImageChange(files)`: a batch is taken whole, with the
        previews the browser made for it, or not at all. */
    method HandleImageChange(files: seq<File>, urls: seq<string>) returns (v: BatchVerdict)
      requires Valid() && |urls| == |files|
      modifies this
      ensures Valid()
      ensures v == BatchCheck(files, |old(images)|)
      ensures v.Accepted? ==> images == old(images) + files && previews == old(previews) + urls && dirty
      ensures !v.Accepted? ==> images == old(images) && previews == old(previews) && dirty == old(dirty)
      ensures title == old(title) && content == old(content) && topicId == old(topicId) && status == old(status)
    {
      if |files| + |images| > MaxImages {
        return TooMany;
      }
      var i := 0;
      while i < |files|
        invariant 0 <= i <= |files|
        invariant FirstRejection(files, 0) == FirstRejection(files, i)
      {
        if files[i].size > MaxImageBytes {
          return TooLarge(files[i].name);
        }
        if files[i].mimeType !in AllowedTypes {
          return BadType(files[i].name);
        }
        i := i + 1;
      }
      images := images + files;
      previews := previews + urls;
      dirty := true;
      return Accepted;
    }

    /** `removeImage(index)`: the image and its preview leave together;
        setting the field runs the `watch` callback. */
    method RemoveImage(index: int)
      requires Valid()
      modifies this
      ensures Valid()
      ensures images == RemoveAt(old(images), index) && previews == RemoveAt(old(previews), index)
      ensures dirty == (old(dirty) || title != "" || content != "" || topicId != "" || |old(images)| > 0)
      ensures title == old(title) && content == old(content) && topicId == old(topicId) && status == old(status)
    {
      Watch();
      images := RemoveAt(images, index);
      previews := RemoveAt(previews, index);
    }

    /** `handleContentChange(content)`. */
    method HandleContentChange(newContent: string)
      modifies this
      ensures content == newContent && dirty
      ensures title == old(title) && topicId == old(topicId) && images == old(images)
      ensures previews == old(previews) && status == old(status)
    {
      content := newContent;
      dirty := true;
    }

    /** The topic select's `onValueChange`. */
    method HandleTopicChange(newTopic: string)
      modifies this
      ensures topicId == newTopic && dirty
      ensures title == old(title) && content == old(content) && images == old(images)
      ensures previews == old(previews) && status == old(status)
    {
      topicId := newTopic;
      dirty := true;
    }

    /** Typing in the title field, which only the `watch` callback
        follows. */
    method HandleTitleChange(newTitle: string)
      modifies this
      ensures title == newTitle
      ensures dirty == (old(dirty) || newTitle != "" || content != "" || topicId != "" || |images| > 0)
      ensures content == old(content) && topicId == old(topicId) && images == old(images)
      ensures previews == old(previews) && status == old(status)
    {
      title := newTitle;
      Watch();
    }

    /** `handleSubmit(onSubmit)`: nothing happens unless the form passes the
        schema; then the post is created (its outcome is an input) and the
        page moves to the new post or reports the failure. Only success
        clears the flag. */
    method Submit(outcome: Result<PostId, Thrown>) returns (r: SubmitResult)
      modifies this
      ensures Validate(old(Form())).Err? ==> r == NotSubmitted && dirty == old(dirty) && status == old(status)
      ensures Validate(old(Form())).Ok? && outcome.Ok? ==>
        r == Navigated("/posts/" + outcome.value) && !dirty && status == "작성 완료! 페이지 이동 중..."
      ensures Validate(old(Form())).Ok? && outcome.Err? ==>
        r == Failed(FailureToast(outcome.error)) && dirty == old(dirty) && status == ""
      ensures title == old(title) && content == old(content) && topicId == old(topicId)
      ensures images == old(images) && previews == old(previews)
    {
      if Validate(Form()).Err? {
        return NotSubmitted;
      }
      status := PendingStatus(Some(images));
      if outcome.Ok? {
        status := "작성 완료! 페이지 이동 중...";
        dirty := false;
        return Navigated("/posts/" + outcome.value);
      }
      status := "";
      return Failed(FailureToast(outcome.error));
    }

    /** The file input is disabled once five images are chosen. */
    predicate CanAddImages()
      reads this
    {
      |images| < MaxImages
    }
  }

  /** The file input is enabled exactly when one more file would not be
      refused as too many. */
  lemma CanAddImagesIffOneMoreFits(d: Draft, f: File)
    ensures d.CanAddImages() <==> !BatchCheck([f], |d.images|).TooMany?
  {
  }

  /** A batch that fits is taken exactly when every file in it is allowed,
      so after any accepted batch at most five images are chosen. */
  lemma AcceptedBatchFits(files: seq<File>, selected: nat)
    requires BatchCheck(files, selected).Accepted?
    ensures selected + |files| <= MaxImages
    ensures forall f :: f in files ==> f.size <= MaxImageBytes && f.mimeType in AllowedTypes
  {
  }
}
