/** A post in the list (`src/components/post-card.tsx`): the text preview,
    the like button's guard and the share data. */
module PostCard {
  import opened Wrappers
  import opened Text
  import opened Schemas

  /** UTF-16 code units shown before the preview is cut. */
  const PreviewLength: nat := 100

  /** UTF-16 code units of the text the share message carries. */
  const ShareLength: nat := 50

  const Ellipsis := "..."

  /** The preview line: its text, and whether "..." follows it. */
  datatype Preview = Preview(text: string, ellipsis: bool)

  /** `isContentLong`. */
  predicate IsLong(content: string) {
    Utf16Length(StripHtml(content)) > PreviewLength
  }

  /** The preview of a post's content, collapsed or expanded. */
  function PreviewOf(content: string, expanded: bool): (r: Preview)
    ensures expanded ==> r.text == StripHtml(content)
    ensures !expanded ==> r.text == Utf16Take(StripHtml(content), PreviewLength)
    ensures r.ellipsis <==> IsLong(content) && !expanded
  {
    var text := StripHtml(content);
    Preview(if expanded then text else Utf16Take(text, PreviewLength), Utf16Length(text) > PreviewLength && !expanded)
  }

  /** The collapsed preview is the start of the expanded one, at most 100
      code units long, and all of it when the text is short; "..." marks
      exactly the previews that hide something. */
  lemma PreviewCollapsedIsPrefix(content: string)
    ensures var short, full := PreviewOf(content, false), PreviewOf(content, true);
      && Utf16Length(short.text) <= PreviewLength
      && short.text == full.text[..|short.text|]
      && (short.text == full.text <==> !IsLong(content))
      && (short.ellipsis <==> short.text != full.text)
      && !full.ellipsis
  {
    Utf16TakeWhole(StripHtml(content), PreviewLength);
  }

  /** No preview shows a tag. */
  lemma PreviewHasNoTag(content: string, expanded: bool)
    ensures TagFree(PreviewOf(content, expanded).text)
  {
    var text := StripHtml(content);
    StripHtmlClean(content);
    var r := PreviewOf(content, expanded).text;
    assert r == text[..|r|];
    forall i, j | 0 <= i < j < |r| && r[i] == '<' ensures r[j] != '>' {
      assert r[i] == text[i] && r[j] == text[j];
    }
  }

  /** `post.isLiked || false`. */
  function ShownLiked(isLiked: Option<bool>): (r: bool)
    ensures r <==> isLiked == Some(true)
  {
    isLiked.GetOr(false)
  }

  /** What a click on the heart does. */
  datatype LikeClick = Ignored | Toggled | ToggleFailed(toast: string)

  const LikeFailedToast := "좋아요 처리에 실패했습니다. 다시 시도해주세요."

  /** `handleLike`: nothing while a toggle is pending; otherwise one toggle
      is requested and a failure is reported. */
  function HandleLike(pending: bool, outcome: Result<bool, string>): (r: LikeClick)
    ensures pending <==> r.Ignored?
    ensures !pending && outcome.Err? ==> r == ToggleFailed(LikeFailedToast)
    ensures !pending && outcome.Ok? ==> r == Toggled
  {
    if pending then Ignored
    else if outcome.Err? then ToggleFailed(LikeFailedToast)
    else Toggled
  }

  datatype ShareData = ShareData(title: string, text: string, url: string)

  /** `shareData`: the title, the first 50 code units of the text followed
      by "...", and the post's address under the page's origin. */
  function Share(title: string, content: string, origin: string, postId: string): (r: ShareData)
    ensures r.title == title
    ensures r.url == origin + "/posts/" + postId
  {
    ShareData(title, Utf16Take(StripHtml(content), ShareLength) + Ellipsis, origin + "/posts/" + postId)
  }

  /** The shared text begins like the collapsed preview and always ends in
      "...". */
  lemma ShareTextStartsLikePreview(title: string, content: string, origin: string, postId: string)
    ensures var t := Share(title, content, origin, postId).text;
      var n := |t| - |Ellipsis|;
      && Utf16Length(t[..n]) <= ShareLength
      && t[n..] == Ellipsis
      && n <= |PreviewOf(content, false).text|
      && t[..n] == PreviewOf(content, false).text[..n]
  {
    var text := StripHtml(content);
    Utf16TakeGrows(text, ShareLength, PreviewLength);
    var t := Share(title, content, origin, postId).text;
    assert t[..|t| - |Ellipsis|] == Utf16Take(text, ShareLength);
  }

  /** The shared address ends with the post id as its last path segment
      when the id holds no `/`. */
  lemma ShareUrlNamesPost(title: string, content: string, origin: string, postId: string)
    requires '/' !in postId
    ensures LastSegment(Share(title, content, origin, postId).url, '/') == postId
  {
    assert origin + "/posts/" + postId == (origin + "/posts") + ['/'] + postId;
    LastSegmentOfJoin(origin + "/posts", '/', postId);
  }
}
