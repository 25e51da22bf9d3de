/** The comment components: the form that writes a comment or a reply
    (`src/components/comment-form.tsx`), one comment with its edit, delete
    and reply controls (`src/components/comment-item.tsx`) and the section
    that lists a post's comments under a running total
    (`src/components/comments-section.tsx`). The mutation each handler
    awaits is given as its outcome. */
module CommentViews {
  import opened Wrappers
  import opened Text
  import opened Records
  import opened PostDraft
  import Seqs
  import Api
  import Mutations

  /** The most characters a comment may hold. */
  const MaxCommentLength: nat := 2000

  const BlankToast := "댓글 내용을 입력해주세요."
  const TooLongToast := "댓글은 2000자 이내로 작성해주세요."
  const CreateFailedToast := "댓글 작성에 실패했습니다."
  const EditFailedToast := "댓글 수정에 실패했습니다."
  const DeleteFailedToast := "댓글 삭제에 실패했습니다."
  const ReplyCreatedToast := "답글이 작성되었습니다."
  const CommentCreatedToast := "댓글이 작성되었습니다."
  const EditedToast := "댓글이 수정되었습니다."
  const DeletedToast := "댓글이 삭제되었습니다."

  /** The checks `handleSubmit` and `handleEdit` share: blank text is
      refused first, then text longer than 2000 UTF-16 code units before
      trimming;
      what is accepted is sent trimmed. */
  function CheckComment(text: string): (r: Result<string, string>)
    ensures r.Ok? <==> !IsBlank(text) && Utf16Length(text) <= MaxCommentLength
    ensures IsBlank(text) ==> r == Err(BlankToast)
    ensures !IsBlank(text) && Utf16Length(text) > MaxCommentLength ==> r == Err(TooLongToast)
    ensures r.Ok? ==> r.value == Trim(text)
  {
    if IsBlank(text) then Err(BlankToast)
    else if Utf16Length(text) > MaxCommentLength then Err(TooLongToast)
    else Ok(Trim(text))
  }

  /** What an accepted comment sends is non-empty, already trimmed, and
      within the limit. */
  lemma AcceptedTextIsClean(text: string)
    requires CheckComment(text).Ok?
    ensures var t := CheckComment(text).value;
      t != [] && Trim(t) == t && Utf16Length(t) <= MaxCommentLength
  {
    TrimIsTrimmedInfix(text);
    TrimIdempotent(text);
    var k := |text| - |TrimStart(text)|;
    var t := Trim(text);
    assert text == text[..k] + t + text[k + |t|..];
    Utf16LengthAppend(text[..k] + t, text[k + |t|..]);
    Utf16LengthAppend(text[..k], t);
  }

  /** The message of a thrown `Error`, or the handler's own words for
      anything else. */
  function ErrorToast(e: Thrown, fallback: string): (r: Toast)
    ensures r.Failure?
    ensures e.ErrorWith? ==> r.message == e.message
    ensures e.NotAnError? ==> r.message == fallback
  {
    Failure(if e.ErrorWith? then e.message else fallback)
  }

  /** The form's `parentId ?` test: an id that is present and not the
      empty string, which JavaScript reads as false. */
  predicate HasParent(parentId: Option<CommentId>) {
    parentId.Some? && parentId.value != ""
  }

  /** The form writes a reply exactly when the row it inserts gets a
      parent (`parent_id: parent_id || null`). */
  lemma HasParentIffStoredParent(parentId: Option<CommentId>)
    ensures HasParent(parentId) <==> Mutations.ParentOf(parentId).Some?
  {
  }

  /** The success toast names a reply exactly when the form has a parent. */
  function CreatedToast(parentId: Option<CommentId>): (r: Toast)
    ensures r.Success?
    ensures HasParent(parentId) ==> r.message == ReplyCreatedToast
    ensures !HasParent(parentId) ==> r.message == CommentCreatedToast
  {
    Success(if HasParent(parentId) then ReplyCreatedToast else CommentCreatedToast)
  }

  /** The two success toasts differ, so a reply and a top-level comment are
      always told apart. */
  lemma CreatedToastDependsOnParent(p: Option<CommentId>, q: Option<CommentId>)
    ensures CreatedToast(p) == CreatedToast(q) <==> HasParent(p) == HasParent(q)
  {
    if HasParent(p) != HasParent(q) {
      assert ReplyCreatedToast[0] != CommentCreatedToast[0];
    }
  }

  /** The body `createComment` receives. */
  datatype CommentPayload = CommentPayload(content: string, parent_id: Option<CommentId>)

  /** What the form shows: a sign-in notice without a user, otherwise the
      text box with its counter and its buttons. */
  datatype FormView =
    | SignInNotice
    | Editor(counter: nat, submitEnabled: bool, submitLabel: string, cancelShown: bool)

  /** `CommentForm`, for a post and, when writing a reply, its parent. */
  class CommentForm {
    const postId: PostId
    const parentId: Option<CommentId>
    const showCancel: bool
    var content: string

    constructor (postId: PostId, parentId: Option<CommentId>, showCancel: bool)
      ensures this.postId == postId && this.parentId == parentId && this.showCancel == showCancel
      ensures content == ""
    {
      this.postId := postId;
      this.parentId := parentId;
      this.showCancel := showCancel;
      content := "";
    }

    /** The render: the submit button is enabled only while no creation is
        pending and the text is not blank. */
    function View(user: Option<UserId>, pending: bool): (r: FormView)
      reads this
      ensures user.None? <==> r.SignInNotice?
      ensures r.Editor? ==> r.counter == Utf16Length(content)
      ensures r.Editor? ==> (r.submitEnabled <==> !pending && !IsBlank(content))
      ensures r.Editor? ==> r.cancelShown == showCancel
      ensures r.Editor? && HasParent(parentId) ==> r.submitLabel == "답글 작성"
      ensures r.Editor? && !HasParent(parentId) ==> r.submitLabel == "댓글 작성"
    {
      if user.None? then SignInNotice
      else Editor(Utf16Length(content), !pending && !IsBlank(content),
                  if HasParent(parentId) then "답글 작성" else "댓글 작성", showCancel)
    }

    /** The text box's `onChange`. */
    method Type(text: string)
      modifies this
      ensures content == text
    {
      content := text;
    }

    /** `handleSubmit`, given what the creation would return: a refused
        text sends nothing; an accepted one sends the trimmed text with the
        parent, and the box is cleared only when the creation succeeds. */
    method HandleSubmit(created: Result<(), Thrown>) returns (sent: Option<CommentPayload>, toast: Toast)
      modifies this
      ensures CheckComment(old(content)).Err? ==>
        sent.None? && toast == Failure(CheckComment(old(content)).error) && content == old(content)
      ensures CheckComment(old(content)).Ok? ==> sent == Some(CommentPayload(Trim(old(content)), parentId))
      ensures CheckComment(old(content)).Ok? && created.Ok? ==>
        content == "" && toast == CreatedToast(parentId)
      ensures CheckComment(old(content)).Ok? && created.Err? ==>
        content == old(content) && toast == ErrorToast(created.error, CreateFailedToast)
    {
      var checked := CheckComment(content);
      if checked.Err? {
        return None, Failure(checked.error);
      }
      sent := Some(CommentPayload(checked.value, parentId));
      if created.Err? {
        return sent, ErrorToast(created.error, CreateFailedToast);
      }
      content := "";
      toast := CreatedToast(parentId);
    }
  }

  /** A form whose submit button is enabled can only be refused for
      length. */
  lemma EnabledSubmitIsNotBlank(text: string, pending: bool)
    requires !pending && !IsBlank(text)
    ensures CheckComment(text) != Err(BlankToast)
    ensures Utf16Length(text) <= MaxCommentLength ==> CheckComment(text).Ok?
  {
    if Utf16Length(text) > MaxCommentLength {
      assert TooLongToast != BlankToast by {
        assert TooLongToast[2] != BlankToast[2];
      }
    }
  }

  /** `isAuthor`: a signed-in user who wrote the comment. */
  predicate IsAuthor(user: Option<UserId>, comment: Comment) {
    user.Some? && user.value == comment.user_id
  }

  /** The body of a live comment: its text, or the edit box. */
  datatype Body = Text(content: string) | EditBox(text: string, counter: nat, saveEnabled: bool)

  /** What one comment shows. A soft-deleted comment shows only the
      placeholder; a live one its author menu, body, edit mark and reply
      controls. */
  datatype ItemView =
    | Placeholder(text: string)
    | Live(menu: bool, body: Body, editedMark: bool, replyButton: bool, replyForm: bool)

  /** `handleDelete`'s toast. */
  function DeleteToast(deleted: Result<(), Thrown>): (r: Toast)
    ensures deleted.Ok? ==> r == Success(DeletedToast)
    ensures deleted.Err? ==> r == ErrorToast(deleted.error, DeleteFailedToast)
  {
    if deleted.Ok? then Success(DeletedToast) else ErrorToast(deleted.error, DeleteFailedToast)
  }

  /** `CommentItem`: one comment, shown as a reply or not. */
  class CommentItem {
    const comment: Comment
    const isReply: bool
    var isEditing: bool
    var editContent: string
    var showReplyForm: bool

    constructor (comment: Comment, isReply: bool)
      ensures this.comment == comment && this.isReply == isReply
      ensures !isEditing && editContent == comment.content && !showReplyForm
    {
      this.comment := comment;
      this.isReply := isReply;
      isEditing := false;
      editContent := comment.content;
      showReplyForm := false;
    }

    /** The render. */
    function View(user: Option<UserId>, updating: bool): (r: ItemView)
      reads this
      ensures comment.is_deleted <==> r.Placeholder?
      ensures r.Placeholder? ==> r.text == Mutations.DeletedText
      ensures r.Live? ==> (r.menu <==> IsAuthor(user, comment))
      ensures r.Live? ==> r.editedMark == comment.is_edited
      ensures r.Live? && !isEditing ==> r.body == Text(comment.content)
      ensures r.Live? && isEditing ==>
        r.body == EditBox(editContent, Utf16Length(editContent), !updating && !IsBlank(editContent))
      ensures r.Live? ==> (r.replyButton <==> !isReply && !isEditing)
      ensures r.Live? ==> (r.replyForm <==> !isReply && showReplyForm)
    {
      if comment.is_deleted then Placeholder(Mutations.DeletedText)
      else Live(IsAuthor(user, comment),
                if isEditing then EditBox(editContent, Utf16Length(editContent), !updating && !IsBlank(editContent))
                else Text(comment.content),
                comment.is_edited,
                !isReply && !isEditing,
                !isReply && showReplyForm)
    }

    /** The menu's "수정". */
    method StartEdit()
      modifies this
      ensures isEditing && editContent == old(editContent) && showReplyForm == old(showReplyForm)
    {
      isEditing := true;
    }

    /** The edit box's `onChange`. */
    method TypeEdit(text: string)
      modifies this
      ensures editContent == text && isEditing == old(isEditing) && showReplyForm == old(showReplyForm)
    {
      editContent := text;
    }

    /** `handleEdit`, given what the update would return: a refused text
        sends nothing; an accepted one sends the trimmed text, and edit mode
        is left only when the update succeeds. */
    method HandleEdit(updated: Result<(), Thrown>) returns (sent: Option<string>, toast: Toast)
      modifies this
      ensures editContent == old(editContent) && showReplyForm == old(showReplyForm)
      ensures CheckComment(editContent).Err? ==>
        sent.None? && toast == Failure(CheckComment(editContent).error) && isEditing == old(isEditing)
      ensures CheckComment(editContent).Ok? ==> sent == Some(Trim(editContent))
      ensures CheckComment(editContent).Ok? && updated.Ok? ==> !isEditing && toast == Success(EditedToast)
      ensures CheckComment(editContent).Ok? && updated.Err? ==>
        isEditing == old(isEditing) && toast == ErrorToast(updated.error, EditFailedToast)
    {
      var checked := CheckComment(editContent);
      if checked.Err? {
        return None, Failure(checked.error);
      }
      sent := Some(checked.value);
      if updated.Err? {
        return sent, ErrorToast(updated.error, EditFailedToast);
      }
      isEditing := false;
      toast := Success(EditedToast);
    }

    /** `handleCancelEdit`: the stored text comes back and edit mode ends. */
    method HandleCancelEdit()
      modifies this
      ensures !isEditing && editContent == comment.content && showReplyForm == old(showReplyForm)
    {
      editContent := comment.content;
      isEditing := false;
    }

    /** The "답글" button. */
    method ToggleReplyForm()
      modifies this
      ensures showReplyForm == !old(showReplyForm)
      ensures isEditing == old(isEditing) && editContent == old(editContent)
    {
      showReplyForm := !showReplyForm;
    }

    /** The reply form's `onSuccess` and `onCancel`. */
    method CloseReplyForm()
      modifies this
      ensures !showReplyForm
      ensures isEditing == old(isEditing) && editContent == old(editContent)
    {
      showReplyForm := false;
    }
  }

  /** An item shown as a reply never offers a reply, whatever its state,
      so the tree the section draws is one level deep. */
  lemma RepliesOfferNoReply(item: CommentItem, user: Option<UserId>, updating: bool)
    requires item.isReply
    ensures var v := item.View(user, updating);
      v.Live? ==> !v.replyButton && !v.replyForm
  {
  }

  /** Only the author sees the edit and delete menu, and nobody sees it on a
      deleted comment. */
  lemma MenuOnlyForAuthor(item: CommentItem, user: Option<UserId>, updating: bool)
    ensures var v := item.View(user, updating);
      (v.Live? && v.menu) <==> !item.comment.is_deleted && user == Some(item.comment.user_id)
  {
  }

  /** A comment as the section receives it; `replies` may be absent. */
  datatype Listed = Listed(comment: Comment, replies: Option<seq<Comment>>)

  /** A fetched thread as the section receives it. */
  function FromThread(t: Api.Thread): (r: Listed)
    ensures r.comment == t.comment && r.replies == Some(t.replies)
  {
    Listed(t.comment, Some(t.replies))
  }

  /** `comment.replies?.length || 0`. */
  function ReplyCount(item: Listed): (r: nat)
    ensures item.replies.None? ==> r == 0
    ensures item.replies.Some? ==> r == |item.replies.value|
  {
    if item.replies.Some? then |item.replies.value| else 0
  }

  /** The `reduce` over the list, left to right. */
  function ReplyTotal(items: seq<Listed>): nat
    decreases |items|
  {
    if items == [] then 0 else ReplyTotal(items[..|items| - 1]) + ReplyCount(items[|items| - 1])
  }

  /** `totalCommentsCount`: the comments plus their replies; an absent list
      counts nothing. */
  function TotalCount(comments: Option<seq<Listed>>): (r: nat)
    ensures comments.None? ==> r == 0
    ensures comments.Some? ==> r >= |comments.value|
  {
    if comments.None? then 0 else |comments.value| + ReplyTotal(comments.value)
  }

  /** The replies an item draws: none under a deleted comment, whose item
      returns its placeholder before the reply list. */
  function DrawnReplies(item: Listed): (r: seq<Comment>)
    ensures item.comment.is_deleted ==> r == []
    ensures !item.comment.is_deleted ==> r == item.replies.GetOr([])
  {
    if item.comment.is_deleted then [] else item.replies.GetOr([])
  }

  /** The comments the section draws, in order: each listed comment (its
      placeholder when deleted) followed by the replies it draws. */
  function Drawn(items: seq<Listed>): seq<Comment> {
    if items == [] then []
    else [items[0].comment] + DrawnReplies(items[0]) + Drawn(items[1..])
  }

  lemma DrawnAppend(items: seq<Listed>, last: Listed)
    ensures Drawn(items + [last]) == Drawn(items) + [last.comment] + DrawnReplies(last)
    decreases |items|
  {
    if items != [] {
      assert (items + [last])[1..] == items[1..] + [last];
      DrawnAppend(items[1..], last);
    }
  }

  /** The header never counts fewer comment items than the section draws,
      and counts exactly those drawn, placeholders of deleted replies
      included, when no listed top-level comment is deleted; the replies
      of a deleted one are counted but not drawn. */
  lemma {:induction false} TotalCountsDrawn(items: seq<Listed>)
    ensures TotalCount(Some(items)) >= |Drawn(items)|
    ensures (forall i :: 0 <= i < |items| ==> !items[i].comment.is_deleted) ==>
      TotalCount(Some(items)) == |Drawn(items)|
    decreases |items|
  {
    if items != [] {
      var init, last := items[..|items| - 1], items[|items| - 1];
      assert items == init + [last];
      assert forall i :: 0 <= i < |init| ==> init[i] == items[i];
      TotalCountsDrawn(init);
      DrawnAppend(init, last);
    }
  }

  /** A deleted top-level comment with replies makes the header count more
      than the section draws. */
  lemma DeletedParentHidesReplies(c: Comment, reply: Comment)
    requires c.is_deleted
    ensures var items := [Listed(c, Some([reply]))];
      TotalCount(Some(items)) == 2 && |Drawn(items)| == 1
  {
    var items := [Listed(c, Some([reply]))];
    assert items[..|items| - 1] == [];
    assert ReplyTotal(items) == ReplyTotal([]) + ReplyCount(items[0]) == 1;
    assert Drawn(items) == [c] + [] + Drawn([]);
  }

  /** What the section shows. */
  datatype SectionView =
    | Skeleton
    | LoadFailed
    | Listing(total: nat, emptyState: bool, items: seq<Listed>)

  /** `CommentsSection`: loading wins over an error, an error over the
      list; the list shows its empty state when there is nothing to show. */
  function Section(isLoading: bool, error: Option<string>, comments: Option<seq<Listed>>): (r: SectionView)
    ensures isLoading <==> r.Skeleton?
    ensures r.LoadFailed? <==> !isLoading && error.Some?
    ensures r.Listing? ==> r.total == TotalCount(comments)
    ensures r.Listing? ==> (r.emptyState <==> comments.None? || comments.value == [])
    ensures r.Listing? ==> r.items == comments.GetOr([])
  {
    if isLoading then Skeleton
    else if error.Some? then LoadFailed
    else Listing(TotalCount(comments), comments.None? || comments.value == [], comments.GetOr([]))
  }

  /** The empty state shows exactly when the header counts nothing. */
  lemma EmptyStateIffNoComments(isLoading: bool, error: Option<string>, comments: Option<seq<Listed>>)
    ensures var v := Section(isLoading, error, comments);
      v.Listing? ==> (v.emptyState <==> v.total == 0)
  {
  }

  /** Over a successful fetch, whose top-level comments are all live, the
      header counts exactly what the section draws, and at least every live
      top-level comment of the post. */
  lemma FetchedTotal(comments: seq<Comment>, postId: PostId, failedReplies: set<CommentId>)
    ensures var ths := Api.FetchComments(comments, postId, None, failedReplies).value;
      var items := seq(|ths|, i requires 0 <= i < |ths| => FromThread(ths[i]));
      && TotalCount(Some(items)) == |Drawn(items)|
      && TotalCount(Some(items)) >= Seqs.Count(comments, Api.TopLevelOf(postId))
  {
    var ths := Api.FetchComments(comments, postId, None, failedReplies).value;
    var items := seq(|ths|, i requires 0 <= i < |ths| => FromThread(ths[i]));
    Api.FetchCommentsTopLevel(comments, postId, failedReplies);
    TotalCountsDrawn(items);
  }
}
