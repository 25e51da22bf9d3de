# roxzon community app — a verified model

roxzon is a Next.js + Supabase community site for HYROX athletes in Seoul.
This project models its core in Dafny and proves properties of the model:

- the data layer of `src/lib/api.ts`. Reads (topics, paged posts with counters, a single post,
  comment threads) are pure functions over a snapshot of the tables. Writes (like toggle, image
  upload, post create/delete, comment create/update/soft-delete) are methods of a `Store` class
  whose fields are the tables and the storage bucket.
- the post form rules of `src/lib/schemas.ts`: tag stripping and the zod schema.
- the query cache of `src/hooks/use-posts.ts`: query keys, and which keys each mutation
  invalidates or removes.
- the pages and components that hold the core's state:
  - the post list's topic/page navigation and pager;
  - the sidebar;
  - the post card;
  - the post create form;
  - the comment form, item and section;
  - the auth provider and the lighter auth hook;
  - the protected route;
  - onboarding;
  - the community list filter and the community create form.

  Each component whose handlers update state in place is a class with `modifies` clauses.
  Each view that only computes from its inputs is a function.

Backend failures, the clock, random names, file reads and the session come from outside. They
are parameters: an `Option` fault, a `bool` that says whether a call throws, or an id or time
the database assigns.

Module layout (one `.dfy` file each):

- `Wrappers`: `Option` and `Result`.
- `Uri`: `encodeURI` and `decodeURIComponent` over UTF-8 percent escapes.
- `Text`: JavaScript string behaviour the core relies on:
  - `trim` with the JavaScript whitespace set;
  - `includes`;
  - `slice`;
  - `split(sep).pop()`;
  - `String(n)`, and `parseInt` without a radix, which reads a `0x` or `0X` prefix as hexadecimal;
  - the code-unit order used by `order by`.
- `Seqs`: filter, count, insertion sort by a total preorder, and distinct keys.
- `Records`: the table rows, `File` and the shared limits.
- `Schemas`, `Api`, `Mutations` (store), `QueryCache`: the library layer.
- `PostsNavigation`, `PostCard`, `PostDraft`, `CommentViews`, `Auth`, `RouteGuard`, `Onboarding`,
  `Communities`, `CommunityCreate`: the pages and components.

## Model

| member | source | states |
|---|---|---|
| Uri.DecodeEncode | src/lib/api.ts:258 | decoding what `encodeURI` produced gives back the original string, for any string of code points |
| Uri.EncodeUriAppend | src/lib/api.ts:258 | encoding a concatenation encodes each part |
| Uri.EncodeUriIdentity | src/lib/api.ts:258 | encoding leaves a string unchanged exactly when every character is one `encodeURI` keeps |
| Uri.EncodeUriChars | src/lib/api.ts:258 | the encoded string holds only kept characters of the input, `%` and hex digits, and every kept character of the input |
| Uri.EncodeUriKeepsPunctuation | src/lib/api.ts:258 | a kept character other than `%` and hex digits, `/` `?` `#` among them, occurs in the encoding exactly when it occurs in the input |
| Schemas.RemoveTagsTagFree | src/lib/schemas.ts:5 | removing every `<...>` run leaves no complete tag behind |
| Schemas.RemoveTagsOfTagFree | src/lib/schemas.ts:5 | text without a complete tag passes through tag removal unchanged |
| Schemas.StripHtmlClean | src/lib/schemas.ts:4-6 | the stripped text holds no tag and neither starts nor ends with whitespace |
| Schemas.RemoveTagsOfStripped | src/lib/schemas.ts:4-6 | removing tags again from stripped text changes nothing |
| Schemas.StripHtmlIdempotent | src/lib/schemas.ts:4-6 | stripping twice is stripping once |
| Schemas.IssuesOf | src/lib/schemas.ts:9-29 | each of the six schema messages is reported exactly when its rule is broken: title of 1..50 UTF-16 code units, text of 10..5000 code units, topic chosen, at most 5 images |
| Schemas.Issues | src/lib/schemas.ts:14-23 | the content rules measure the tag-stripped, trimmed text in UTF-16 code units |
| Schemas.Validate | src/lib/schemas.ts:9-29 | the form is accepted exactly when every rule holds, lengths counted in UTF-16 code units; it is then returned unchanged; a rejection always carries at least one issue |
| Schemas.AstralTitleTooLong | src/lib/schemas.ts:13 | a title of more than 25 characters above U+FFFF, emoji for instance, is too long, since each counts two code units |
| Api.ByNameTotalPreorder | src/lib/api.ts:76 | ordering by name is a total preorder, so the sort is well defined |
| Api.FetchTopics | src/lib/api.ts:71-83 | a query error becomes the "토픽을 불러오는데 실패했습니다: " message; otherwise the rows are a permutation of the active topics |
| Api.FetchTopicsActiveByName | src/lib/api.ts:71-83 | the rows are exactly the active topics, sorted by name |
| Api.NewerOrSameTotalPreorder | src/lib/api.ts:111 | newest-first ordering is a total preorder |
| Api.Listing | src/lib/api.ts:100-116 | the listing is a permutation of the published posts of the topic; every published post when no topic is given |
| Api.PageBounds | src/lib/api.ts:112 | a page's range starts at a non-negative position and spans exactly `pageSize` positions |
| Api.PagesApart | src/lib/api.ts:112 | an earlier page's range ends before a later page's range starts |
| Api.WithCounts | src/lib/api.ts:131-147 | the counters are the post's like rows and live comment rows, 0 when the count query fails; no other column changes |
| Api.FetchPosts | src/lib/api.ts:86-181 | it fails exactly when the page is below 1 (negative offset), the query fails, or the page starts after the last matching post ("Requested range not satisfiable"), each with the prefix "게시글을 불러오는데 실패했습니다: "; a page starting exactly at the end is empty; a page holds at most `pageSize` posts; `totalCount` counts all matching posts |
| Api.ListingPageContents | src/lib/api.ts:110-116 | every listed post is published, of the topic, a stored row apart from its counters, and the page is newest first |
| Api.FetchPostsContents | src/lib/api.ts:86-181 | the same four facts for the posts `fetchPosts` returns |
| Api.FetchPostsCounters | src/lib/api.ts:165-174 | each listed post's counters are its like and live comment counts (0 when the count fails), and it is liked exactly when the caller has a like row for it |
| Api.FetchPostsAnonymous | src/lib/api.ts:150-158 | a visitor who is not signed in sees no post as liked |
| Api.FetchPostsPagesDisjoint | src/lib/api.ts:112 | with distinct post ids, two different pages share no post |
| Api.FetchPostsPagesCover | src/lib/api.ts:112 | every position of the listing inside a page's range appears on that page at the matching offset |
| Api.FetchPostById | src/lib/api.ts:322-377 | a query error becomes "게시글을 찾을 수 없습니다: "; otherwise it succeeds exactly when one published post has the id; the counters and the liked flag are read as in the listing |
| Api.CountLikeBy | src/lib/api.ts:361-366 | the rows the liked lookup selects are the copies of that like row |
| Api.SingleLikeIffLiked | src/lib/api.ts:361-368 | with distinct like rows, `.single()` finds a row exactly when the caller liked the post |
| Api.ListedPostReadsBack | src/lib/api.ts:322-377 | a post read from a listing page reads back identically, counters and liked flag included, from the single-post query |
| Api.Replies | src/lib/api.ts:464-474 | a comment's replies are a permutation of its live child rows |
| Api.TopLevel | src/lib/api.ts:444-455 | the top-level list is a permutation of the post's live rows without a parent |
| Api.FetchComments | src/lib/api.ts:443-488 | a query error becomes "댓글을 불러오는데 실패했습니다: "; otherwise one thread per live top-level comment; a failed reply query leaves that thread's replies empty |
| Api.FetchCommentsTopLevel | src/lib/api.ts:444-455 | the threads are exactly the post's live top-level comments, oldest first |
| Api.RepliesLiveSorted | src/lib/api.ts:464-474 | the reply query for a comment returns exactly the live rows whose parent is that comment, oldest first |
| Api.FetchCommentsReplies | src/lib/api.ts:462-485 | a thread's replies are exactly the live rows answering it, oldest first, when their query succeeds |
| Api.FetchCommentsHidesDeleted | src/lib/api.ts:453 | a soft-deleted comment appears neither as a thread nor as a reply |
| Mutations.Toggle | src/lib/api.ts:184-223 | no caller is "로그인이 필요합니다."; a failure leaves the likes as they were; liking appends the caller's row; unliking removes every row of the caller for the post |
| Mutations.ToggleFlips | src/lib/api.ts:196-222 | without failures the result says whether the post is now liked: the caller's like row is present afterwards exactly when it was absent before |
| Mutations.ToggleKeepsOtherRows | src/lib/api.ts:205-209 | no row other than the caller's like of that post is added or removed |
| Mutations.ToggleKeepsOtherUsers | src/lib/api.ts:200 | other users' likes are untouched, in order |
| Mutations.FilterOutOnce | src/lib/api.ts:205-209 | deleting by value removes every copy of that row and nothing else |
| Mutations.ToggleTwiceRestores | src/lib/api.ts:184-223 | toggling twice restores the like table up to order |
| Mutations.TogglePreservesDistinct | src/lib/api.ts:184-223 | toggling keeps like rows distinct |
| Mutations.InStored | src/lib/api.ts:239-261 | an object is stored exactly when some image's upload under that path succeeded |
| Mutations.FirstFailure | src/lib/api.ts:264 | finds the first upload that failed, if any |
| Mutations.UploadOutcome | src/lib/api.ts:234-274 | no images gives `[]`; success exactly when every upload succeeds, with one public URL per image in order; otherwise the message of a failing image ("이미지 업로드 실패 (name): error") |
| Mutations.Pathname | src/lib/api.ts:411-412 | the path of a URL carries no query or fragment, and a URL without them is its own path |
| Mutations.PathnameIsPrefix | src/lib/api.ts:411-412 | the path is the part of the URL before the first `?` or `#` |
| Mutations.PlainAppend | src/lib/api.ts:241-243 | a name is free of `/`, `?` and `#` exactly when both its parts are |
| Mutations.DigitsArePlain | src/lib/api.ts:241 | decimal numbers hold no `/`, `?` or `#` |
| Mutations.FileNameIsPlain | src/lib/api.ts:240-243 | the generated file name holds no `/`, `?` or `#` when the random part and the original name hold none |
| Mutations.NoQueryAppend | src/lib/api.ts:258 | a URL has no query or fragment exactly when none of its parts has one |
| Mutations.FixedPartsHaveNoQuery | src/lib/api.ts:244 | the bucket and the public prefix have no query or fragment |
| Mutations.PublicUrlSplits | src/lib/api.ts:256-258 | the public URL, which `getPublicUrl` passes through `encodeURI`, is the encoded base, the prefix and the bucket, then `/` and the encoded file name |
| Mutations.LastSegmentOfUpload | src/lib/api.ts:409-412 | the last segment of an uploaded image's URL path is the percent-encoded file name |
| Mutations.RemovedPathOfUpload | src/lib/api.ts:409-414 | as written, the path derived from an uploaded image's URL is the bucket and the still-encoded file name; it is the stored path exactly when the file name needs no escaping |
| Mutations.ImageWithSpaceOutlivesItsPost | src/lib/api.ts:409-414 | as written, for an image named "photo 1" the derived path is not the stored one, so its object is not removed |
| Mutations.DecodedRemovedPaths | src/lib/api.ts:409-414 | the paths exist exactly when every URL's last segment decodes, and they are the bucket and those decoded segments |
| Mutations.DecodedPathOfUpload | src/lib/api.ts:409-414 | decoding the last segment gives back the stored path for any file name without `/`, `?` or `#`, spaces included |
| Mutations.DecodedPathsOfUploads | src/lib/api.ts:406-414 | URLs that each decode to their own upload's path name exactly the objects the upload stored |
| Mutations.UploadDeleteRoundTrip | src/lib/api.ts:406-418 | with decoding, the paths removed for a post's images are exactly the paths its upload stored |
| Mutations.UrlOfUpload | src/lib/api.ts:409-414 | each returned URL decodes back to its own image's object path |
| Mutations.CheckDelete | src/lib/api.ts:380-404 | deletion is allowed exactly for a signed-in caller who owns the single post with that id; the refusals are "로그인이 필요합니다.", "게시글을 찾을 수 없습니다." and, for another user's post, "본인이 작성한 게시글만 삭제할 수 있습니다." |
| Mutations.DeletedPostIsGone | src/lib/api.ts:431-435 | after an allowed delete no post with that id remains |
| Mutations.ParentOf | src/lib/api.ts:511 | an empty parent id is stored as no parent |
| Mutations.EditRows | src/lib/api.ts:543-550 | only the caller's own row with that id changes: it gets the new content and the edited mark and keeps every other field; all other rows stay as they were |
| Mutations.SoftDeleteRows | src/lib/api.ts:579-586 | only the caller's own row with that id changes: it is marked deleted with the text "삭제된 댓글입니다." and keeps every other field; all other rows stay |
| Mutations.NonOwnerChangesNothing | src/lib/api.ts:550 | a caller who owns no row with that id changes nothing by editing or deleting |
| Mutations.SoftDeleteKeepsRows | src/lib/api.ts:578-586 | soft deletion keeps every row's id, author, post, parent and time |
| Mutations.SoftDeletedLeavesTree | src/lib/api.ts:453 | after a soft delete the comment no longer appears in any thread of `fetchComments` |
| Mutations.EditKeepsIds | src/lib/api.ts:543-551 | editing keeps comment ids distinct |
| Mutations.SoftDeleteKeepsIds | src/lib/api.ts:579-586 | soft deletion keeps comment ids distinct |
| Mutations.Store.TogglePostLike | src/lib/api.ts:184-223 | the result and the new like table are those of `Toggle`; no other table changes |
| Mutations.Store.UploadImages | src/lib/api.ts:234-274 | the loop returns `UploadOutcome` and stores exactly the objects whose upload succeeded |
| Mutations.Store.CreatePost | src/lib/api.ts:277-319 | no caller is refused; an upload failure passes its message on; an insert error gives "게시글 작성에 실패했습니다: "; otherwise the new published row with the uploaded URLs is appended |
| Mutations.Store.DeletePost | src/lib/api.ts:380-440 | a refusal changes nothing; the objects named by the images' decoded paths are removed unless storage fails; a delete error gives "게시글 삭제에 실패했습니다: "; otherwise the caller's post with that id is removed |
| Mutations.Store.CreateComment | src/lib/api.ts:491-526 | no caller is refused; an insert error gives "댓글 작성에 실패했습니다: "; otherwise the new row is appended and returned |
| Mutations.Store.UpdateComment | src/lib/api.ts:529-564 | no caller is refused; a write error or other than one own matching row gives "댓글 수정에 실패했습니다: "; otherwise that row is edited and returned |
| Mutations.Store.DeleteComment | src/lib/api.ts:567-591 | no caller is refused; a write error gives "댓글 삭제에 실패했습니다: "; otherwise the caller's matching rows are soft-deleted (also when none match) |
| QueryCache.TopicPart | src/hooks/use-posts.ts:36 | an absent topic is `undefined`, a null topic `null`, otherwise the topic string; `hashKey` later writes `undefined` and `null` alike as `null` (see `Hashed`) |
| QueryCache.Hashed | src/hooks/use-posts.ts:36 | the hashed key has no `undefined` part and keeps every other part |
| QueryCache.AbsentAndNullTopicShareEntry | src/hooks/use-posts.ts:31-36 | a list query with no topic and one with a null topic have different keys but the same hash, so they share one entry |
| QueryCache.PostsKey | src/hooks/use-posts.ts:26-39 | the list key is `posts`, the topic, the page (1 by default) and the page size (10 by default) |
| QueryCache.PostQuery | src/hooks/use-posts.ts:69-77 | the single-post key is `post` and the id; the query runs only for a non-empty id |
| QueryCache.CommentsQuery | src/hooks/use-posts.ts:95-103 | the comments key is `comments` and the post id; the query runs only for a non-empty id |
| QueryCache.FamiliesDisjoint | src/hooks/use-posts.ts:20-97 | no key lies in two of the topics, posts, post and comments families |
| QueryCache.PostsKeyFamily | src/hooks/use-posts.ts:36 | a list key lies in the posts family only |
| QueryCache.Invalidated | src/hooks/use-posts.ts:49 | every key is kept, and an entry is fresh afterwards exactly when it was fresh and lies outside the prefix |
| QueryCache.Removed | src/hooks/use-posts.ts:87 | the entries outside the prefix are kept as they were, and those under it are dropped |
| QueryCache.InvalidatedIdempotent | src/hooks/use-posts.ts:49 | invalidating twice is invalidating once |
| QueryCache.RemovedIdempotent | src/hooks/use-posts.ts:87 | removing twice is removing once |
| QueryCache.InvalidateAfterRemove | src/hooks/use-posts.ts:85-90 | after a removal, invalidating the same prefix changes nothing |
| QueryCache.InvalidationsCommute | src/hooks/use-posts.ts:117-123 | two invalidations give the same cache in either order |
| QueryCache.RemoveAndInvalidateCommute | src/hooks/use-posts.ts:85-90 | removing one prefix and invalidating another give the same cache in either order |
| QueryCache.ToggleLikeEffect | src/hooks/use-posts.ts:47-51 | a like toggle makes every list and single-post entry stale and nothing else |
| QueryCache.CreatePostEffect | src/hooks/use-posts.ts:61-64 | creating a post makes the lists stale and nothing else |
| QueryCache.DeletePostEffect | src/hooks/use-posts.ts:85-90 | deleting a post drops its single-post entries and makes the lists stale |
| QueryCache.CreateCommentEffect | src/hooks/use-posts.ts:117-123 | a new comment makes that post's comments and single-post entries and the lists stale |
| QueryCache.UpdateCommentEffect | src/hooks/use-posts.ts:139-144 | an edit leaves every entry other than that post's comments as it was |
| QueryCache.DeleteCommentSparesPosts | src/hooks/use-posts.ts:154-158 | deleting a comment makes all comments and lists stale but leaves single-post entries as they were |
| QueryCache.Cache.Store | src/hooks/use-posts.ts:19-21 | a fetched key becomes fresh |
| QueryCache.Cache.Invalidate | src/hooks/use-posts.ts:49 | the entries become `Invalidated` of the old ones |
| QueryCache.Cache.Remove | src/hooks/use-posts.ts:87 | the entries become `Removed` of the old ones |
| QueryCache.Cache.OnToggleLike | src/hooks/use-posts.ts:47-51 | the entries become the toggle effect of the old ones |
| QueryCache.Cache.OnCreatePost | src/hooks/use-posts.ts:61-64 | the entries become the create effect of the old ones |
| QueryCache.Cache.OnDeletePost | src/hooks/use-posts.ts:85-90 | the entries become the delete effect of the old ones |
| QueryCache.Cache.OnCreateComment | src/hooks/use-posts.ts:117-123 | the entries become the new-comment effect of the old ones |
| QueryCache.Cache.OnUpdateComment | src/hooks/use-posts.ts:139-144 | the entries become the edit effect of the old ones |
| QueryCache.Cache.OnDeleteComment | src/hooks/use-posts.ts:154-158 | the entries become the comment-delete effect of the old ones |
| PostsNavigation.Get | src/app/posts/page.tsx:34-35 | a parameter is found exactly when one of that name is present |
| PostsNavigation.Without | src/app/posts/page.tsx:58-62 | removing a name leaves it absent and every other name as it was |
| PostsNavigation.Set | src/app/posts/page.tsx:60-62 | after setting a name it reads the value, and every other name is as it was |
| PostsNavigation.Serialize | src/app/posts/page.tsx:64-65 | the query string is empty exactly when there are no parameters |
| PostsNavigation.SelectedTopic | src/app/posts/page.tsx:34 | a missing or empty `topic` parameter selects "전체"; otherwise it is the parameter |
| PostsNavigation.Lookup | src/app/posts/page.tsx:39 | a name is found exactly when the mapping has it, and the id found is paired with it |
| PostsNavigation.SelectedTopicId | src/app/posts/page.tsx:23-39 | "전체" has no id; a mapped name gets its mapped id; a name the object literal inherits ("constructor", "toString", "__proto__", ...) gives that member's text; any other name gives none |
| PostsNavigation.MappedNamesAreOwn | src/app/posts/page.tsx:23-28 | none of the four mapped names, nor "전체", is an inherited member |
| PostsNavigation.InheritedNameFiltersNoKnownTopic | src/app/posts/page.tsx:36-39 | a `topic` naming an inherited member does not show every post: it filters on an id no mapped topic has |
| PostsNavigation.CurrentPage | src/app/posts/page.tsx:35 | with no `page` parameter the page is 1; otherwise the parameter as `parseInt` reads it |
| PostsNavigation.CurrentPageReadsHex | src/app/posts/page.tsx:35 | a `page` of "0x2" is page 2, and "0x" is no number at all |
| PostsNavigation.PageZeroFailsToLoad | src/app/posts/page.tsx:35-51 | `?page=0` is read as page 0, and `fetchPosts` then fails with the negative-offset error |
| PostsNavigation.TotalPages | src/app/posts/page.tsx:55 | the page count is the ceiling of the total over 15 |
| PostsNavigation.NoPagesIffNoPosts | src/app/posts/page.tsx:55 | there are no pages exactly when there are no posts |
| PostsNavigation.PagesInRangeAreNonEmpty | src/app/posts/page.tsx:55 | a page number is within the count exactly when that page starts before the last post |
| PostsNavigation.WhichPagesLoad | src/lib/api.ts:108-122 | with no query fault a page loads exactly when it is between 1 and the last page, or it is the empty page just past a count that fills its pages exactly |
| PostsNavigation.Pagination | src/app/posts/page.tsx:176 | the pager is shown exactly when there is more than one page |
| PostsNavigation.PaginationButtons | src/app/posts/page.tsx:187-205 | the buttons are pages 1 to min(pages, 5) in order, at most one is current, and one is current exactly when the current page is among them |
| PostsNavigation.PaginationMovesStayInRange | src/app/posts/page.tsx:178-214 | previous is disabled exactly on page 1 and next exactly on the last page; an enabled move stays within the pages |
| PostsNavigation.PageHref | src/app/posts/page.tsx:57-66 | the page link is `/posts?` and the serialized parameters |
| PostsNavigation.PageParamsRoundTrip | src/app/posts/page.tsx:34-62 | reading a page link's parameters back gives the same topic and page; the topic is written exactly when it is not "전체" |
| PostsNavigation.TopicHref | src/app/posts/layout.tsx:29-38 | the topic link is `/posts?` and the serialized parameters |
| PostsNavigation.TopicChangeIsFirstPage | src/app/posts/layout.tsx:29-38 | changing topic links to page 1 of that topic, exactly like the pager's link to page 1 |
| PostsNavigation.OneToString | src/app/posts/layout.tsx:34 | the number 1 prints as "1" |
| PostsNavigation.AllTopics | src/app/posts/layout.tsx:40 | the sidebar lists "전체" first, then every topic in order |
| PostsNavigation.OneHighlighted | src/app/posts/layout.tsx:54-63 | with distinct topic names other than "전체", at most one entry is highlighted, and it is "전체" when no topic is selected |
| PostsNavigation.Heading | src/app/posts/layout.tsx:89 | the right sidebar's title is never "전체", never empty for a named selection, and any other topic is shown as named |
| PostsNavigation.HeadingOfPage | src/app/posts/layout.tsx:89 | for any `topic` parameter the title is neither empty nor "전체"; a given topic is its title and no parameter gives "커뮤니티 정보" |
| PostCard.PreviewOf | src/components/post-card.tsx:52-56 | the expanded card shows the stripped text, the collapsed one its first 100 UTF-16 code units; the ellipsis shows exactly for collapsed text longer than 100 code units |
| PostCard.PreviewCollapsedIsPrefix | src/components/post-card.tsx:52-56 | the collapsed preview is a prefix of at most 100 code units of the full text; it differs exactly for long text, and then carries the ellipsis |
| PostCard.PreviewHasNoTag | src/components/post-card.tsx:42-44 | a preview never shows a tag |
| PostCard.ShownLiked | src/components/post-card.tsx:59 | the heart shows as liked exactly when the server said so |
| PostCard.HandleLike | src/components/post-card.tsx:61-75 | a click while a toggle is pending is ignored; otherwise the toggle runs and a failure shows "좋아요 처리에 실패했습니다. 다시 시도해주세요." |
| PostCard.Share | src/components/post-card.tsx:87-91 | the shared title is the post's, the text is the first 50 code units of the stripped text and "...", and the link is the origin, `/posts/` and the id |
| PostCard.ShareTextStartsLikePreview | src/components/post-card.tsx:89 | the shared text is at most 50 code units of the preview followed by "..." |
| PostCard.ShareUrlNamesPost | src/components/post-card.tsx:90 | the last segment of the shared link is the post id |
| PostDraft.FirstRejection | src/app/posts/create/page.tsx:127-141 | the first file too large (over 5 MB) or of a type other than JPEG, PNG and WebP is named, and every earlier file was fine |
| PostDraft.BatchCheck | src/app/posts/create/page.tsx:115-141 | a batch is accepted exactly when it fits within 5 images and every file is fine; the count check comes first |
| PostDraft.RemoveAt | src/app/posts/create/page.tsx:155-156 | removing a valid position shortens the list by one; another position changes nothing |
| PostDraft.RemoveAtKeepsOthers | src/app/posts/create/page.tsx:155-156 | the images before the position stay and those after it shift down by one |
| PostDraft.RemoveAtUndoesAppend | src/app/posts/create/page.tsx:143-156 | removing the last added image restores the list |
| PostDraft.PendingStatus | src/app/posts/create/page.tsx:176-180 | the status names the number of images being uploaded, or says the post is being written |
| PostDraft.FailureToast | src/app/posts/create/page.tsx:196-212 | the toast is chosen by the first keyword the error message contains (image upload, network, size), else it is the message itself; a non-Error gets the generic text |
| PostDraft.UploadFailureToast | src/app/posts/create/page.tsx:197-200 | an upload failure from the store always shows the image-upload toast |
| PostDraft.Draft.constructor | src/app/posts/create/page.tsx:28-51 | the form starts with the empty default fields, no images, a clean dirty flag and no status |
| PostDraft.Draft.Watch | src/app/posts/create/page.tsx:88-101 | the form becomes dirty once any field or image is filled, and stays dirty |
| PostDraft.Draft.HandleImageChange | src/app/posts/create/page.tsx:115-151 | the verdict is `BatchCheck`; an accepted batch is appended with its previews and makes the form dirty; a refused one changes nothing |
| PostDraft.Draft.RemoveImage | src/app/posts/create/page.tsx:154-164 | the image and its preview at that position are removed together |
| PostDraft.Draft.HandleContentChange | src/app/posts/create/page.tsx:167-170 | the content is set and the form is dirty |
| PostDraft.Draft.HandleTopicChange | src/app/posts/create/page.tsx:292-295 | the topic is set and the form is dirty |
| PostDraft.Draft.HandleTitleChange | src/app/posts/create/page.tsx:88-101 | the title is set and the dirty flag follows the watch rule |
| PostDraft.Draft.Submit | src/app/posts/create/page.tsx:173-214 | an invalid form is not submitted; success clears the dirty flag and navigates to the new post; failure shows `FailureToast` and clears the status |
| PostDraft.AcceptedBatchFits | src/app/posts/create/page.tsx:115-141 | an accepted batch fits within 5 images and every file is at most 5 MB and of an allowed type |
| PostDraft.CanAddImagesIffOneMoreFits | src/app/posts/create/page.tsx:379 | the file input is enabled exactly when a one-file batch would not be refused as too many |
| CommentViews.CheckComment | src/components/comment-form.tsx:37-45 | a comment is accepted exactly when it is not blank and at most 2000 UTF-16 code units; the blank and too-long toasts in that order; the accepted text is trimmed |
| CommentViews.AcceptedTextIsClean | src/components/comment-form.tsx:51 | the text sent is non-empty, already trimmed and at most 2000 code units |
| CommentViews.ErrorToast | src/components/comment-form.tsx:63-65 | an Error shows its own message, anything else the fallback |
| CommentViews.CreatedToast | src/components/comment-form.tsx:57-59 | a form with a non-empty parent id confirms "답글이 작성되었습니다.", any other "댓글이 작성되었습니다." |
| CommentViews.HasParentIffStoredParent | src/components/comment-form.tsx:57 | the form counts as a reply exactly when the stored row gets a parent |
| CommentViews.CreatedToastDependsOnParent | src/components/comment-form.tsx:57-59 | two confirmations are equal exactly when both or neither have a non-empty parent id |
| CommentViews.CommentForm.constructor | src/components/comment-form.tsx:30 | the form starts empty |
| CommentViews.CommentForm.View | src/components/comment-form.tsx:69-123 | a visitor sees the sign-in notice; otherwise the counter is the length in UTF-16 code units, submit is enabled exactly when idle and not blank, cancel follows `showCancel`, and the label is "답글 작성" exactly for a non-empty parent id, else "댓글 작성" |
| CommentViews.CommentForm.Type | src/components/comment-form.tsx:90 | typing replaces the content |
| CommentViews.CommentForm.HandleSubmit | src/components/comment-form.tsx:34-67 | a rejected text shows its toast and sends nothing; an accepted one sends the trimmed text with the parent; success clears the form, failure keeps it and shows the error |
| CommentViews.EnabledSubmitIsNotBlank | src/components/comment-form.tsx:118 | an enabled submit button never leads to the blank toast, and within 2000 code units the comment is accepted |
| CommentViews.DeleteToast | src/components/comment-item.tsx:89-99 | deletion shows "댓글이 삭제되었습니다." or the error |
| CommentViews.CommentItem.constructor | src/components/comment-item.tsx:52-54 | an item starts not editing, with the comment's text in the edit box and no reply form |
| CommentViews.CommentItem.View | src/components/comment-item.tsx:106-275 | a deleted comment shows only "삭제된 댓글입니다."; the menu shows exactly for the author; the edited mark follows the row; the edit box counts and enables saving like the form; replies offer no reply button or form |
| CommentViews.CommentItem.StartEdit | src/components/comment-item.tsx:157 | the menu's edit item opens editing |
| CommentViews.CommentItem.TypeEdit | src/components/comment-item.tsx:200 | typing replaces the edit text |
| CommentViews.CommentItem.HandleEdit | src/components/comment-item.tsx:62-87 | the same checks as the form; an accepted edit sends the trimmed text; success closes editing with "댓글이 수정되었습니다.", failure keeps it open with the error |
| CommentViews.CommentItem.HandleCancelEdit | src/components/comment-item.tsx:101-104 | cancelling restores the stored text and closes editing |
| CommentViews.CommentItem.ToggleReplyForm | src/components/comment-item.tsx:250 | the reply button flips the reply form |
| CommentViews.CommentItem.CloseReplyForm | src/components/comment-item.tsx:270-271 | a sent or cancelled reply closes the reply form |
| CommentViews.RepliesOfferNoReply | src/components/comment-item.tsx:246-275 | a reply never shows a reply button or reply form |
| CommentViews.MenuOnlyForAuthor | src/components/comment-item.tsx:59-60 | the menu shows exactly when the comment is live and the viewer wrote it |
| CommentViews.FromThread | src/components/comments-section.tsx:86-91 | a fetched thread is listed with its comment and replies |
| CommentViews.ReplyCount | src/components/comments-section.tsx:66 | a comment without replies adds 0, otherwise its number of replies |
| CommentViews.TotalCount | src/components/comments-section.tsx:63-69 | no data counts 0; otherwise at least the number of comments |
| CommentViews.DrawnAppend | src/components/comment-item.tsx:106-289 | the drawn comments of a list are those of its prefix, then the last comment and the replies it draws |
| CommentViews.DrawnReplies | src/components/comment-item.tsx:106-116 | a deleted comment draws none of its replies; a live one draws all it has |
| CommentViews.TotalCountsDrawn | src/components/comments-section.tsx:63-69 | the header count is at least the number of comments and replies drawn, and equal when no listed comment is deleted |
| CommentViews.DeletedParentHidesReplies | src/components/comment-item.tsx:106-116 | a deleted comment with one reply counts 2 in the header but draws 1 |
| CommentViews.Section | src/components/comments-section.tsx:17-98 | loading shows the skeleton; an error the failure notice; otherwise the total, the list, and the empty state exactly when there are no comments |
| CommentViews.EmptyStateIffNoComments | src/components/comments-section.tsx:78-98 | the empty state shows exactly when the header count is 0 |
| CommentViews.FetchedTotal | src/components/comments-section.tsx:63-69 | for fetched threads, which hold no deleted comment, the header counts what is drawn, and at least the post's live top-level comments |
| Auth.OrIfFalsy | src/contexts/auth-context.tsx:87-88 | a missing or empty value falls back |
| Auth.NewProfile | src/contexts/auth-context.tsx:84-90 | the new profile has the user's id and email, the full name or "사용자" as nickname, the avatar or nothing, and no bio |
| Auth.NewProfileComplete | src/contexts/auth-context.tsx:149-156 | a freshly created profile counts as complete exactly when the full name is not "익명" |
| Auth.SingleRow | src/contexts/auth-context.tsx:60-64 | `.single()` returns the row, the no-row code "PGRST116" when there is none, or the given error |
| Auth.LoadUserProfile | src/contexts/auth-context.tsx:57-78 | a profile is returned exactly when the lookup neither fails nor throws and the row exists, and it is that row |
| Auth.ContextCheckUserProfile | src/contexts/auth-context.tsx:149-156 | the provider's check holds exactly for a non-empty id whose row loads with a nickname other than "익명" |
| Auth.HookCheckUserProfile | src/hooks/use-auth.ts:35-54 | the hook's check holds exactly when the row loads with a nickname other than "익명"; a throw or a non-"PGRST116" error gives false |
| Auth.CheckUserProfilesAgree | src/hooks/use-auth.ts:35-54 | for a non-empty id the provider's and the hook's checks agree |
| Auth.AuthProvider.constructor | src/contexts/auth-context.tsx:50-53 | the provider starts signed out, loading and unmounted |
| Auth.AuthProvider.SetMounted | src/contexts/auth-context.tsx:176-179 | mounting sets only the mounted flag |
| Auth.AuthProvider.CreateUserProfile | src/contexts/auth-context.tsx:81-110 | the insert succeeds exactly when it does not fail and no row has the id; the new row is `NewProfile` |
| Auth.AuthProvider.CheckAndLoadProfile | src/contexts/auth-context.tsx:113-136 | unmounted does nothing; a loaded profile is taken; otherwise a created profile sends the user to "/onboarding" without being taken, and a failed creation changes nothing |
| Auth.CheckedProfile | src/contexts/auth-context.tsx:113-136 | while mounted: a loaded profile is taken; a missing one is created and the router goes to "/onboarding", the held profile kept; a failed creation changes nothing |
| Auth.CheckedProfileKeepsRows | src/contexts/auth-context.tsx:113-136 | the check keeps every existing row, sends to onboarding only a user without a row, leaves a working store with the user's row, and a profile it takes is that row |
| Auth.AuthProvider.RefreshProfile | src/contexts/auth-context.tsx:139-146 | a mounted, signed-in provider takes the reloaded profile when it loads; otherwise nothing changes |
| Auth.AuthProvider.SignOut | src/contexts/auth-context.tsx:159-173 | success clears user and profile, so `isAuthenticated` is false, and goes to "/" with "로그아웃되었습니다."; a throw keeps them and shows the error; loading ends either way |
| Auth.AuthProvider.InitializeAuth | src/contexts/auth-context.tsx:186-207 | unmounted does nothing; otherwise loading ends, and with a session the user is taken and the profile, the profile table and the router end as `CheckedProfile` says |
| Auth.AuthProvider.OnAuthStateChange | src/contexts/auth-context.tsx:214-233 | a sign-in takes the user, leaves profile, table and router as `CheckedProfile` says and, after the first load, shows "로그인되었습니다."; a sign-out clears user and profile; other events change nothing; loading ends |
| Auth.ProfileMeansAuthenticated | src/contexts/auth-context.tsx:248-249 | in a valid provider a complete profile is held only while `isAuthenticated` |
| Auth.FirstSessionGoesToOnboarding | src/contexts/auth-context.tsx:117-129 | a first-time user has no profile to load and the created one loads afterwards; a returning user's row loads and belongs to them |
| Auth.SessionHook.constructor | src/hooks/use-auth.ts:9-10 | the hook starts without a user, loading |
| Auth.SessionHook.GetSession | src/hooks/use-auth.ts:14-18 | the session's user (or none) is taken, loading ends, and `isAuthenticated` holds exactly when there was a session |
| Auth.SessionHook.OnAuthStateChange | src/hooks/use-auth.ts:23-30 | every event takes the session's user (or none), ends loading, and `isAuthenticated` follows the session |
| Auth.HookSignOut | src/hooks/use-auth.ts:56-72 | success shows "로그아웃되었습니다." and goes to "/"; a failure or throw shows the retry message and stays |
| RouteGuard.Decide | src/components/protected-route.tsx:22-64 | a spinner exactly while loading; a visitor is sent to `redirectTo` ("/login" by default); a user without a nickname on a profile page is sent to "/onboarding"; the page shows exactly otherwise |
| RouteGuard.NoRenderWithoutRedirect | src/components/protected-route.tsx:22-64 | the guard renders nothing exactly when its effect redirects |
| RouteGuard.ProfilePagesNeverRenderAsWritten | src/components/protected-route.tsx:19 | as wired to the hook, a profile page never shows and a signed-in user is always sent to "/onboarding" |
| RouteGuard.ProfilePagesRenderForNamedUsers | src/components/protected-route.tsx:60-64 | fed from the provider, a profile page shows exactly to a signed-in user whose profile has a nickname |
| Onboarding.InitialNickname | src/app/onboarding/page.tsx:34-35 | the nickname starts as the full name, else the name, else empty |
| Onboarding.InitialAvatar | src/app/onboarding/page.tsx:37-38 | the avatar starts as the avatar URL, else the picture, else empty |
| Onboarding.NullIfEmpty | src/app/onboarding/page.tsx:133-134 | an empty bio or avatar is stored as null |
| Onboarding.CheckFile | src/app/onboarding/page.tsx:77-92 | no file does nothing; over 5 MB is refused first, then a type not starting with "image/"; only a small image is read |
| Onboarding.ChooseWrite | src/app/onboarding/page.tsx:138-152 | the profile is inserted exactly when the lookup reports "PGRST116", otherwise updated |
| Onboarding.NewRow | src/app/onboarding/page.tsx:129-135 | the saved row has the user's id and email, the trimmed nickname, and null for an empty bio or avatar |
| Onboarding.SavedRowHoldsNickname | src/app/onboarding/page.tsx:122-152 | after a save the user's row loads with the trimmed nickname, which is non-empty; other users' rows are untouched; an update of a missing row changes nothing |
| Onboarding.ThrownMessage | src/app/onboarding/page.tsx:168-170 | an Error shows its message, anything else "알 수 없는 오류" |
| Onboarding.SubmitGuard | src/app/onboarding/page.tsx:101-109 | no user and a blank nickname are refused with their toasts, in that order; anything else proceeds |
| Onboarding.OnboardingForm.constructor | src/app/onboarding/page.tsx:19-25 | the form starts empty and idle |
| Onboarding.OnboardingForm.Prefill | src/app/onboarding/page.tsx:27-41 | a visitor who is not loading is sent to "/login"; a user's metadata fills the form |
| Onboarding.OnboardingForm.TypeNickname | src/app/onboarding/page.tsx:261-266 | the nickname is cut to its first 20 UTF-16 code units |
| Onboarding.OnboardingForm.TypeBio | src/app/onboarding/page.tsx:283-287 | the bio is cut to its first 200 UTF-16 code units |
| Onboarding.OnboardingForm.HandleFileSelect | src/app/onboarding/page.tsx:43-92 | refused files show their toast; a readable image read for a user becomes the avatar with "이미지가 업로드되었습니다!", a failed read shows the error; uploading ends |
| Onboarding.OnboardingForm.Save | src/app/onboarding/page.tsx:113-158 | no session goes to "/login"; a thrown lookup or a write error shows "프로필 저장에 실패했습니다: " with the message and saves nothing; otherwise the row is saved |
| Onboarding.OnboardingForm.Submit | src/app/onboarding/page.tsx:98-175 | guarded as `SubmitGuard`; a saved profile is reloaded into the provider, "프로필이 성공적으로 저장되었습니다!" shows and the router goes to "/"; a failed save shows `Save`'s error, changes no row and no profile, and goes only to "/login" when there is no session; submitting ends |
| Onboarding.OnboardingForm.SubmitAsWritten | src/app/onboarding/page.tsx:161 | as wired to the hook, a saved profile still ends in the failure toast, with no navigation and no profile reload |
| Onboarding.ClampsHold | src/app/onboarding/page.tsx:264 | the cut fields are prefixes of what was typed, never exceed 20 and 200 code units, and text within the limit is kept whole |
| Text.Utf16TakeKeepsFittingPrefix | src/app/onboarding/page.tsx:264 | `slice(0, n)` keeps every prefix whose UTF-16 code units fit in `n` |
| Text.Utf16TakeWhole | src/components/post-card.tsx:56 | `slice(0, n)` keeps the whole text exactly when its `length` is at most `n`, and a cut text loses the first character that would not fit |
| Text.Utf16TakeGrows | src/components/post-card.tsx:89 | a slice with a larger bound keeps at least as much |
| Text.Utf16TakeOfBmp | src/components/post-card.tsx:56 | for text below U+10000, such as Hangul and ASCII, the code-unit slice is the character slice |
| Text.Utf16LengthOfPlanes | src/lib/schemas.ts:13 | `length` counts one unit per character below U+10000 and two per character above |
| Onboarding.SubmitDisabledMatchesGuard | src/app/onboarding/page.tsx:303-305 | for a signed-in user with nothing in progress the button is disabled exactly when `handleSubmit` would refuse, so an enabled button passes the checks |
| Communities.FilteredPosts | src/app/communities/page.tsx:212-219 | a post is shown exactly when its lowercased title or author contains the lowercased search, its difficulty matches and its location contains the district ("all" passes everything); the list keeps its order and every copy of a shown post |
| Seqs.FilterMultiplicity | src/app/communities/page.tsx:212 | a filter keeps every copy of an accepted element and none of a rejected one |
| Communities.ResultCount | src/app/communities/page.tsx:280 | the count shown is the length of the filtered list, never more than all posts |
| Communities.NoFilterShowsAll | src/app/communities/page.tsx:43-45 | the initial empty search and "all" selects show every post |
| Communities.DifficultyNarrows | src/app/communities/page.tsx:215 | choosing a difficulty filters the "all" list further, keeping its order |
| CommunityCreate.Field | src/app/communities/create/page.tsx:76 | a field reads its stored value |
| CommunityCreate.CommunityDraft.constructor | src/app/communities/create/page.tsx:33-41 | the form starts with five empty fields, no images and nothing submitting |
| CommunityCreate.CommunityDraft.SetField | src/app/communities/create/page.tsx:43-58 | the named field takes the value and nothing else changes |
| CommunityCreate.CommunityDraft.HandleImageUpload | src/app/communities/create/page.tsx:60-67 | a batch passing 5 images is refused whole with its alert; otherwise it is appended in order |
| CommunityCreate.CommunityDraft.RemoveImage | src/app/communities/create/page.tsx:69-71 | only the image at that position is removed |
| CommunityCreate.CommunityDraft.HandleSubmit | src/app/communities/create/page.tsx:73-99 | missing title, content, difficulty or location gives "필수 항목을 모두 입력해주세요."; otherwise success alerts and goes to "/communities", a throw alerts the error; submitting ends |
| CommunityCreate.AddSlotMeansRoom | src/app/communities/create/page.tsx:274 | the add slot shows exactly when `handleImageUpload`'s test would accept one more image; once hidden, five are chosen and every non-empty batch is refused |

## Left out

- Transport and the service itself are not modelled: Supabase's HTTP calls, PostgREST query semantics beyond filter/order/range/single, row-level security, joins to `users` and `topics` for display, database defaults and cascades. Each query's outcome is a snapshot of the tables plus a fault parameter.
- Concurrency: `Promise.all` and the async interleaving of React effects and handlers are modelled as one step after another. The per-image uploads run in index order.
- `Date.now()`, `Math.random()`, database-assigned ids and timestamps, `URL.createObjectURL` and `FileReader` results are inputs.
- `String.prototype.toLowerCase` is a function parameter. A `char` is a Unicode code point; `length` and `slice(0, n)` are counted in UTF-16 code units (`Text.Utf16Length`, `Text.Utf16Take`), where a character above U+FFFF counts two. String order compares code points, not the database's collation.
- URL parsing is reduced to cutting at the first `?` or `#`. Percent-encoding in `URLSearchParams` is not modelled.
- Uri: strings are sequences of Unicode code points, so a lone UTF-16 surrogate, which makes `encodeURI` throw, cannot arise. `decodeURIComponent` throwing on a malformed escape is `None`.
- Mutations.Store.DeletePost: follows the corrected behaviour recorded under Findings: each URL's last path segment is decoded before removal. A segment that does not decode makes `decodeURIComponent` throw inside the `try` around the removal, so no object is removed and the post is still deleted.
- Text.Utf16Take: a surrogate pair that `slice(0, n)` would split is left out whole, where JavaScript keeps its lone high surrogate, which a string of code points cannot hold. The same holds for the slices of PostCard.PreviewOf, PostCard.Share, Onboarding.OnboardingForm.TypeNickname and Onboarding.OnboardingForm.TypeBio: their result is then one code unit shorter than JavaScript's.
- PostCard.PreviewOf: a preview cut inside a surrogate pair drops the pair, as under Text.Utf16Take.
- PostCard.Share: a share text cut inside a surrogate pair drops the pair, as under Text.Utf16Take.
- Onboarding.OnboardingForm.TypeNickname: a nickname cut inside a surrogate pair drops the pair, as under Text.Utf16Take.
- Onboarding.OnboardingForm.TypeBio: a bio cut inside a surrogate pair drops the pair, as under Text.Utf16Take.
- Text.ParseInt: reads integers exactly. Number precision beyond 2^53 and the sign of `-0` are not modelled.
- QueryCache: prefix matching compares keys part by part. Only the hash (`Hashed`) merges `undefined` and `null`; the mutations' prefixes never hold either.
- Api.FetchPosts: requires `pageSize >= 1`; the callers pass 15 or the default 10. A page below 1 is modelled as the service rejecting the negative offset, with PostgreSQL's message, and a page starting after the last matching post as PostgREST's "Requested range not satisfiable"; the exact wording the service relays is not modelled. A `NaN` page (`?page=abc`) is not passed on in this model.
- Api.Listing: posts with equal `created_at` are kept in storage order, and every page query is assumed to see that same order. The database leaves the order of ties unspecified between queries, so with tied timestamps across a page boundary a post could appear on two pages or on none; `Api.FetchPostsPagesDisjoint` and `Api.FetchPostsPagesCover` rely on the fixed order.
- PostsNavigation.SelectedTopicId: a `topic` naming an inherited member is passed on as that member's text. The model's listing then matches no post; a `topic_id` column of type uuid would instead reject the filter, which is the listing's query fault.
- Mutations.Toggle: the check `.single()` is modelled as "one row or not". A duplicated like row is not a separate error.
- Mutations.Store.DeleteComment: follows the code, which reports success even when no row of the caller matches, rather than failing.
- Mutations.Store.DeletePost: a storage removal that fails or throws is one flag. Either way the post is still deleted, as in the code.
- The two `useAuth` implementations are both modelled (`Auth.AuthProvider`, `Auth.SessionHook`). Which one a component imports is recorded under Findings.
- Auth.AuthProvider.Valid: does not state that the profile belongs to the signed-in user. A sign-in of a second account whose profile neither loads nor can be created keeps the previous profile, as the code does.
- Auth.AuthProvider.InitializeAuth: a throw from `getSession` is treated like an error result.
- Onboarding.OnboardingForm.HandleFileSelect: the read result is an input. The catch around the `FileReader` constructor is left out.
- Onboarding.OnboardingForm.Save: requires that the no-row code "PGRST116" arises only from a missing row. A `getSession` that throws is left out.
- Onboarding.OnboardingForm.Prefill: the prefilled nickname is not cut to 20 characters, as in the code.
- Communities.FilteredPosts: the sixteen fixed example posts, their relative dates and the static pager of the community page are not modelled. The filter is stated for any list.
- CommunityCreate.CommunityDraft.HandleSubmit: the two-second wait is a flag saying whether it throws. The form data is logged, not stored.
- Rendering details are not modelled: markup, icons, avatar fallbacks, relative times and styling.

## Findings

| source | as written | input that shows it | evidently intended | confidence | as-written member | corrected member |
|---|---|---|---|---|---|---|
| src/components/protected-route.tsx:5 | the guard reads `userProfile` from `src/hooks/use-auth.ts`, whose hook returns no profile, so with `requireProfile` the nickname test always fails | any signed-in user with a complete profile opening a page guarded with `requireProfile` (the post create page) | read the profile from the auth provider, so users with a nickname see the page | not executed | RouteGuard.ProfilePagesNeverRenderAsWritten | RouteGuard.ProfilePagesRenderForNamedUsers |
| src/app/onboarding/page.tsx:16 | the page takes `refreshProfile` from `src/hooks/use-auth.ts`, which has none; the call after a successful save throws a TypeError, caught as a save failure | a signed-in user with a non-blank nickname whose profile write succeeds | reload the profile, show "프로필이 성공적으로 저장되었습니다!" and go to "/" | not executed | Onboarding.OnboardingForm.SubmitAsWritten | Onboarding.OnboardingForm.Submit |
| src/lib/api.ts:409-414 | `getPublicUrl` percent-encodes the object path with `encodeURI`, and `new URL(imageUrl).pathname` keeps the escapes, so the path passed to `remove` is still encoded | an image whose name has no dot, so that the whole name becomes the extension, and holds a space, such as "photo 1": the object `post-images/<time>-0-<random>.photo 1` is stored but `post-images/<time>-0-<random>.photo%201` is removed | decode the last segment with `decodeURIComponent` before removing, so every stored object of the post is removed | not executed | Mutations.ImageWithSpaceOutlivesItsPost | Mutations.UploadDeleteRoundTrip |
