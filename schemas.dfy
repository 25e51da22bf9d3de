/** The post form schema (`createPostSchema`) and the `stripHtml` helper
    shared by the schema and the post card. */
module Schemas {
  import opened Wrappers
  import opened Text
  import opened Records

  /** Index of the first `c` in `s`. */
  function FirstIndex(s: string, c: char): (k: nat)
    requires c in s
    ensures k < |s| && s[k] == c && c !in s[..k]
  {
    if s[0] == c then 0 else 1 + FirstIndex(s[1..], c)
  }

  /** Every `<` followed, later, by a `>` starts a tag running to the first
      such `>`; all tags are removed, left to right, and everything else is
      kept. A `<` with no later `>` stays. */
  function RemoveTags(s: string): (r: string)
    ensures |r| <= |s|
    ensures '>' in r ==> '>' in s
    decreases |s|
  {
    if s == [] then []
    else if s[0] == '<' && '>' in s[1..] then
      var close := 1 + FirstIndex(s[1..], '>');
      RemoveTags(s[close + 1..])
    else
      var rest := RemoveTags(s[1..]);
      assert '>' in rest ==> '>' in s[1..];
      [s[0]] + rest
  }

  /** No `<` is followed anywhere later by a `>`: nothing is left that the
      tag pattern `<[^>]*>` could match. */
  ghost predicate TagFree(s: string) {
    forall i, j :: 0 <= i < j < |s| && s[i] == '<' ==> s[j] != '>'
  }

  /** `stripHtml`: remove the tags, then trim. */
  function StripHtml(html: string): (r: string)
  {
    Trim(RemoveTags(html))
  }

  /** A character put before a tag-free text keeps it tag-free, unless it
      opens a tag that a later `>` closes. */
  lemma ConsTagFree(c: char, rest: string)
    requires TagFree(rest)
    requires c == '<' ==> '>' !in rest
    ensures TagFree([c] + rest)
  {
    var r := [c] + rest;
    forall i, j | 0 <= i < j < |r| && r[i] == '<' ensures r[j] != '>' {
      if i == 0 {
        assert r[j] == rest[j - 1] && rest[j - 1] in rest;
      } else {
        assert r[i] == rest[i - 1] && r[j] == rest[j - 1];
      }
    }
  }

  /** Removing the tags leaves no tag behind. */
  lemma {:induction false} RemoveTagsTagFree(s: string)
    ensures TagFree(RemoveTags(s))
    decreases |s|
  {
    if s == [] {
    } else if s[0] == '<' && '>' in s[1..] {
      var close := 1 + FirstIndex(s[1..], '>');
      assert RemoveTags(s) == RemoveTags(s[close + 1..]);
      RemoveTagsTagFree(s[close + 1..]);
    } else {
      var rest := RemoveTags(s[1..]);
      assert RemoveTags(s) == [s[0]] + rest;
      RemoveTagsTagFree(s[1..]);
      ConsTagFree(s[0], rest);
    }
  }

  /** A tag-free string has nothing to remove. */
  lemma {:induction false} RemoveTagsOfTagFree(s: string)
    requires TagFree(s)
    ensures RemoveTags(s) == s
    decreases |s|
  {
    if s != [] {
      forall k | 0 <= k < |s[1..]| && s[0] == '<' ensures s[1..][k] != '>' {
        assert s[1..][k] == s[k + 1];
      }
      assert TagFree(s[1..]) by {
        forall i, j | 0 <= i < j < |s[1..]| && s[1..][i] == '<' ensures s[1..][j] != '>' {
          assert s[i + 1] == '<';
        }
      }
      RemoveTagsOfTagFree(s[1..]);
    }
  }

  /** A stripped text holds no tag, and its two ends are not white space. */
  lemma StripHtmlClean(html: string)
    ensures TagFree(StripHtml(html))
    ensures var r := StripHtml(html); r == [] || (!IsJsSpace(r[0]) && !IsJsSpace(r[|r| - 1]))
  {
    var t := RemoveTags(html);
    RemoveTagsTagFree(html);
    TrimIsTrimmedInfix(t);
    var r := Trim(t);
    var k := |t| - |TrimStart(t)|;
    forall i, j | 0 <= i < j < |r| && r[i] == '<' ensures r[j] != '>' {
      assert r[i] == t[k + i] && r[j] == t[k + j];
    }
  }

  /** A stripped text has no tag left to remove. */
  lemma RemoveTagsOfStripped(html: string)
    ensures RemoveTags(StripHtml(html)) == StripHtml(html)
  {
    StripHtmlClean(html);
    RemoveTagsOfTagFree(StripHtml(html));
  }

  /** Stripping an already stripped text changes nothing. */
  lemma StripHtmlIdempotent(html: string)
    ensures StripHtml(StripHtml(html)) == StripHtml(html)
  {
    RemoveTagsOfStripped(html);
    TrimIdempotent(RemoveTags(html));
  }

  // ---------------------------------------------------------------------
  // createPostSchema

  /** The values the post form submits. */
  datatype PostForm = PostForm(
    title: string,
    content: string,
    topic_id: string,
    images: Option<seq<File>>)

  /** One schema violation, per field and rule. */
  datatype FormIssue =
    | TitleMissing      // "제목을 입력해주세요"
    | TitleTooLong      // "제목은 50자 이내로 입력해주세요"
    | ContentTooShort   // "내용을 10자 이상 입력해주세요"
    | ContentTooLong    // "내용은 5000자 이내로 입력해주세요"
    | TopicMissing      // "토픽을 선택해주세요"
    | TooManyImages     // "이미지는 최대 5개까지 업로드할 수 있습니다"

  const MaxTitleLength: nat := 50
  const MinContentLength: nat := 10
  const MaxContentLength: nat := 5000

  /** The rules in field order. */
  const AllIssues := [TitleMissing, TitleTooLong, ContentTooShort, ContentTooLong, TopicMissing, TooManyImages]

  /** Whether the form breaks the rule `x`, the content measured as
      `textLength` UTF-16 code units. */
  predicate Breaks(form: PostForm, textLength: nat, x: FormIssue) {
    match x
    case TitleMissing => Utf16Length(form.title) < 1
    case TitleTooLong => Utf16Length(form.title) > MaxTitleLength
    case ContentTooShort => textLength < MinContentLength
    case ContentTooLong => textLength > MaxContentLength
    case TopicMissing => Utf16Length(form.topic_id) < 1
    case TooManyImages => form.images.Some? && |form.images.value| > MaxImages
  }

  /** The rules of `rules` that the form breaks, in their order. */
  function BrokenRules(form: PostForm, textLength: nat, rules: seq<FormIssue>): (r: seq<FormIssue>)
    ensures forall x :: x in r <==> x in rules && Breaks(form, textLength, x)
  {
    if rules == [] then []
    else if Breaks(form, textLength, rules[0]) then [rules[0]] + BrokenRules(form, textLength, rules[1..])
    else BrokenRules(form, textLength, rules[1..])
  }

  /** Every rule the form breaks, in field order; the form is accepted when
      there are none. Each rule is checked on its own, so all violations are
      reported together. */
  function IssuesOf(form: PostForm, textLength: nat): (r: seq<FormIssue>)
    ensures TitleMissing in r <==> Utf16Length(form.title) < 1
    ensures TitleTooLong in r <==> Utf16Length(form.title) > MaxTitleLength
    ensures ContentTooShort in r <==> textLength < MinContentLength
    ensures ContentTooLong in r <==> textLength > MaxContentLength
    ensures TopicMissing in r <==> Utf16Length(form.topic_id) < 1
    ensures TooManyImages in r <==> form.images.Some? && |form.images.value| > MaxImages
  {
    BrokenRules(form, textLength, AllIssues)
  }

  function Issues(form: PostForm): (r: seq<FormIssue>)
    ensures TitleMissing in r <==> Utf16Length(form.title) < 1
    ensures TitleTooLong in r <==> Utf16Length(form.title) > MaxTitleLength
    ensures ContentTooShort in r <==> Utf16Length(StripHtml(form.content)) < MinContentLength
    ensures ContentTooLong in r <==> Utf16Length(StripHtml(form.content)) > MaxContentLength
    ensures TopicMissing in r <==> Utf16Length(form.topic_id) < 1
    ensures TooManyImages in r <==> form.images.Some? && |form.images.value| > MaxImages
  {
    IssuesOf(form, Utf16Length(StripHtml(form.content)))
  }

  /** A title of more than 25 characters from above U+FFFF, emoji for
      instance, takes two code units each and is too long. */
  lemma AstralTitleTooLong(form: PostForm)
    requires |form.title| > MaxTitleLength / 2
    requires forall i :: 0 <= i < |form.title| ==> form.title[i] > '\U{FFFF}'
    ensures TitleTooLong in Issues(form)
  {
    Utf16LengthOfPlanes(form.title);
  }

  /** `createPostSchema.safeParse`: the form, or the rules it breaks. */
  function Validate(form: PostForm): (r: Result<PostForm, seq<FormIssue>>)
    ensures r.Ok? <==>
      && 1 <= Utf16Length(form.title) <= MaxTitleLength
      && MinContentLength <= Utf16Length(StripHtml(form.content)) <= MaxContentLength
      && Utf16Length(form.topic_id) >= 1
      && (form.images.None? || |form.images.value| <= MaxImages)
    ensures r.Ok? ==> r.value == form
    ensures r.Err? ==> r.error != []
  {
    var issues := Issues(form);
    if issues == [] then Ok(form) else assert issues[0] in issues; Err(issues)
  }
}
