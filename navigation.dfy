/** The posts list page (`src/app/posts/page.tsx`) and its layout
    (`src/app/posts/layout.tsx`): reading the topic and page from the
    address, the page count and pager, and the addresses the pager and the
    topic sidebar navigate to. Query strings are modelled before
    percent-encoding. */
module PostsNavigation {
  import opened Wrappers
  import opened Text
  import opened Seqs
  import opened Records
  import Api

  /** The topic name that stands for every topic. */
  const AllTopicsName := "전체"

  /** Posts per page on the list page. */
  const PostsPerPage: nat := 15

  /** The most numbered page buttons shown. */
  const MaxPageButtons: nat := 5

  // ---------------------------------------------------------------------
  // Query parameters: `URLSearchParams` before serialisation.

  datatype Param = Param(name: string, value: string)

  /** `params.get(name)`: the value of the first pair with that name. */
  function Get(ps: seq<Param>, name: string): (r: Option<string>)
    ensures r.Some? <==> exists i :: 0 <= i < |ps| && ps[i].name == name
  {
    if ps == [] then None
    else if ps[0].name == name then Some(ps[0].value)
    else Get(ps[1..], name)
  }

  /** Every pair but those with the name. */
  function Without(ps: seq<Param>, name: string): (r: seq<Param>)
    ensures Get(r, name).None?
    ensures forall other :: other != name ==> Get(r, other) == Get(ps, other)
  {
    if ps == [] then []
    else if ps[0].name == name then Without(ps[1..], name)
    else [ps[0]] + Without(ps[1..], name)
  }

  /** `params.set(name, value)`: the first pair with the name takes the
      value and the others are dropped; with none, the pair is appended. */
  function Set(ps: seq<Param>, name: string, value: string): (r: seq<Param>)
    ensures r != []
    ensures Get(r, name) == Some(value)
    ensures forall other :: other != name ==> Get(r, other) == Get(ps, other)
  {
    if ps == [] then [Param(name, value)]
    else if ps[0].name == name then [Param(name, value)] + Without(ps[1..], name)
    else [ps[0]] + Set(ps[1..], name, value)
  }

  /** `params.toString()`: `name=value` pairs joined by `&`. */
  function Serialize(ps: seq<Param>): (r: string)
    ensures r == [] <==> ps == []
  {
    if ps == [] then []
    else if |ps| == 1 then ps[0].name + "=" + ps[0].value
    else ps[0].name + "=" + ps[0].value + "&" + Serialize(ps[1..])
  }

  /** `queryString ? "/posts?" + queryString : "/posts"`. */
  function PostsHref(ps: seq<Param>): (r: string)
  {
    var q := Serialize(ps);
    if q != [] then "/posts?" + q else "/posts"
  }

  // ---------------------------------------------------------------------
  // posts/page.tsx

  /** `searchParams.get("topic") || "전체"`. */
  function SelectedTopic(topicParam: Option<string>): (r: string)
    ensures r != []
    ensures topicParam.Some? && topicParam.value != [] ==> r == topicParam.value
    ensures topicParam.None? || topicParam.value == [] ==> r == AllTopicsName
  {
    OptOrElse(topicParam, AllTopicsName)
  }

  /** The four topic names the page knows, with their ids. */
  const TopicMapping: seq<(string, TopicId)> := [
    ("자유게시판", "0a29a8e9-c6ab-4cb9-8e3b-0cd920c5cbd8"),
    ("파트너찾기", "12404483-42cc-44fb-b6ea-32df9e8bd953"),
    ("티켓양도", "238278ec-2a26-4e18-badd-dc7afdbcf4b1"),
    ("클래스", "543117a3-78b2-4cc1-b7f4-f02d9fa06c9b")]

  function Lookup(mapping: seq<(string, TopicId)>, name: string): (r: Option<TopicId>)
    ensures r.Some? <==> exists i :: 0 <= i < |mapping| && mapping[i].0 == name
    ensures r.Some? ==> exists i :: 0 <= i < |mapping| && mapping[i] == (name, r.value)
  {
    if mapping == [] then None
    else if mapping[0].0 == name then Some(mapping[0].1)
    else Lookup(mapping[1..], name)
  }

  /** The names a plain object literal such as `topicMapping` inherits
      from `Object.prototype`; indexing it with one of them finds that
      member, which is truthy. */
  const InheritedNames: set<string> := {
    "constructor", "__proto__", "toString", "toLocaleString", "valueOf",
    "hasOwnProperty", "isPrototypeOf", "propertyIsEnumerable",
    "__defineGetter__", "__defineSetter__", "__lookupGetter__", "__lookupSetter__"}

  /** The text an inherited member turns into when the query builder
      writes it into a filter: `Object.prototype` prints as
      "[object Object]", its constructor as the source of `Object`, and a
      method as the source of a native function of that name. */
  function InheritedText(name: string): (r: string)
    ensures r != [] && (r[0] == 'f' || r[0] == '[')
  {
    if name == "__proto__" then "[object Object]"
    else if name == "constructor" then "function Object() { [native code] }"
    else "function " + name + "() { [native code] }"
  }

  /** `selectedTopicId`: no topic for "전체", the mapped id for a mapped
      name, the inherited member for an inherited name, and no topic for
      any other name. */
  function SelectedTopicId(selected: string): (r: Option<TopicId>)
    ensures selected == AllTopicsName ==> r.None?
    ensures r.Some? ==>
      || (exists i :: 0 <= i < |TopicMapping| && TopicMapping[i] == (selected, r.value))
      || (selected in InheritedNames && r.value == InheritedText(selected))
    ensures selected != AllTopicsName && (exists i :: 0 <= i < |TopicMapping| && TopicMapping[i].0 == selected) ==> r.Some?
    ensures selected in InheritedNames ==> r == Some(InheritedText(selected))
    ensures (selected != AllTopicsName && selected !in InheritedNames &&
             forall i :: 0 <= i < |TopicMapping| ==> TopicMapping[i].0 != selected) ==> r.None?
  {
    MappedNamesAreOwn();
    if selected == AllTopicsName then None
    else
      var own := Lookup(TopicMapping, selected);
      if own.Some? then own
      else if selected in InheritedNames then Some(InheritedText(selected))
      else None
  }

  /** None of the mapped names is inherited, and neither is "전체". */
  lemma MappedNamesAreOwn()
    ensures forall i :: 0 <= i < |TopicMapping| ==> TopicMapping[i].0 !in InheritedNames
    ensures AllTopicsName !in InheritedNames
  {
    forall i | 0 <= i < |TopicMapping| ensures TopicMapping[i].0 !in InheritedNames {
      assert TopicMapping[i].0[0] as int >= 0xAC00;
      assert forall n :: n in InheritedNames ==> n[0] as int < 0x80;
    }
    assert AllTopicsName[0] as int >= 0xAC00;
    assert forall n :: n in InheritedNames ==> n[0] as int < 0x80;
  }

  /** A topic parameter naming an inherited member, "constructor" or
      "toString" say, does not show every post: it filters on a topic id
      that no mapped topic has. */
  lemma InheritedNameFiltersNoKnownTopic(topicParam: string)
    requires topicParam in InheritedNames
    ensures var r := SelectedTopicId(SelectedTopic(Some(topicParam)));
      r.Some? && forall i :: 0 <= i < |TopicMapping| ==> TopicMapping[i].1 != r.value
  {
    var r := SelectedTopicId(SelectedTopic(Some(topicParam)));
    assert topicParam != [];
    forall i | 0 <= i < |TopicMapping| ensures TopicMapping[i].1 != r.value {
      assert '0' <= TopicMapping[i].1[0] <= '9';
    }
  }

  /** `parseInt(searchParams.get("page") || "1")`; `None` is `NaN`. */
  function CurrentPage(pageParam: Option<string>): (r: Option<int>)
    ensures pageParam.None? ==> r == Some(1)
  {
    ParseIntToString(1);
    ParseInt(OptOrElse(pageParam, IntToString(1)))
  }

  /** A page written in hexadecimal is read as that page: `?page=0x2` is
      page 2, and `?page=0x` is `NaN`. */
  lemma CurrentPageReadsHex()
    ensures CurrentPage(Some("0x2")) == Some(2)
    ensures CurrentPage(Some("0x")).None?
  {
    ParseIntReadsHex();
  }

  /** `?page=0` is read as page 0, which reaches `fetchPosts` unchecked
      and makes the list fail to load. */
  lemma PageZeroFailsToLoad(t: Tables, caller: Option<UserId>, topicId: Option<TopicId>, f: Api.ListingFaults)
    ensures CurrentPage(Some("0")) == Some(0)
    ensures Api.FetchPosts(t, caller, topicId, 0, PostsPerPage, f) == Err(Api.PostsFailed + Api.NegativeOffset)
  {
    ParseIntToString(0);
    assert IntToString(0) == "0";
  }

  /** `Math.ceil(totalCount / 15)`, a missing count being 0. */
  function TotalPages(totalCount: Option<nat>): (r: nat)
    ensures var c := totalCount.GetOr(0);
      r * PostsPerPage >= c && (r == 0 || (r - 1) * PostsPerPage < c)
  {
    (totalCount.GetOr(0) + PostsPerPage - 1) / PostsPerPage
  }

  /** There are no pages exactly when there are no posts. */
  lemma NoPagesIffNoPosts(totalCount: Option<nat>)
    ensures TotalPages(totalCount) == 0 <==> totalCount.GetOr(0) == 0
  {
  }

  /** A page in range starts at a post that exists, and the page after the
      last starts past every post. */
  lemma PagesInRangeAreNonEmpty(totalCount: Option<nat>, page: int)
    requires page >= 1
    ensures page <= TotalPages(totalCount) <==> (page - 1) * PostsPerPage < totalCount.GetOr(0)
  {
    var c, r := totalCount.GetOr(0), TotalPages(totalCount);
    if page <= r {
      assert (page - 1) * PostsPerPage <= (r - 1) * PostsPerPage;
    } else {
      assert (page - 1) * PostsPerPage >= r * PostsPerPage;
    }
  }

  /** With no query fault, every page from 1 to the last page loads, and
      so does the empty page just past a count that fills its pages
      exactly; any later page asks for a range past the count and fails. */
  lemma WhichPagesLoad(t: Tables, caller: Option<UserId>, topicId: Option<TopicId>, page: int, f: Api.ListingFaults)
    requires page >= 1 && f.query.None?
    ensures var total := |Api.Listing(t.posts, topicId)|;
      Api.FetchPosts(t, caller, topicId, page, PostsPerPage, f).Ok? <==>
        page <= TotalPages(Some(total)) || (page - 1) * PostsPerPage == total
  {
    PagesInRangeAreNonEmpty(Some(|Api.Listing(t.posts, topicId)|), page);
  }

  datatype PageButton = PageButton(page: int, current: bool)

  /** What the pager shows: whether "이전" and "다음" are disabled, and the
      numbered buttons. */
  datatype Pager = Pager(prevDisabled: bool, buttons: seq<PageButton>, nextDisabled: bool)

  /** The pager, shown only when there is more than one page. */
  function Pagination(currentPage: Option<int>, totalPages: nat): (r: Option<Pager>)
    ensures r.Some? <==> totalPages > 1
  {
    if totalPages <= 1 then None
    else Some(Pager(
      currentPage == Some(1),
      seq(Min(totalPages, MaxPageButtons), i => PageButton(i + 1, currentPage == Some(i + 1))),
      currentPage == Some(totalPages)))
  }

  /** The buttons number the pages from 1 up to at most five, none beyond
      the last page; at most one is the current page, and it is there
      exactly when the current page is among them. */
  lemma PaginationButtons(currentPage: Option<int>, totalPages: nat)
    requires totalPages > 1
    ensures var bs := Pagination(currentPage, totalPages).value.buttons;
      && |bs| == Min(totalPages, MaxPageButtons)
      && (forall i :: 0 <= i < |bs| ==> bs[i].page == i + 1 && 1 <= bs[i].page <= totalPages)
      && (forall i, j :: 0 <= i < j < |bs| && bs[i].current ==> !bs[j].current)
      && ((exists i :: 0 <= i < |bs| && bs[i].current) <==>
            currentPage.Some? && 1 <= currentPage.value <= Min(totalPages, MaxPageButtons))
  {
    var bs := Pagination(currentPage, totalPages).value.buttons;
    if currentPage.Some? && 1 <= currentPage.value <= Min(totalPages, MaxPageButtons) {
      assert bs[currentPage.value - 1].current;
    }
  }

  /** "이전" is disabled exactly on page 1 and "다음" exactly on the last
      page, so from any page in range both enabled moves stay in range. */
  lemma PaginationMovesStayInRange(currentPage: int, totalPages: nat)
    requires totalPages > 1 && 1 <= currentPage <= totalPages
    ensures var p := Pagination(Some(currentPage), totalPages).value;
      && (p.prevDisabled <==> currentPage == 1)
      && (p.nextDisabled <==> currentPage == totalPages)
      && (!p.prevDisabled ==> 1 <= currentPage - 1 <= totalPages)
      && (!p.nextDisabled ==> 1 <= currentPage + 1 <= totalPages)
  {
  }

  /** The parameters `handlePageChange(page)` sets: the topic unless it is
      "전체", then the page. */
  function PageParams(selected: string, page: int): seq<Param> {
    var ps := if selected != AllTopicsName then Set([], "topic", selected) else [];
    Set(ps, "page", IntToString(page))
  }

  /** `handlePageChange(page)`'s address. */
  function PageHref(selected: string, page: int): (r: string)
    ensures r == "/posts?" + Serialize(PageParams(selected, page))
  {
    PostsHref(PageParams(selected, page))
  }

  /** Reading the address `handlePageChange` builds gives back the topic and
      the page it was given. */
  lemma PageParamsRoundTrip(selected: string, page: int)
    requires selected != []
    ensures var ps := PageParams(selected, page);
      && SelectedTopic(Get(ps, "topic")) == selected
      && CurrentPage(Get(ps, "page")) == Some(page)
      && (Get(ps, "topic").Some? <==> selected != AllTopicsName)
  {
    ParseIntToString(page);
  }

  // ---------------------------------------------------------------------
  // posts/layout.tsx

  /** The parameters `handleTopicChange(topicName)` sets. */
  function TopicParams(topicName: string): seq<Param> {
    var ps := if topicName != AllTopicsName then Set([], "topic", topicName) else [];
    Set(ps, "page", "1")
  }

  /** `handleTopicChange(topicName)`'s address. */
  function TopicHref(topicName: string): (r: string)
    ensures r == "/posts?" + Serialize(TopicParams(topicName))
  {
    PostsHref(TopicParams(topicName))
  }

  /** Choosing a topic goes to its first page: the same address as the
      pager's button 1 under that topic. */
  lemma TopicChangeIsFirstPage(topicName: string)
    ensures TopicHref(topicName) == PageHref(topicName, 1)
    ensures topicName != [] ==> CurrentPage(Get(TopicParams(topicName), "page")) == Some(1)
  {
    OneToString();
    assert TopicParams(topicName) == PageParams(topicName, 1);
    if topicName != [] {
      PageParamsRoundTrip(topicName, 1);
    }
  }

  lemma OneToString()
    ensures IntToString(1) == "1"
  {
    assert NatToString(1) == [DigitChar(1)];
  }

  /** One entry of the topic sidebar. */
  datatype SidebarTopic = SidebarTopic(name: string, id: Option<TopicId>)

  /** `allTopics`: "전체" with no id, then the fetched topics in order. */
  function AllTopics(topics: seq<Topic>): (r: seq<SidebarTopic>)
    ensures |r| == |topics| + 1
    ensures r[0] == SidebarTopic(AllTopicsName, None)
    ensures forall i :: 0 <= i < |topics| ==> r[i + 1] == SidebarTopic(topics[i].name, Some(topics[i].id))
  {
    [SidebarTopic(AllTopicsName, None)] +
    seq(|topics|, i requires 0 <= i < |topics| => SidebarTopic(topics[i].name, Some(topics[i].id)))
  }

  /** A sidebar button is highlighted when it names the selected topic. */
  predicate Highlighted(selected: string, entry: SidebarTopic) {
    selected == entry.name
  }

  /** With topic names distinct and none of them "전체", exactly one
      sidebar entry is highlighted for any selection that names an entry,
      and with no topic in the address it is "전체". */
  lemma OneHighlighted(topics: seq<Topic>, topicParam: Option<string>, k: nat)
    requires DistinctBy(topics, (t: Topic) => t.name)
    requires forall t :: t in topics ==> t.name != AllTopicsName
    requires k < |AllTopics(topics)| && Highlighted(SelectedTopic(topicParam), AllTopics(topics)[k])
    ensures forall j :: 0 <= j < |AllTopics(topics)| && Highlighted(SelectedTopic(topicParam), AllTopics(topics)[j]) ==> j == k
    ensures topicParam.None? ==> k == 0
  {
    var all := AllTopics(topics);
    forall j | 0 <= j < |all| && Highlighted(SelectedTopic(topicParam), all[j]) ensures j == k {
      if j > 0 { assert topics[j - 1] in topics; }
      if k > 0 { assert topics[k - 1] in topics; }
    }
    if topicParam.None? {
      assert Highlighted(SelectedTopic(topicParam), all[0]);
    }
  }

  /** The right sidebar's heading. */
  function Heading(selected: string): (r: string)
    ensures r != AllTopicsName
    ensures selected != "" ==> r != ""
    ensures selected != AllTopicsName ==> r == selected
  {
    if selected == AllTopicsName then "커뮤니티 정보" else selected
  }

  /** The sidebar of a page is never headed by an empty title or by
      "전체": a topic named in the address heads it, and the list of all
      topics gets the community heading. */
  lemma HeadingOfPage(topicParam: Option<string>)
    ensures var h := Heading(SelectedTopic(topicParam));
      && h != "" && h != AllTopicsName
      && (topicParam.Some? && topicParam.value != "" && topicParam.value != AllTopicsName ==> h == topicParam.value)
      && (topicParam.None? ==> h == "커뮤니티 정보")
  {
  }
}
