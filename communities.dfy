/** The community board's list (`src/app/communities/page.tsx`): the posts
    that match the search box and the two selects, and the count shown above
    them. `toLowerCase` is given as a function, since its case mapping is
    Unicode's. */
module Communities {
  import opened Text
  import opened Seqs

  /** A community post as the list shows it. Its relative date is not part
      of this model. */
  datatype CommunityPost = CommunityPost(
    id: int,
    title: string,
    author: string,
    difficulty: string,
    location: string,
    likes: nat,
    comments: nat)

  /** The value of a select that filters nothing. */
  const All := "all"

  /** The lowercased title or author contains the lowercased term. */
  predicate MatchesSearch(post: CommunityPost, term: string, lower: string -> string) {
    Contains(lower(post.title), lower(term)) || Contains(lower(post.author), lower(term))
  }

  /** "all", or exactly the chosen difficulty. */
  predicate MatchesDifficulty(post: CommunityPost, difficulty: string) {
    difficulty == All || post.difficulty == difficulty
  }

  /** "all", or a location that contains the chosen district. */
  predicate MatchesLocation(post: CommunityPost, location: string) {
    location == All || Contains(post.location, location)
  }

  function Matches(term: string, difficulty: string, location: string, lower: string -> string): CommunityPost -> bool {
    (post: CommunityPost) =>
      MatchesSearch(post, term, lower) && MatchesDifficulty(post, difficulty) && MatchesLocation(post, location)
  }

  /** `filteredPosts`: the posts passing all three tests, in the list's
      order. */
  function FilteredPosts(posts: seq<CommunityPost>, term: string, difficulty: string, location: string,
                         lower: string -> string): (r: seq<CommunityPost>)
    ensures forall post :: post in r <==>
      post in posts && MatchesSearch(post, term, lower) && MatchesDifficulty(post, difficulty) &&
      MatchesLocation(post, location)
    ensures IsSubsequence(r, posts)
    ensures forall post :: (multiset(r)[post] ==
      if Matches(term, difficulty, location, lower)(post) then multiset(posts)[post] else 0)
  {
    FilterIsSubsequence(posts, Matches(term, difficulty, location, lower));
    forall post ensures (multiset(Filter(posts, Matches(term, difficulty, location, lower)))[post] ==
      if Matches(term, difficulty, location, lower)(post) then multiset(posts)[post] else 0)
    {
      FilterMultiplicity(posts, Matches(term, difficulty, location, lower), post);
    }
    Filter(posts, Matches(term, difficulty, location, lower))
  }

  /** "총 N개의 게시글": the number shown is the length of the filtered list. */
  function ResultCount(posts: seq<CommunityPost>, term: string, difficulty: string, location: string,
                       lower: string -> string): (n: nat)
    ensures n <= |posts|
    ensures n == |FilteredPosts(posts, term, difficulty, location, lower)|
  {
    |FilteredPosts(posts, term, difficulty, location, lower)|
  }

  /** An empty search with both selects on "all" shows the whole list, as
      long as lowercasing leaves the empty string empty. */
  lemma NoFilterShowsAll(posts: seq<CommunityPost>, lower: string -> string)
    requires lower("") == ""
    ensures FilteredPosts(posts, "", All, All, lower) == posts
    ensures ResultCount(posts, "", All, All, lower) == |posts|
  {
    forall post | post in posts ensures Matches("", All, All, lower)(post) {
      ContainsEmpty(lower(post.title));
    }
    FilterAll(posts, Matches("", All, All, lower));
  }

  /** Choosing a difficulty filters the list shown under "all" further,
      keeping its order. */
  lemma DifficultyNarrows(posts: seq<CommunityPost>, term: string, difficulty: string, location: string,
                          lower: string -> string)
    ensures FilteredPosts(posts, term, difficulty, location, lower) ==
      Filter(FilteredPosts(posts, term, All, location, lower), (post: CommunityPost) => MatchesDifficulty(post, difficulty))
  {
    FilterFilter(posts, Matches(term, All, location, lower),
                 (post: CommunityPost) => MatchesDifficulty(post, difficulty),
                 Matches(term, difficulty, location, lower));
  }
}
