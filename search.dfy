/**
 * The search operation: the records, in store order, whose lowercased title
 * contains the lowercased title query and whose lowercased content contains
 * the lowercased content query; an empty or absent query filters nothing.
 */
module Search {
  import opened Wrappers
  import opened Text
  import opened Posts

  /** `p` passes both filters; `titleQuery` and `contentQuery` are already lowercased. */
  predicate Matches(p: Post, titleQuery: string, contentQuery: string)
    ensures Matches(p, titleQuery, contentQuery) ==> |titleQuery| <= |p.title| && |contentQuery| <= |p.content|
  {
    (titleQuery == "" || Contains(Lower(p.title), titleQuery)) &&
    (contentQuery == "" || Contains(Lower(p.content), contentQuery))
  }

  /** The records of `posts` that pass both filters, in their order in `posts`. */
  function SearchResult(posts: seq<Post>, titleQuery: string, contentQuery: string): (r: seq<Post>)
    ensures |r| <= |posts|
  {
    if posts == [] then []
    else
      var last := posts[|posts| - 1];
      SearchResult(posts[..|posts| - 1], titleQuery, contentQuery) +
      (if Matches(last, titleQuery, contentQuery) then [last] else [])
  }

  /**
   * The search request with optional `title` and `content` parameters over
   * the store's records `posts`. It never fails, and it leaves the store
   * alone: `posts` is passed by value.
   */
  method SearchPosts(posts: seq<Post>, titleParam: Option<string>, contentParam: Option<string>)
    returns (matching: seq<Post>)
    ensures matching == SearchResult(posts, Lower(titleParam.GetOr("")), Lower(contentParam.GetOr("")))
  {
    var titleQuery := Lower(titleParam.GetOr(""));
    var contentQuery := Lower(contentParam.GetOr(""));
    matching := [];
    var i := 0;
    while i < |posts|
      invariant 0 <= i <= |posts|
      invariant matching == SearchResult(posts[..i], titleQuery, contentQuery)
    {
      var post := posts[i];
      var titleMatch, contentMatch;
      if titleQuery != "" {
        titleMatch := Contains(Lower(post.title), titleQuery);
      } else {
        titleMatch := true;
      }
      if contentQuery != "" {
        contentMatch := Contains(Lower(post.content), contentQuery);
      } else {
        contentMatch := true;
      }
      if titleMatch && contentMatch {
        matching := matching + [post];
      }
      assert posts[..i + 1][..i] == posts[..i];
      i := i + 1;
    }
    assert posts[..|posts|] == posts;
  }

  /** A record is in the result exactly when it is in the store and passes both filters. */
  lemma {:induction false} SearchMembers(posts: seq<Post>, titleQuery: string, contentQuery: string, p: Post)
    ensures p in SearchResult(posts, titleQuery, contentQuery) <==> p in posts && Matches(p, titleQuery, contentQuery)
  {
    if posts != [] {
      var init := posts[..|posts| - 1];
      SearchMembers(init, titleQuery, contentQuery, p);
      assert posts == init + [posts[|posts| - 1]];
    }
  }

  /** Searching a concatenation searches each part in turn, so the result keeps the store's order. */
  lemma {:induction false} SearchConcat(a: seq<Post>, b: seq<Post>, titleQuery: string, contentQuery: string)
    ensures SearchResult(a + b, titleQuery, contentQuery) ==
      SearchResult(a, titleQuery, contentQuery) + SearchResult(b, titleQuery, contentQuery)
    decreases |b|
  {
    if b == [] {
      assert a + b == a;
    } else {
      var init := b[..|b| - 1];
      SearchConcat(a, init, titleQuery, contentQuery);
      assert (a + b)[..|a + b| - 1] == a + init;
    }
  }

  /** The result has no record more often than the store has it. */
  lemma {:induction false} SearchSubMultiset(posts: seq<Post>, titleQuery: string, contentQuery: string)
    ensures multiset(SearchResult(posts, titleQuery, contentQuery)) <= multiset(posts)
  {
    if posts != [] {
      var init := posts[..|posts| - 1];
      SearchSubMultiset(init, titleQuery, contentQuery);
      assert posts == init + [posts[|posts| - 1]];
    }
  }

  /** With no queries every record matches, so the result is the whole store. */
  lemma {:induction false} SearchWithoutQueries(posts: seq<Post>)
    ensures SearchResult(posts, "", "") == posts
  {
    if posts != [] {
      SearchWithoutQueries(posts[..|posts| - 1]);
    }
  }

  /** The "only if the query is non-empty" guards change nothing: an empty query is contained in every field. */
  lemma SearchGuardsRedundant(p: Post, titleQuery: string, contentQuery: string)
    ensures Matches(p, titleQuery, contentQuery) <==>
      Contains(Lower(p.title), titleQuery) && Contains(Lower(p.content), contentQuery)
  {
  }
}
