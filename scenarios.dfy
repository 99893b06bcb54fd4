/**
 * Concrete requests against the model: the case-insensitive and stable
 * sort, search over the seed records, and a sequence of store operations
 * checked against the operations' contracts alone.
 */
module Scenarios {
  import opened Wrappers
  import opened Text
  import opened Posts
  import opened Sorting
  import opened Listing
  import opened Search
  import opened PostStore

  /** Sorting ["Banana", "apple"] by title ignores case, and "desc" reverses it. */
  lemma SortIgnoresCase()
    ensures var banana, apple := Post(1, "Banana", ""), Post(2, "apple", "");
      ListPosts([banana, apple], Some("title"), None) == Ok([apple, banana]) &&
      ListPosts([banana, apple], Some("title"), Some("desc")) == Ok([banana, apple])
  {
    var banana, apple := Post(1, "Banana", ""), Post(2, "apple", "");
    var ps := [banana, apple];
    assert Key(TitleField, banana)[0] == 'b' && Key(TitleField, apple)[0] == 'a';
    assert ps[1..] == [apple];
    assert SortBy([apple], TitleField, Asc) == [apple];
    assert SortBy([apple], TitleField, Desc) == [apple];
    assert !InOrder(TitleField, Asc, banana, apple);
    assert SortBy(ps, TitleField, Asc) == [apple] + Insert(TitleField, Asc, banana, []);
    assert SortBy(ps, TitleField, Asc) == [apple, banana];
    assert InOrder(TitleField, Desc, banana, apple);
    assert SortBy(ps, TitleField, Desc) == ps;
    assert DirectionNamed(None) == Asc && FieldNamed("title") == TitleField;
    assert ListPosts(ps, Some("title"), None) == Ok(SortBy(ps, TitleField, Asc));
  }

  /** With a tie, "desc" keeps the store order of the tied records instead of reversing the ascending listing. */
  lemma DescendingKeepsTies()
    ensures var lower, upper := Post(1, "x", "a"), Post(2, "X", "b");
      ListPosts([lower, upper], Some("title"), Some("asc")) == Ok([lower, upper]) &&
      ListPosts([lower, upper], Some("title"), Some("desc")) == Ok([lower, upper])
  {
    var lower, upper := Post(1, "x", "a"), Post(2, "X", "b");
    var ps := [lower, upper];
    assert Key(TitleField, lower) == Key(TitleField, upper);
    TieInOrder(TitleField, Asc, lower, upper);
    TieInOrder(TitleField, Desc, lower, upper);
    assert ps[1..] == [upper];
    assert SortBy([upper], TitleField, Asc) == [upper];
    assert SortBy([upper], TitleField, Desc) == [upper];
    assert SortBy(ps, TitleField, Asc) == ps;
    assert SortBy(ps, TitleField, Desc) == ps;
  }

  /** A bogus sort field or direction is rejected, the field being checked first. */
  lemma InvalidParametersRejected(posts: seq<Post>)
    ensures ListPosts(posts, Some("bogus"), None) == Err(InvalidParameter(SortParam))
    ensures ListPosts(posts, None, Some("up")) == Err(InvalidParameter(DirectionParam))
    ensures ListPosts(posts, Some("bogus"), Some("up")) == Err(InvalidParameter(SortParam))
    ensures ListPosts(posts, Some(""), None) == Err(InvalidParameter(SortParam))
  {
  }

  /** Searching the seed records for title "first" finds only "First post". */
  lemma SearchSeedByTitle()
    ensures SearchResult(SeedPosts(), Lower("first"), Lower("")) == [SeedPosts()[0]]
  {
    var first, second := SeedPosts()[0], SeedPosts()[1];
    assert Lower("first") == "first";
    assert Lower(first.title)[..5] == "first";
    assert Matches(first, "first", "");
    assert !('f' in Lower(second.title));
    NoFirstCharNoMatch(Lower(second.title), "first");
    assert !Matches(second, "first", "");
    assert SeedPosts()[..1] == [first];
  }

  /** A needle whose first character does not occur in `hay` is not contained in it. */
  lemma NoFirstCharNoMatch(hay: string, needle: string)
    requires needle != [] && needle[0] !in hay
    ensures !Contains(hay, needle)
  {
  }

  /** The operations in sequence, each outcome known from the contracts alone. */
  method StoreSession() {
    var store := new Store();
    assert MissingFieldNames(Body(Some("T"), None)) == ["content"];
    assert MissingFieldNames(Body(None, None)) == ["title", "content"];
    var missing := store.AddPost(Body(Some("T"), None));
    assert missing == Err(MissingFields(["content"]));
    var none := store.AddPost(Body(None, None));
    assert none == Err(MissingFields(["title", "content"]));
    assert store.posts == SeedPosts() && store.nextId == 3;

    var updated := store.UpdatePost(1, Body(None, Some("X")));
    assert updated == Ok(Post(1, "First post", "X"));

    assert store.posts == [Post(1, "First post", "X"), SeedPosts()[1]];
    assert FindIndex(store.posts, 2) == Some(1);
    var deleted := store.DeletePost(2);
    assert deleted == Ok(());
    assert store.posts == [Post(1, "First post", "X")];
    var again := store.DeletePost(2);
    assert again == Err(NotFound);
    var update2 := store.UpdatePost(2, Body(Some("T"), None));
    assert update2 == Err(NotFound);

    var created := store.AddPost(Body(Some("T"), Some("C")));
    assert created == Ok(Post(3, "T", "C"));
    var twin := store.AddPost(Body(Some("T"), Some("C")));
    assert twin == Ok(Post(4, "T", "C"));
    assert store.posts == [Post(1, "First post", "X"), Post(3, "T", "C"), Post(4, "T", "C")];
  }
}
