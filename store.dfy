/**
 * The process-wide post store: the ordered list of records and the id
 * counter, with the create, update and delete operations that change them.
 */
module PostStore {
  import opened Wrappers
  import opened Posts

  /** Ids increase strictly along the store's order. */
  predicate IdsIncreasing(posts: seq<Post>) {
    forall i, j :: 0 <= i < j < |posts| ==> posts[i].id < posts[j].id
  }

  /** No two records share an id. */
  predicate IdsUnique(posts: seq<Post>) {
    forall i, j :: 0 <= i < |posts| && 0 <= j < |posts| && i != j ==> posts[i].id != posts[j].id
  }

  /** Every id is below the counter `nextId`, so the counter never hands out an id in use or used before. */
  predicate IdsBelow(posts: seq<Post>, nextId: int) {
    forall i :: 0 <= i < |posts| ==> posts[i].id < nextId
  }

  predicate StoreInvariant(posts: seq<Post>, nextId: int) {
    IdsIncreasing(posts) && IdsBelow(posts, nextId)
  }

  /** The position of the first record with id `id`, scanning in store order. */
  function FindIndex(posts: seq<Post>, id: int): (r: Option<nat>)
    ensures r.Some? ==> r.value < |posts| && posts[r.value].id == id
    ensures r.Some? ==> forall j :: 0 <= j < r.value ==> posts[j].id != id
    ensures r.None? ==> forall j :: 0 <= j < |posts| ==> posts[j].id != id
  {
    if posts == [] then None
    else if posts[0].id == id then Some(0)
    else
      match FindIndex(posts[1..], id)
      case None => None
      case Some(k) => Some(k + 1)
  }

  /** The names of the required fields absent from a create request, in the order title, content. */
  function MissingFieldNames(body: Body): (r: seq<string>)
    ensures "title" in r <==> body.title.None?
    ensures "content" in r <==> body.content.None?
    ensures forall n | n in r :: n == "title" || n == "content"
    ensures |r| <= 2 && (|r| == 2 ==> r == ["title", "content"])
  {
    (if body.title.None? then ["title"] else []) + (if body.content.None? then ["content"] else [])
  }

  /**
   * `p` with each field the body supplies replaced and every other field
   * kept. The id never changes, and a body with no fields leaves the
   * record as it was.
   */
  function Updated(p: Post, body: Body): (r: Post)
    ensures r.id == p.id
    ensures body == Body(None, None) ==> r == p
  {
    Post(p.id, body.title.GetOr(p.title), body.content.GetOr(p.content))
  }

  /** Sending the same update twice is the same as sending it once. */
  lemma UpdatedIdempotent(p: Post, body: Body)
    ensures Updated(Updated(p, body), body) == Updated(p, body)
  {
  }

  /** `posts` without its record at position `i`. */
  function RemoveAt(posts: seq<Post>, i: nat): (r: seq<Post>)
    requires i < |posts|
    ensures |r| == |posts| - 1
    ensures forall j :: 0 <= j < i ==> r[j] == posts[j]
    ensures forall j :: i <= j < |r| ==> r[j] == posts[j + 1]
  {
    posts[..i] + posts[i + 1..]
  }

  /** The records of `posts` whose id is not `id`, in their order in `posts`. */
  function WithoutId(posts: seq<Post>, id: int): seq<Post> {
    if posts == [] then []
    else (if posts[0].id == id then [] else [posts[0]]) + WithoutId(posts[1..], id)
  }

  class Store {
    /** The records, in insertion order. */
    var posts: seq<Post>
    /** The id the next created record receives. */
    var nextId: int

    ghost predicate Valid()
      reads this
    {
      StoreInvariant(posts, nextId)
    }

    /** The store at start-up: the two seed records and the counter at 3. */
    constructor ()
      ensures Valid()
      ensures posts == SeedPosts() && nextId == SeedNextId
    {
      posts := SeedPosts();
      nextId := SeedNextId;
    }

    /**
     * Creates a record from `body`. With a field absent it reports the
     * missing names and changes nothing; otherwise the record gets the
     * counter's id, goes to the end of the store, and the counter goes up
     * by one.
     */
    method AddPost(body: Body) returns (r: Result<Post, Error>)
      requires Valid()
      modifies this
      ensures Valid()
      ensures MissingFieldNames(body) != [] ==>
        r == Err(MissingFields(MissingFieldNames(body))) && posts == old(posts) && nextId == old(nextId)
      ensures MissingFieldNames(body) == [] ==>
        r == Ok(Post(old(nextId), body.title.value, body.content.value)) &&
        posts == old(posts) + [r.value] && nextId == old(nextId) + 1
    {
      if body.title.None? || body.content.None? {
        r := Err(MissingFields(MissingFieldNames(body)));
        return;
      }
      var post := Post(nextId, body.title.value, body.content.value);
      AppendKeepsInvariant(posts, nextId, post.title, post.content);
      posts := posts + [post];
      nextId := nextId + 1;
      r := Ok(post);
    }

    /**
     * Updates the first record with id `id` in place, replacing only the
     * fields `body` supplies, and returns the whole updated record; with no
     * such record it reports NotFound and changes nothing.
     */
    method UpdatePost(id: int, body: Body) returns (r: Result<Post, Error>)
      requires Valid()
      modifies this
      ensures Valid()
      ensures nextId == old(nextId)
      ensures FindIndex(old(posts), id).None? ==> r == Err(NotFound) && posts == old(posts)
      ensures FindIndex(old(posts), id).Some? ==>
        var i := FindIndex(old(posts), id).value;
        posts == old(posts)[i := Updated(old(posts)[i], body)] && r == Ok(posts[i])
    {
      var i := 0;
      while i < |posts|
        invariant 0 <= i <= |posts|
        invariant forall j :: 0 <= j < i ==> posts[j].id != id
      {
        if posts[i].id == id {
          UpdateKeepsInvariant(posts, nextId, i, body);
          posts := posts[i := Updated(posts[i], body)];
          r := Ok(posts[i]);
          return;
        }
        i := i + 1;
      }
      r := Err(NotFound);
    }

    /**
     * Removes the first record with id `id`, keeping the others in order;
     * with no such record it reports NotFound and changes nothing. The
     * counter is never lowered.
     */
    method DeletePost(id: int) returns (r: Result<(), Error>)
      requires Valid()
      modifies this
      ensures Valid()
      ensures nextId == old(nextId)
      ensures FindIndex(old(posts), id).None? ==> r == Err(NotFound) && posts == old(posts)
      ensures FindIndex(old(posts), id).Some? ==>
        r == Ok(()) && posts == RemoveAt(old(posts), FindIndex(old(posts), id).value)
    {
      var i := 0;
      while i < |posts|
        invariant 0 <= i <= |posts|
        invariant forall j :: 0 <= j < i ==> posts[j].id != id
      {
        if posts[i].id == id {
          RemoveKeepsInvariant(posts, nextId, i);
          posts := RemoveAt(posts, i);
          r := Ok(());
          return;
        }
        i := i + 1;
      }
      r := Err(NotFound);
    }
  }

  // Invariant preservation

  /** Strictly increasing ids are unique. */
  lemma IncreasingIdsUnique(posts: seq<Post>)
    requires IdsIncreasing(posts)
    ensures IdsUnique(posts)
  {
  }

  lemma SeedSatisfiesInvariant()
    ensures StoreInvariant(SeedPosts(), SeedNextId)
  {
  }

  /** A create appends a record with the counter's id and bumps the counter: the invariant survives, and the new id was unused. */
  lemma AppendKeepsInvariant(posts: seq<Post>, nextId: int, title: string, content: string)
    requires StoreInvariant(posts, nextId)
    ensures FindIndex(posts, nextId).None?
    ensures StoreInvariant(posts + [Post(nextId, title, content)], nextId + 1)
  {
  }

  /** An update keeps every id, so it keeps the invariant. */
  lemma UpdateKeepsInvariant(posts: seq<Post>, nextId: int, i: nat, body: Body)
    requires StoreInvariant(posts, nextId) && i < |posts|
    ensures StoreInvariant(posts[i := Updated(posts[i], body)], nextId)
  {
  }

  /** Removing a record keeps the invariant. */
  lemma RemoveKeepsInvariant(posts: seq<Post>, nextId: int, i: nat)
    requires StoreInvariant(posts, nextId) && i < |posts|
    ensures StoreInvariant(RemoveAt(posts, i), nextId)
  {
    var r := RemoveAt(posts, i);
    forall a, b | 0 <= a < b < |r| ensures r[a].id < r[b].id {
      var a', b' := if a < i then a else a + 1, if b < i then b else b + 1;
      assert r[a] == posts[a'] && r[b] == posts[b'];
    }
  }

  // Delete

  /** When ids are unique, deleting by position removes every record with that id and no other. */
  lemma {:induction false} RemoveIsWithoutId(posts: seq<Post>, id: int)
    requires IdsUnique(posts)
    requires FindIndex(posts, id).Some?
    ensures RemoveAt(posts, FindIndex(posts, id).value) == WithoutId(posts, id)
  {
    var tail := posts[1..];
    if posts[0].id == id {
      forall j | 0 <= j < |tail| ensures tail[j].id != id {
        assert tail[j] == posts[j + 1];
      }
      NoIdWithoutId(tail, id);
      assert RemoveAt(posts, 0) == tail;
    } else {
      assert IdsUnique(tail) by {
        forall i, j | 0 <= i < |tail| && 0 <= j < |tail| && i != j ensures tail[i].id != tail[j].id {
          assert tail[i] == posts[i + 1] && tail[j] == posts[j + 1];
        }
      }
      RemoveIsWithoutId(tail, id);
      var k := FindIndex(tail, id).value;
      assert RemoveAt(posts, k + 1) == [posts[0]] + RemoveAt(tail, k);
    }
  }

  /** A sequence without the id is left alone by `WithoutId`. */
  lemma {:induction false} NoIdWithoutId(posts: seq<Post>, id: int)
    requires forall j :: 0 <= j < |posts| ==> posts[j].id != id
    ensures WithoutId(posts, id) == posts
  {
    if posts != [] {
      NoIdWithoutId(posts[1..], id);
    }
  }

  /** After a delete the id is gone: a later update or delete of it reports NotFound. */
  lemma DeletedIdNotFound(posts: seq<Post>, nextId: int, id: int)
    requires StoreInvariant(posts, nextId)
    requires FindIndex(posts, id).Some?
    ensures FindIndex(RemoveAt(posts, FindIndex(posts, id).value), id).None?
  {
  }

  /** Ids are never reused: a create after a delete gives the new record an id other than the deleted one. */
  lemma DeletedIdNeverReused(posts: seq<Post>, nextId: int, id: int, title: string, content: string)
    requires StoreInvariant(posts, nextId)
    requires FindIndex(posts, id).Some?
    ensures var after := RemoveAt(posts, FindIndex(posts, id).value) + [Post(nextId, title, content)];
      FindIndex(after, id).None?
  {
  }
}
