/**
 * The listing operation: validation of the `sort` and `direction` query
 * parameters, then either the store's records as they are or a stable sort
 * of them on the lowercased field.
 */
module Listing {
  import opened Wrappers
  import opened Posts
  import opened Sorting

  /** The `sort` parameter is absent, "title" or "content". */
  predicate ValidSortParam(sort: Option<string>) {
    sort == None || sort == Some("title") || sort == Some("content")
  }

  /** The `direction` parameter is absent (meaning "asc"), "asc" or "desc". */
  predicate ValidDirectionParam(direction: Option<string>) {
    direction.GetOr("asc") == "asc" || direction.GetOr("asc") == "desc"
  }

  function FieldNamed(name: string): Field
    requires name == "title" || name == "content"
  {
    if name == "title" then TitleField else ContentField
  }

  function DirectionNamed(direction: Option<string>): Direction
    requires ValidDirectionParam(direction)
  {
    if direction.GetOr("asc") == "asc" then Asc else Desc
  }

  /**
   * The result of a listing request over the store's records `posts`. The
   * sort field is checked before the direction; a rejected request returns
   * the error alone, and no request changes the store, which is passed by
   * value.
   */
  function ListPosts(posts: seq<Post>, sort: Option<string>, direction: Option<string>)
    : (r: Result<seq<Post>, Error>)
    ensures r.Err? <==> !ValidSortParam(sort) || !ValidDirectionParam(direction)
    ensures !ValidSortParam(sort) ==> r == Err(InvalidParameter(SortParam))
    ensures ValidSortParam(sort) && !ValidDirectionParam(direction) ==>
      r == Err(InvalidParameter(DirectionParam))
    ensures r.Ok? && sort.None? ==> r.value == posts
    ensures r.Ok? && sort.Some? ==>
      var f, d := FieldNamed(sort.value), DirectionNamed(direction);
      multiset(r.value) == multiset(posts) && Ordered(r.value, f, d) && SameTies(r.value, posts, f)
  {
    if !ValidSortParam(sort) then Err(InvalidParameter(SortParam))
    else if !ValidDirectionParam(direction) then Err(InvalidParameter(DirectionParam))
    else if sort.None? then Ok(posts)
    else
      var f, d := FieldNamed(sort.value), DirectionNamed(direction);
      SortPermutes(posts, f, d);
      SortOrdered(posts, f, d);
      SortStable(posts, f, d);
      Ok(SortBy(posts, f, d))
  }
}
