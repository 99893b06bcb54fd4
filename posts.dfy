/** The post record, the request body of create and update, and the seed data. */
module Posts {
  import opened Wrappers
  import opened Text

  /** One post, as the dictionary `{id, title, content}` held in the store. */
  datatype Post = Post(id: int, title: string, content: string)

  /**
   * A JSON request body for create or update: each field is `Some` exactly
   * when its key is present in the body.
   */
  datatype Body = Body(title: Option<string>, content: Option<string>)

  /** The two record fields a listing can be sorted on. */
  datatype Field = TitleField | ContentField

  /**
   * The lowercased value of field `f` of `p`, the sort key of a listing. It
   * holds no upper-case letter and is its own lowercasing, so the letter
   * case of the field cannot affect the sort.
   */
  function Key(f: Field, p: Post): (k: string)
    ensures forall i | 0 <= i < |k| :: !('A' <= k[i] <= 'Z')
    ensures Lower(k) == k
  {
    match f
    case TitleField => Lower(p.title)
    case ContentField => Lower(p.content)
  }

  /** The query parameter a rejected listing request names. */
  datatype Param = SortParam | DirectionParam

  /** The error outcomes of the store's operations. */
  datatype Error =
    | InvalidParameter(param: Param)
    | MissingFields(fields: seq<string>)
    | NotFound

  /** The records the store holds at start-up. */
  function SeedPosts(): seq<Post> {
    [ Post(1, "First post", "This is the first post."),
      Post(2, "Second post", "This is the second post.") ]
  }

  /** The counter's value at start-up: the id the first created post receives. */
  const SeedNextId := 3
}
