/** The values the blog posts service exchanges (requests, table rows,
    responses) and the pure pieces of its handlers in app.py: the required-field
    reads, the validation guards of create and update, and the tag join. */
module Posts {

  datatype Option<T> = None | Some(value: T)

  /** A request field as it is bound into a text column: JSON null (stored as
      SQL NULL) or a JSON string. */
  datatype Value = Null | Str(s: string)

  /** Python truthiness of a field value: null and the empty string are falsy. */
  predicate Truthy(v: Value)
  {
    v.Str? && v.s != ""
  }

  /** The JSON object of a POST or PUT request. `None` stands for a key that is
      absent from the object; keys other than these four are never read. */
  datatype Payload = Payload(
    title: Option<Value>,
    content: Option<Value>,
    category: Option<Value>,
    tags: Option<seq<string>>)

  /** One row of the `posts` table, as `SELECT *` returns it. `updatedAt` is
      NULL until the row is first updated. */
  datatype Post = Post(
    id: nat,
    title: Value,
    content: Value,
    category: Value,
    tags: string,
    updatedAt: Option<string>)

  /** The JSON document a handler sends back. */
  datatype Body =
    | Row(post: Post)
    | Rows(posts: seq<Post>)
    | Echo(id: nat, title: Value, content: Value, category: Value, tags: seq<string>, updatedAt: string)
    | Message(text: string)
    | Error(text: string)

  /** What a handler produces: a JSON reply with its HTTP status, or a KeyError
      that escapes the handler (the web framework answers it with a 500 page),
      naming the key that was missing. */
  datatype Response = Reply(status: nat, body: Body) | Crash(missingKey: string)

  const OK: nat := 200
  const CREATED: nat := 201
  const NO_CONTENT: nat := 204
  const BAD_REQUEST: nat := 400
  const NOT_FOUND: nat := 404

  const CREATE_REQUIRED := "Title, content, and category are required"
  const UPDATE_REQUIRED := "At least one of title, content, and category is required"
  const POST_NOT_FOUND := "Post not found"
  const POST_DELETED := "Post deleted successfully"

  /** The separator the tags list is joined with before it is stored. */
  const TAG_SEPARATOR: char := ','

  predicate Given(field: Option<Value>)
  {
    field.Some?
  }

  predicate GivenAndTruthy(field: Option<Value>)
  {
    field.Some? && Truthy(field.value)
  }

  /** The outcome of reading `data['title']`, `data['content']` and
      `data['category']` one after the other: the three values, or the first
      key whose subscript raises KeyError. */
  datatype Fields = Fields(title: Value, content: Value, category: Value) | KeyMissing(key: string)

  function RequiredFields(data: Payload): (r: Fields)
    ensures r.Fields? <==> Given(data.title) && Given(data.content) && Given(data.category)
    ensures r.Fields? ==>
      r.title == data.title.value && r.content == data.content.value && r.category == data.category.value
    ensures r == KeyMissing("title") <==> !Given(data.title)
    ensures r == KeyMissing("content") <==> Given(data.title) && !Given(data.content)
    ensures r == KeyMissing("category") <==> Given(data.title) && Given(data.content) && !Given(data.category)
  {
    if data.title.None? then KeyMissing("title")
    else if data.content.None? then KeyMissing("content")
    else if data.category.None? then KeyMissing("category")
    else Fields(data.title.value, data.content.value, data.category.value)
  }

  /** Python's `all` over a list of field values. */
  predicate All(values: seq<Value>)
  {
    forall i :: 0 <= i < |values| ==> Truthy(values[i])
  }

  /** The early exits of the create handler; `None` lets the insert go ahead.
      A missing key raises before truthiness is looked at, so it wins over an
      empty value. */
  function CreateGuard(data: Payload): (r: Option<Response>)
    ensures r.None? <==>
      GivenAndTruthy(data.title) && GivenAndTruthy(data.content) && GivenAndTruthy(data.category)
    ensures r == Some(Reply(BAD_REQUEST, Error(CREATE_REQUIRED))) <==>
      && Given(data.title) && Given(data.content) && Given(data.category)
      && !(Truthy(data.title.value) && Truthy(data.content.value) && Truthy(data.category.value))
    ensures r.Some? && r.value.Crash? <==>
      !(Given(data.title) && Given(data.content) && Given(data.category))
    ensures !(Given(data.title) && Given(data.content) && Given(data.category)) ==>
      r == Some(Crash(RequiredFields(data).key))
  {
    match RequiredFields(data)
    case KeyMissing(key) => Some(Crash(key))
    case Fields(title, content, category) =>
      var values := [title, content, category];
      assert values[0] == title && values[1] == content && values[2] == category;
      if All(values) then None else Some(Reply(BAD_REQUEST, Error(CREATE_REQUIRED)))
  }

  /** The early exit of the update handler: a presence check on the keys only,
      so a key whose value is empty or null passes it. */
  function UpdateGuard(data: Payload): (r: Option<Response>)
    ensures r.None? <==> Given(data.title) || Given(data.content) || Given(data.category)
    ensures r.Some? ==> r.value == Reply(BAD_REQUEST, Error(UPDATE_REQUIRED))
  {
    if Given(data.title) || Given(data.content) || Given(data.category) then None
    else Some(Reply(BAD_REQUEST, Error(UPDATE_REQUIRED)))
  }

  /** An empty title gets through the update guard although it is refused on
      create: the two handlers check different things. */
  lemma EmptyTitleGuards(content: Value, category: Value)
    ensures var data := Payload(Some(Str("")), Some(content), Some(category), None);
      && UpdateGuard(data).None?
      && CreateGuard(data) == Some(Reply(BAD_REQUEST, Error(CREATE_REQUIRED)))
  {
  }

  /** `data.get('tags', [])`: the tags list, or the empty list when absent. */
  function TagsOf(data: Payload): seq<string>
  {
    match data.tags
    case None => []
    case Some(tags) => tags
  }

  /** Python's `sep.join(parts)`. */
  function Join(parts: seq<string>, sep: char): string
  {
    if |parts| == 0 then ""
    else if |parts| == 1 then parts[0]
    else parts[0] + [sep] + Join(parts[1..], sep)
  }

  /** Python's `s.split(sep)`: the pieces between separators, at least one. */
  function Split(s: string, sep: char): (r: seq<string>)
    ensures |r| >= 1
    ensures sep !in s ==> r == [s]
    decreases |s|
  {
    if |s| == 0 then [""]
    else
      var rest := Split(s[1..], sep);
      if s[0] == sep then [""] + rest
      else
        assert sep !in s ==> sep !in s[1..] && [s[0]] + s[1..] == s;
        [[s[0]] + rest[0]] + rest[1..]
  }

  lemma {:induction false} SplitAfterPiece(piece: string, tail: string, sep: char)
    requires sep !in piece
    ensures Split(piece + [sep] + tail, sep) == [piece] + Split(tail, sep)
    decreases |piece|
  {
    var s := piece + [sep] + tail;
    if |piece| == 0 {
      assert s == [sep] + tail;
      assert s[1..] == tail;
    } else {
      assert s[1..] == piece[1..] + [sep] + tail;
      SplitAfterPiece(piece[1..], tail, sep);
      assert [piece[0]] + piece[1..] == piece;
    }
  }

  /** Joining tags and splitting the stored string again gives the tags back
      when the list is not empty and no tag holds the separator. */
  lemma {:induction false} SplitJoin(parts: seq<string>, sep: char)
    requires |parts| > 0
    requires forall i :: 0 <= i < |parts| ==> sep !in parts[i]
    ensures Split(Join(parts, sep), sep) == parts
  {
    if |parts| > 1 {
      SplitJoin(parts[1..], sep);
      SplitAfterPiece(parts[0], Join(parts[1..], sep), sep);
      assert [parts[0]] + parts[1..] == parts;
    }
  }

  /** The stored form is lossy: no tags and one empty tag store the same
      string, and so do a tag holding a comma and the two tags around it. */
  lemma JoinIsLossy()
    ensures Join([], TAG_SEPARATOR) == Join([""], TAG_SEPARATOR) == ""
    ensures Join(["a,b"], TAG_SEPARATOR) == Join(["a", "b"], TAG_SEPARATOR)
  {
  }
}
