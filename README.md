# Blog posts API: a Dafny model of its request handlers

The service keeps blog posts in one `posts` table and exposes five HTTP
handlers over it (`app.py`): create a post, update a post, delete a post,
get one post by id, and list the posts with an optional case-insensitive
search term. Without the web framework and the database driver, what is left
is a small state machine. Its state is a table from integer ids to rows and
an auto-increment counter. Each handler either refuses its input with a
status code, changes the table in one step (insert, overwrite, remove), or
reads the table.

The project has four modules:

- `Posts` (`posts.dfy`): the values involved and the pure pieces of the
  handlers. These are request payloads, table rows, responses and status
  constants. They also cover the reads of the three required keys (where a
  missing key raises `KeyError`), the create and update guards, and the
  comma join of the tags, with Python's `split` as its inverse.
- `Search` (`search.dfy`): the listing filter. It has ASCII lower-casing, a
  model of SQL `LIKE` (`%`, `_` and backslash escapes), and the theorem that
  `LIKE '%term%'` is substring search when the term holds no wildcard.
- `Store` (`store.dfy`): class `PostStore`. Its fields are `posts` (a
  `map<nat, Post>`) and `nextId` (the auto-increment counter). Each handler
  is a method returning a `Response`: either `Reply(status, body)`, or
  `Crash(key)` for an escaping `KeyError`, which the framework answers with
  500. The mutating handlers state their whole new state and keep the
  invariant `Valid()`: every row is stored under its own id, and every id is
  below the counter.
- `Scenarios` (`scenarios.dfy`): sequences of requests, proved from the
  handlers' contracts alone. These are deleting twice, creating then
  getting, and updating twice.

In these places the code behaves in ways a reader may not expect; the model follows the code:

- Create with a missing `title`, `content` or `category` key does not
  answer 400. `data['title']` raises first, so the result is `Crash`. Only a
  present but falsy value (empty string or null) gets 400. When a key is
  missing and another value is empty, the crash wins, because Python builds
  the whole list before `all` looks at it.
- Update's guard only checks that some key is present. The statement after
  it then subscripts all three keys, so a partial update such as
  `{"title": "x"}` crashes on `content` instead of touching the row. The only
  field that an update silently overwrites with a default is `tags`: it
  becomes `""` when the key is absent.
- Update reads the clock twice. The stored `updatedAt` (line 60) and the
  echoed one (line 75, with "Z" appended) come from two reads, so they are
  two parameters of `Update`.
- Delete answers 204 together with a JSON message body. The model keeps this
  as it is.

## Model

| member | source | states |
|---|---|---|
| `Posts.RequiredFields` | app.py:21 | Reading `data['title']`, `data['content']`, `data['category']` in that order yields the three values exactly when all three keys are present. Otherwise it reports the first missing key: `title` iff title is absent, `content` iff title is present and content absent, `category` iff only category is absent. Lines 56-58 read the same keys the same way. |
| `Posts.CreateGuard` | app.py:20-22 | Create proceeds iff all three fields are present and truthy. It answers 400 with the "required" message iff all three are present and some is falsy. It crashes iff some key is absent, naming the first absent key in the order title, content, category. |
| `Posts.UpdateGuard` | app.py:49-52 | Update passes its guard iff at least one of the three keys is present, whatever its value. Otherwise it answers 400 with the "at least one" message. |
| `Posts.EmptyTitleGuards` | app.py:51 | A payload with an empty title and both other keys present passes the update guard but is refused with 400 by the create guard. |
| `Posts.SplitJoin` | app.py:32 | Joining a non-empty tag list with `,` and splitting the result at `,` gives the list back, provided no tag contains a comma. |
| `Posts.JoinIsLossy` | app.py:32 | The stored tag string does not determine the list. `[]` and `[""]` both store `""`, and `["a,b"]` and `["a","b"]` store the same string. |
| `Search.Lower` | app.py:106 | Lower-casing keeps the length and leaves no upper-case ASCII letter. Each upper-case letter becomes the letter at the same place in `abcdefghijklmnopqrstuvwxyz`; every other character is unchanged. |
| `Search.LowerEqualIffEqualIgnoringCase` | app.py:106-111 | Two strings lower to the same string iff they have the same length and differ at each position only in ASCII letter case. So the term and the columns are compared case-insensitively, and nothing more is identified. |
| `Search.LikeIsSubstring` | app.py:112-113 | For a term without `%`, `_` or `\`, `s LIKE '%term%'` holds iff the term occurs in `s` as a contiguous piece. |
| `Search.SelectedIffContains` | app.py:106-113 | For a term without wildcards, the listing keeps a row iff the term is empty, or the lower-cased term is a substring of the lower-cased title, content or category. A NULL column never matches. |
| `Search.NoTermSelectsAll` | app.py:106-115 | With `term` absent or empty, every row is listed. |
| `Search.UnderscoreSelectsNonEmptyTitle` | app.py:112 | The term is put into the pattern unescaped, so the term `_` selects every row whose title is not empty. |
| `Store.PostStore.Create` | app.py:18-45 | When the guard refuses or crashes, the method returns that response and changes neither the table nor the counter. Otherwise it returns 201 with the new row. The row sits under the old counter value, which was not yet a key. It holds the three fields, the tags joined by `,` (`""` when absent) and no `updatedAt`. The table is the old one plus exactly that row, the counter grows by one, and existing rows are unchanged. |
| `Store.PostStore.Update` | app.py:47-76 | The guard's 400 and a missing key's crash leave the table unchanged. An absent id gives 404 and leaves the table unchanged. Otherwise only that row is replaced: the three fields, the joined tags and `updatedAt` from the first clock read. The reply is 200 echoing the id, the input fields, the input tag list and the second clock read followed by "Z". The counter never changes. |
| `Store.PostStore.Delete` | app.py:78-87 | A present id is removed (and only it), with 204 and the "deleted" message. An absent id gives 404 and leaves the table unchanged. The counter never changes. |
| `Store.PostStore.Get` | app.py:89-101 | 200 with the row iff the id is in the table, and that row carries the id. Otherwise 404 with "Post not found". The method cannot change the table. |
| `Store.PostStore.AllPosts` | app.py:103-120 | Always 200 with a list. A row is in the list iff it is in the table and `Selected` keeps it for the term. Rows come in strictly ascending id order, so none appears twice. The method cannot change the table. |
| `Scenarios.DeleteTwice` | app.py:79-101 | After a delete of an id, a second delete of it and a get of it both answer 404. The first answers 204 iff the id was present. |
| `Scenarios.CreateThenGet` | app.py:24-45 | After a valid create, a get of the new id returns 200 with the same row. Its stored tags split back into the submitted tags when there is at least one and none holds a comma. No tags are stored as `""`. |
| `Scenarios.UpdateTwice` | app.py:54-76 | Repeating a successful update succeeds again and leaves the table as one update would, with only `updatedAt` taken from the second call. Repeating a 404 update gives 404 again with the table unchanged. |

## Left out

- Flask routing, `request.json` parsing, `jsonify` and `app.run` are not modelled. The `<int:id>` path converter admits only non-negative integers, so ids are `nat`.
- Configuration loading, the MySQL connection, cursors and `commit` are not modelled. The table is an in-memory map. Storage faults (lost connection, constraint violation) are not modelled either; they would escape as a 500.
- `datetime.now().isoformat()` is not modelled. Each clock read is an opaque string parameter of `Update`.
- Column introspection through `cur.description` and `dict(zip(...))` is not modelled. A row is the fixed record `Post` with the columns id, title, content, category, tags and updatedAt.
- The table schema is not part of this repository. The model assumes that `updatedAt` is NULL after an insert, and that the auto-increment counter starts at 1, steps by 1 and never reuses an id.
- Request field values are a JSON string or null. Numbers, booleans, lists and objects in `title`, `content` or `category` are not modelled, and neither is a request body that is not a JSON object.
- `tags` is a list of strings or absent. Other JSON values are not modelled. `','.join` accepts any iterable of strings: a string `tags` is joined character by character (`"ab"` is stored as `"a,b"`, and update echoes `"ab"`), and an object is joined by its keys. A null, a number, a boolean, or a non-string element makes it raise `TypeError`.
- Lower-casing covers ASCII letters only. Python's Unicode `str.lower` and MySQL's collation-dependent `LOWER` and comparison are not modelled.
- Store.PostStore.Update: treats a matched row as affected. MySQL's `rowcount` counts changed rows, which differs only when the new row equals the old one, `updatedAt` included.
- Store.PostStore.AllPosts: lists rows in ascending id order. The query has no `ORDER BY`, so the database promises no order; the model fixes the primary-key scan order.
- Concurrent requests and interleaved writes are not modelled; the handlers do not coordinate them.
