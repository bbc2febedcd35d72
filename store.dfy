/** The five request handlers of app.py over the `posts` table. The table is a
    map from id to row; `nextId` is the table's auto-increment counter, which
    only grows, so a deleted id is never handed out again. */
module Store {
  import opened Posts
  import opened Search

  class PostStore {
    var posts: map<nat, Post>
    var nextId: nat

    /** Every row sits under its own id, and every id is below the counter. */
    ghost predicate Valid()
      reads this
    {
      && 1 <= nextId
      && forall id | id in posts :: 1 <= id < nextId && posts[id].id == id
    }

    constructor ()
      ensures Valid()
      ensures posts == map[] && nextId == 1
    {
      posts := map[];
      nextId := 1;
    }

    /** POST /posts. A missing required key raises; a falsy required field is
        refused with 400; otherwise one row is inserted under a fresh id, with
        the tags joined by commas and no `updatedAt`, and returned with 201. */
    method Create(data: Payload) returns (r: Response)
      requires Valid()
      modifies this
      ensures Valid()
      ensures CreateGuard(data).Some? ==>
        r == CreateGuard(data).value && posts == old(posts) && nextId == old(nextId)
      ensures CreateGuard(data).None? ==>
        && old(nextId) !in old(posts)
        && r == Reply(CREATED, Row(Post(old(nextId), data.title.value, data.content.value,
                                        data.category.value, Join(TagsOf(data), TAG_SEPARATOR), None)))
        && posts == old(posts)[old(nextId) := r.body.post]
        && nextId == old(nextId) + 1
      ensures forall id | id in old(posts) :: id in posts && posts[id] == old(posts)[id]
    {
      var guard := CreateGuard(data);
      if guard.Some? {
        return guard.value;
      }
      var newId := nextId;
      var row := Post(newId, data.title.value, data.content.value, data.category.value,
                      Join(TagsOf(data), TAG_SEPARATOR), None);
      posts := posts[newId := row];
      nextId := nextId + 1;
      r := Reply(CREATED, Row(posts[newId]));
    }

    /** PUT /posts/<id>. Refused with 400 when none of the three keys is
        present; raises when any of them is missing; 404 when no row has the
        id. Otherwise the row's title, content, category, joined tags and
        `updatedAt` are all overwritten and 200 echoes the request. The clock
        is read twice: `storedAt` goes into the table, `echoedAt` (with a "Z"
        appended) into the reply. */
    method Update(id: nat, data: Payload, storedAt: string, echoedAt: string) returns (r: Response)
      requires Valid()
      modifies this
      ensures Valid()
      ensures nextId == old(nextId)
      ensures UpdateGuard(data).Some? ==> r == UpdateGuard(data).value && posts == old(posts)
      ensures UpdateGuard(data).None? && RequiredFields(data).KeyMissing? ==>
        r == Crash(RequiredFields(data).key) && posts == old(posts)
      ensures RequiredFields(data).Fields? && id !in old(posts) ==>
        r == Reply(NOT_FOUND, Error(POST_NOT_FOUND)) && posts == old(posts)
      ensures RequiredFields(data).Fields? && id in old(posts) ==>
        && posts == old(posts)[id := Post(id, data.title.value, data.content.value, data.category.value,
                                          Join(TagsOf(data), TAG_SEPARATOR), Some(storedAt))]
        && r == Reply(OK, Echo(id, data.title.value, data.content.value, data.category.value,
                               TagsOf(data), echoedAt + "Z"))
    {
      var guard := UpdateGuard(data);
      if guard.Some? {
        return guard.value;
      }
      var fields := RequiredFields(data);
      if fields.KeyMissing? {
        return Crash(fields.key);
      }
      var matched := id in posts;
      if matched {
        posts := posts[id := Post(id, fields.title, fields.content, fields.category,
                                  Join(TagsOf(data), TAG_SEPARATOR), Some(storedAt))];
      }
      if !matched {
        return Reply(NOT_FOUND, Error(POST_NOT_FOUND));
      }
      r := Reply(OK, Echo(id, fields.title, fields.content, fields.category, TagsOf(data), echoedAt + "Z"));
    }

    /** DELETE /posts/<id>: removes the row and answers 204 with a message, or
        answers 404 and changes nothing when no row has the id. */
    method Delete(id: nat) returns (r: Response)
      requires Valid()
      modifies this
      ensures Valid()
      ensures nextId == old(nextId)
      ensures id in old(posts) ==>
        posts == old(posts) - {id} && r == Reply(NO_CONTENT, Message(POST_DELETED))
      ensures id !in old(posts) ==>
        posts == old(posts) && r == Reply(NOT_FOUND, Error(POST_NOT_FOUND))
    {
      var affected := id in posts;
      posts := posts - {id};
      if affected {
        r := Reply(NO_CONTENT, Message(POST_DELETED));
      } else {
        r := Reply(NOT_FOUND, Error(POST_NOT_FOUND));
      }
    }

    /** GET /posts/<id>: the row with 200, or 404. Reads only. */
    method Get(id: nat) returns (r: Response)
      requires Valid()
      ensures r.Reply?
      ensures r.status == OK <==> id in posts
      ensures r.status == OK ==> r.body == Row(posts[id]) && r.body.post.id == id
      ensures r.status != OK ==> r == Reply(NOT_FOUND, Error(POST_NOT_FOUND))
    {
      if id in posts {
        r := Reply(OK, Row(posts[id]));
      } else {
        r := Reply(NOT_FOUND, Error(POST_NOT_FOUND));
      }
    }

    /** GET /posts?term=...: always 200, listing exactly the rows `Selected`
        keeps for the term, once each, in ascending id order. Reads only. */
    method AllPosts(term: Option<string>) returns (r: Response)
      requires Valid()
      ensures r.Reply? && r.status == OK && r.body.Rows?
      ensures forall p :: p in r.body.posts <==> p in posts.Values && Selected(p, term)
      ensures forall i, j :: 0 <= i < j < |r.body.posts| ==> r.body.posts[i].id < r.body.posts[j].id
    {
      var rows: seq<Post> := [];
      var id := 1;
      while id < nextId
        invariant 1 <= id <= nextId
        invariant forall p :: p in rows <==> p in posts.Values && p.id < id && Selected(p, term)
        invariant forall i :: 0 <= i < |rows| ==> rows[i].id < id
        invariant forall i, j :: 0 <= i < j < |rows| ==> rows[i].id < rows[j].id
      {
        if id in posts && Selected(posts[id], term) {
          rows := rows + [posts[id]];
        }
        id := id + 1;
      }
      r := Reply(OK, Rows(rows));
    }
  }
}
