/** Request sequences against one store, stated from the handlers' contracts
    alone: what a client can rely on across several calls. */
module Scenarios {
  import opened Posts
  import opened Store

  /** Deleting the same id twice: the second delete, and a get after it, both
      answer 404. */
  method DeleteTwice(store: PostStore, id: nat) returns (first: Response, second: Response, after: Response)
    requires store.Valid()
    modifies store
    ensures store.Valid()
    ensures first.Reply? && (first.status == NO_CONTENT <==> id in old(store.posts))
    ensures second == Reply(NOT_FOUND, Error(POST_NOT_FOUND))
    ensures after == Reply(NOT_FOUND, Error(POST_NOT_FOUND))
    ensures store.posts == old(store.posts) - {id}
  {
    first := store.Delete(id);
    second := store.Delete(id);
    after := store.Get(id);
  }

  /** A valid create followed by a get of the new id returns the same row.
      Splitting its stored tags at commas gives the submitted tags back when
      there is at least one and none holds a comma; no tags are stored as "". */
  method CreateThenGet(store: PostStore, data: Payload) returns (created: Response, fetched: Response)
    requires store.Valid()
    requires CreateGuard(data).None?
    modifies store
    ensures store.Valid()
    ensures created.Reply? && created.status == CREATED && created.body.Row?
    ensures created.body.post.id !in old(store.posts)
    ensures fetched == Reply(OK, created.body)
    ensures TagsOf(data) == [] ==> fetched.body.post.tags == ""
    ensures |TagsOf(data)| > 0 && (forall i :: 0 <= i < |TagsOf(data)| ==> TAG_SEPARATOR !in TagsOf(data)[i]) ==>
      Split(fetched.body.post.tags, TAG_SEPARATOR) == TagsOf(data)
  {
    created := store.Create(data);
    fetched := store.Get(created.body.post.id);
    var tags := TagsOf(data);
    if |tags| > 0 && forall i :: 0 <= i < |tags| ==> TAG_SEPARATOR !in tags[i] {
      SplitJoin(tags, TAG_SEPARATOR);
    }
  }

  /** Sending the same update twice: when the first succeeds the second does
      too, and the table ends as after one update, with only the second
      timestamp in `updatedAt`. When the first answers 404 so does the second. */
  method UpdateTwice(store: PostStore, id: nat, data: Payload,
                     storedAt1: string, echoedAt1: string, storedAt2: string, echoedAt2: string)
    returns (first: Response, second: Response)
    requires store.Valid()
    modifies store
    ensures store.Valid()
    ensures first.Reply? && first.status == OK ==>
      && RequiredFields(data).Fields? && id in old(store.posts)
      && second == Reply(OK, Echo(id, data.title.value, data.content.value, data.category.value,
                                  TagsOf(data), echoedAt2 + "Z"))
      && store.posts == old(store.posts)[id := Post(id, data.title.value, data.content.value,
                                                    data.category.value, Join(TagsOf(data), TAG_SEPARATOR),
                                                    Some(storedAt2))]
    ensures first.Reply? && first.status == NOT_FOUND ==> second == first && store.posts == old(store.posts)
  {
    first := store.Update(id, data, storedAt1, echoedAt1);
    second := store.Update(id, data, storedAt2, echoedAt2);
  }
}
