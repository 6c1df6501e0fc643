/** The server's record store: the five `/errors` routes over the `errors` array of the
    persisted document. Each route reads the array first and, when it changes it, writes it
    back last; the field `errors` is that persisted array. Fresh ids and the clock are
    parameters. */
module Server {
  import opened Records
  import opened Query

  const OK := 200
  const CREATED := 201
  const NO_CONTENT := 204
  const BAD_REQUEST := 400
  const NOT_FOUND := 404

  /** The `error` texts of the failure answers. */
  const INVALID_DATA := "Invalid error data"
  const ID_TAKEN := "Error with this ID already exists"
  const UNKNOWN_ID := "Error not found"

  /** What a route answers besides its status: nothing (`res.status(204).end()`), a stored
      record, or `{ error: text }`. */
  datatype Body = Empty | Stored(record: Record) | Failure(text: string)

  class ErrorStore {
    var errors: seq<Record>

    /** The store's invariant: every record has an id and a message, and ids are unique. */
    ghost predicate Valid()
      reads this
    {
      StoreInvariant(errors)
    }

    /** A new document holds `{ errors: [] }`. */
    constructor ()
      ensures errors == [] && Valid()
    {
      errors := [];
    }

    /** `GET /errors`: the whole collection, filtered and sorted; never writes. */
    method ListErrors(filter: string, sort: string, order: string) returns (status: int, body: seq<Record>)
      ensures status == OK
      ensures body == Apply(errors, filter, sort, order)
    {
      body := RunQuery(errors, filter, sort, order);
      status := OK;
    }

    /** `GET /errors/:id`: the first record with the id, or 404. */
    method GetError(id: string) returns (status: int, body: Body)
      ensures FindIndex(errors, id) == -1 ==> status == NOT_FOUND && body == Failure(UNKNOWN_ID)
      ensures FindIndex(errors, id) != -1 ==> status == OK && body == Stored(errors[FindIndex(errors, id)])
    {
      var index := FindIndex(errors, id);
      if index == -1 {
        status, body := NOT_FOUND, Failure(UNKNOWN_ID);
      } else {
        status, body := OK, Stored(errors[index]);
      }
    }

    /** `POST /errors`: validate the message, take the fresh id, refuse it if already used,
        stamp `createdAt` and append. `updatedAt` is not touched. */
    method CreateError(draft: Record, freshId: string, now: nat) returns (status: int, body: Body)
      modifies this
      ensures !HasMessage(draft) ==> status == BAD_REQUEST && body == Failure(INVALID_DATA) && errors == old(errors)
      ensures HasMessage(draft) && FindIndex(old(errors), freshId) != -1 ==>
                status == BAD_REQUEST && body == Failure(ID_TAKEN) && errors == old(errors)
      ensures HasMessage(draft) && FindIndex(old(errors), freshId) == -1 ==>
                && status == CREATED
                && body == Stored(draft.(id := Some(freshId), createdAt := Some(now)))
                && errors == old(errors) + [body.record]
      ensures old(Valid()) ==> Valid()
    {
      if !HasMessage(draft) {
        return BAD_REQUEST, Failure(INVALID_DATA);
      }
      var stored := draft.(id := Some(freshId));
      if FindIndex(errors, freshId) != -1 {
        return BAD_REQUEST, Failure(ID_TAKEN);
      }
      stored := stored.(createdAt := Some(now));
      AppendKeepsInvariant(errors, stored);
      errors := errors + [stored];
      status, body := CREATED, Stored(stored);
    }

    /** `PUT /errors/:id`: validate the message, find the record, replace it by the draft
        with the stored `id` and `createdAt` put back and `updatedAt` stamped. */
    method UpdateError(id: string, draft: Record, now: nat) returns (status: int, body: Body)
      modifies this
      ensures !HasMessage(draft) ==> status == BAD_REQUEST && body == Failure(INVALID_DATA) && errors == old(errors)
      ensures HasMessage(draft) && FindIndex(old(errors), id) == -1 ==>
                status == NOT_FOUND && body == Failure(UNKNOWN_ID) && errors == old(errors)
      ensures HasMessage(draft) && FindIndex(old(errors), id) != -1 ==>
                var i := FindIndex(old(errors), id);
                && status == OK
                && body == Stored(draft.(id := old(errors)[i].id, createdAt := old(errors)[i].createdAt,
                                       updatedAt := Some(now)))
                && errors == old(errors)[i := body.record]
      ensures old(Valid()) ==> Valid()
    {
      if !HasMessage(draft) {
        return BAD_REQUEST, Failure(INVALID_DATA);
      }
      var index := FindIndex(errors, id);
      if index == -1 {
        return NOT_FOUND, Failure(UNKNOWN_ID);
      }
      var updated := draft.(id := errors[index].id);
      updated := updated.(createdAt := errors[index].createdAt);
      updated := updated.(updatedAt := Some(now));
      ReplaceKeepsInvariant(errors, index, updated);
      errors := errors[index := updated];
      status, body := OK, Stored(updated);
    }

    /** `DELETE /errors/:id`: splice out the first record with the id, or 404. */
    method DeleteError(id: string) returns (status: int, body: Body)
      modifies this
      ensures FindIndex(old(errors), id) == -1 ==>
                status == NOT_FOUND && body == Failure(UNKNOWN_ID) && errors == old(errors)
      ensures FindIndex(old(errors), id) != -1 ==>
                var i := FindIndex(old(errors), id);
                status == NO_CONTENT && body == Empty && errors == old(errors)[..i] + old(errors)[i + 1..]
      ensures old(Valid()) ==> Valid()
      ensures old(Valid()) ==> FindIndex(errors, id) == -1
    {
      var index := FindIndex(errors, id);
      if index == -1 {
        return NOT_FOUND, Failure(UNKNOWN_ID);
      }
      RemoveKeepsInvariant(errors, index);
      if Valid() {
        DeletedIsGone(errors, id);
      }
      errors := errors[..index] + errors[index + 1..];
      status, body := NO_CONTENT, Empty;
    }
  }

  /** Appending a record with a valid message and an unused id keeps the invariant. */
  lemma AppendKeepsInvariant(s: seq<Record>, r: Record)
    requires r.id.Some? && HasMessage(r) && FindIndex(s, r.id.value) == -1
    ensures StoreInvariant(s) ==> StoreInvariant(s + [r])
  {
  }

  /** Replacing a record by one with the same id and a valid message keeps the invariant. */
  lemma ReplaceKeepsInvariant(s: seq<Record>, i: nat, r: Record)
    requires i < |s| && r.id == s[i].id && HasMessage(r)
    ensures StoreInvariant(s) ==> StoreInvariant(s[i := r])
  {
  }

  /** Removing one record keeps the invariant. */
  lemma RemoveKeepsInvariant(s: seq<Record>, i: nat)
    requires i < |s|
    ensures StoreInvariant(s) ==> StoreInvariant(s[..i] + s[i + 1..])
  {
    var t := s[..i] + s[i + 1..];
    assert forall k :: 0 <= k < |t| ==> t[k] == s[if k < i then k else k + 1];
  }

  /** After a successful `POST`, `GET` of the fresh id finds the stored record last. */
  lemma CreatedIsFound(s: seq<Record>, r: Record, freshId: string)
    requires FindIndex(s, freshId) == -1 && r.id == Some(freshId)
    ensures FindIndex(s + [r], freshId) == |s|
  {
    var t := s + [r];
    assert t[|s|].id == Some(freshId);
    assert forall i :: 0 <= i < |s| ==> t[i] == s[i];
  }

  /** In a store with unique ids, after `DELETE` of a present id no record carries it any
      more, so both `GET` and a second `DELETE` of it answer 404. */
  lemma DeletedIsGone(s: seq<Record>, id: string)
    requires UniqueIds(s) && FindIndex(s, id) != -1
    ensures FindIndex(s[..FindIndex(s, id)] + s[FindIndex(s, id) + 1..], id) == -1
  {
    var i := FindIndex(s, id);
    var t := s[..i] + s[i + 1..];
    forall k | 0 <= k < |t|
      ensures t[k].id != Some(id)
    {
      if k < i {
        assert t[k] == s[k];
      } else {
        assert t[k] == s[k + 1];
        assert s[i].id.Some? && s[i].id != s[k + 1].id;
      }
    }
  }

  /** The life of one record through the routes: it is created with the fresh id and the
      creation time, found, updated with both kept and `updatedAt` set, deleted, and then
      neither found nor deletable: the last `DELETE` answers "Error not found". */
  method Lifecycle(draft: Record, edit: Record, freshId: string, t0: nat, t1: nat)
    returns (codes: seq<int>, created: Record, updated: Record, lastAnswer: Body)
    requires HasMessage(draft) && HasMessage(edit)
    ensures codes == [CREATED, OK, OK, NO_CONTENT, NOT_FOUND, NOT_FOUND]
    ensures created.id == Some(freshId) && created.createdAt == Some(t0) && created.updatedAt == draft.updatedAt
    ensures updated.id == Some(freshId) && updated.createdAt == Some(t0) && updated.updatedAt == Some(t1)
    ensures updated.message == edit.message
    ensures lastAnswer == Failure(UNKNOWN_ID)
  {
    var store := new ErrorStore();
    var c1, b1 := store.CreateError(draft, freshId, t0);
    created := b1.record;
    assert store.errors == [created];
    var c2, b2 := store.GetError(freshId);
    assert b2 == Stored(created);
    var c3, b3 := store.UpdateError(freshId, edit, t1);
    updated := b3.record;
    var c4, b4 := store.DeleteError(freshId);
    assert store.errors == [];
    var c5, b5 := store.GetError(freshId);
    var c6, b6 := store.DeleteError(freshId);
    codes := [c1, c2, c3, c4, c5, c6];
    lastAnswer := b6;
  }
}
