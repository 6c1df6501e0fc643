/** The client's access layer `ErrorApi`. In mode "server" every call goes over the network
    and is modelled only as delegated; in any other mode (the UI uses "demo") the call runs
    on the array kept in local storage, modelled as the field `local`. */
module Api {
  import opened Records
  import opened Query
  import Server

  /** What a call did: handed to the server, or answered locally with a value. */
  datatype Reply<T> = Delegated | Local(value: T)

  /** `errors.filter(e => e.id !== id)`: every record without that id, in order. */
  function RemoveAll(s: seq<Record>, id: string): (r: seq<Record>)
    ensures |r| <= |s|
  {
    if s == [] then []
    else (if s[0].id != Some(id) then [s[0]] else []) + RemoveAll(s[1..], id)
  }

  /** The local delete keeps exactly the records that do not carry the id. */
  lemma {:induction false} RemoveAllMembers(s: seq<Record>, id: string)
    ensures forall x :: x in RemoveAll(s, id) <==> x in s && x.id != Some(id)
  {
    if s != [] {
      RemoveAllMembers(s[1..], id);
      assert s == [s[0]] + s[1..];
    }
  }

  /** Deleting from a record followed by more records. */
  lemma RemoveAllCons(h: Record, rest: seq<Record>, id: string)
    ensures RemoveAll([h] + rest, id) == (if h.id != Some(id) then [h] else []) + RemoveAll(rest, id)
  {
    var s := [h] + rest;
    assert s[0] == h && s[1..] == rest;
  }

  /** The local delete keeps stored order: it distributes over concatenation. */
  lemma {:induction false} RemoveAllConcat(a: seq<Record>, b: seq<Record>, id: string)
    ensures RemoveAll(a + b, id) == RemoveAll(a, id) + RemoveAll(b, id)
  {
    if a == [] {
      assert a + b == b;
    } else {
      var h, t := a[0], a[1..];
      var head := if h.id != Some(id) then [h] else [];
      assert a == [h] + t;
      assert a + b == [h] + (t + b);
      RemoveAllCons(h, t + b, id);
      RemoveAllCons(h, t, id);
      RemoveAllConcat(t, b, id);
      assert head + (RemoveAll(t, id) + RemoveAll(b, id)) == (head + RemoveAll(t, id)) + RemoveAll(b, id);
    }
  }

  /** Deleting an id no record carries changes nothing. */
  lemma {:induction false} RemoveAllAbsent(s: seq<Record>, id: string)
    requires forall i :: 0 <= i < |s| ==> s[i].id != Some(id)
    ensures RemoveAll(s, id) == s
  {
    if s != [] {
      RemoveAllAbsent(s[1..], id);
      assert s == [s[0]] + s[1..];
    }
  }

  /** Local delete is idempotent. */
  lemma RemoveAllIdempotent(s: seq<Record>, id: string)
    ensures RemoveAll(RemoveAll(s, id), id) == RemoveAll(s, id)
  {
    var r := RemoveAll(s, id);
    RemoveAllMembers(s, id);
    assert forall i :: 0 <= i < |r| ==> r[i] in r;
    RemoveAllAbsent(r, id);
  }

  /** Filtering out the id of a sequence that carries it exactly once removes that one record. */
  lemma RemoveAllSingleHit(pre: seq<Record>, hit: Record, post: seq<Record>, id: string)
    requires forall k :: 0 <= k < |pre| ==> pre[k].id != Some(id)
    requires hit.id == Some(id)
    requires forall k :: 0 <= k < |post| ==> post[k].id != Some(id)
    ensures RemoveAll(pre + ([hit] + post), id) == pre + post
  {
    RemoveAllAbsent(pre, id);
    RemoveAllAbsent(post, id);
    RemoveAllConcat(pre, [hit] + post, id);
    RemoveAllCons(hit, post, id);
    assert [] + post == post;
  }

  /** On a store with unique ids, the server's splice of the first match and the local
      filter of every match leave the same records. */
  lemma SpliceIsRemoveAll(s: seq<Record>, id: string)
    requires UniqueIds(s) && FindIndex(s, id) != -1
    ensures var i := FindIndex(s, id); s[..i] + s[i + 1..] == RemoveAll(s, id)
  {
    var i := FindIndex(s, id);
    var pre, post := s[..i], s[i + 1..];
    assert s == pre + ([s[i]] + post);
    forall k | 0 <= k < |post|
      ensures post[k].id != Some(id)
    {
      assert post[k] == s[i + 1 + k];
    }
    RemoveAllSingleHit(pre, s[i], post, id);
  }

  class ErrorApi {
    var mode: string
    var local: seq<Record>

    /** `new ErrorApi(mode = 'server')`; `stored` is what local storage already holds. */
    constructor (stored: seq<Record>, mode: string := "server")
      ensures this.mode == mode && local == stored
    {
      this.mode := mode;
      local := stored;
    }

    /** `getErrors({sort, order, filter})`: locally, the same query as `GET /errors`. */
    method GetErrors(filter: string, sort: string, order: string) returns (r: Reply<seq<Record>>)
      ensures mode == "server" ==> r == Delegated
      ensures mode != "server" ==> r == Local(Apply(local, filter, sort, order))
    {
      if mode == "server" {
        return Delegated;
      }
      var errors := RunQuery(local, filter, sort, order);
      r := Local(errors);
    }

    /** `createError(data)`: locally, stamp the id and `createdAt` and append; no message
        validation and no id-collision check. */
    method CreateError(data: Record, freshId: string, now: nat) returns (r: Reply<Record>)
      modifies this
      ensures mode == old(mode)
      ensures mode == "server" ==> r == Delegated && local == old(local)
      ensures mode != "server" ==>
                && r == Local(data.(id := Some(freshId), createdAt := Some(now)))
                && local == old(local) + [r.value]
    {
      if mode == "server" {
        return Delegated;
      }
      var errors := local;
      var stored := data.(id := Some(freshId));
      stored := stored.(createdAt := Some(now));
      errors := errors + [stored];
      local := errors;
      r := Local(stored);
    }

    /** `deleteError(id)`: locally, drop every record with the id; never fails. */
    method DeleteError(id: string) returns (r: Reply<()>)
      modifies this
      ensures mode == old(mode)
      ensures mode == "server" ==> r == Delegated && local == old(local)
      ensures mode != "server" ==> r == Local(()) && local == RemoveAll(old(local), id)
    {
      if mode == "server" {
        return Delegated;
      }
      var errors := local;
      errors := RemoveAll(errors, id);
      local := errors;
      r := Local(());
    }

    /** `updateError(id, data)`: locally, replace the first record with the id by the draft
        with the id forced and `updatedAt` stamped (its `createdAt` is the draft's), or answer
        `null` without writing. */
    method UpdateError(id: string, data: Record, now: nat) returns (r: Reply<Option<Record>>)
      modifies this
      ensures mode == old(mode)
      ensures mode == "server" ==> r == Delegated && local == old(local)
      ensures mode != "server" && FindIndex(old(local), id) == -1 ==> r == Local(None) && local == old(local)
      ensures mode != "server" && FindIndex(old(local), id) != -1 ==>
                && r == Local(Some(data.(id := Some(id), updatedAt := Some(now))))
                && local == old(local)[FindIndex(old(local), id) := r.value.value]
    {
      if mode == "server" {
        return Delegated;
      }
      var errors := local;
      var idx := FindIndex(errors, id);
      if idx != -1 {
        var stored := data.(id := Some(id));
        stored := stored.(updatedAt := Some(now));
        errors := errors[idx := stored];
        local := errors;
        return Local(Some(stored));
      }
      r := Local(None);
    }

    /** `setMode(mode)`: only the mode changes; the local records stay as they are. */
    method SetMode(mode: string)
      modifies this
      ensures this.mode == mode && local == old(local)
    {
      this.mode := mode;
    }
  }

  /** Over the same records, a local `getErrors` answers what `GET /errors` answers. */
  method SameAnswerInBothModes(store: Server.ErrorStore, api: ErrorApi, filter: string, sort: string, order: string)
    returns (remote: seq<Record>, here: Reply<seq<Record>>)
    requires api.mode != "server" && api.local == store.errors
    ensures here == Local(remote)
  {
    var status;
    status, remote := store.ListErrors(filter, sort, order);
    here := api.GetErrors(filter, sort, order);
  }

  /** Two local creates that read the same clock store two records with one id: the local
      store does not keep ids unique. */
  method LocalIdsCanCollide(a: Record, b: Record, clock: string, now: nat) returns (stored: seq<Record>)
    ensures |stored| == 2 && stored[0].id == stored[1].id == Some(clock)
    ensures !UniqueIds(stored)
  {
    var api := new ErrorApi([], "demo");
    var r1 := api.CreateError(a, clock, now);
    var r2 := api.CreateError(b, clock, now);
    stored := api.local;
  }

  /** Switching modes neither copies nor merges: records created locally are still there,
      and only there, after a round trip to server mode. */
  method SwitchKeepsLocal(data: Record, freshId: string, now: nat) returns (before: seq<Record>, after: seq<Record>)
    ensures before == after && |after| == 1 && after[0].id == Some(freshId)
  {
    var api := new ErrorApi([], "demo");
    var r := api.CreateError(data, freshId, now);
    before := api.local;
    api.SetMode("server");
    var listed := api.GetErrors("", "", "");
    assert listed == Delegated;
    api.SetMode("demo");
    after := api.local;
  }
}
