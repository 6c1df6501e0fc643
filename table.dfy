/** The table's helpers: shortening ids for display, the client-side sort, and the
    per-column sort direction that each click on a column header flips. */
module Table {
  import opened Records
  import opened Query

  /** `formatId(id)`: ids longer than 10 characters become their first 8 characters,
      "-..." and their last 4. */
  function FormatId(id: string): (r: string)
    ensures |id| <= 10 ==> r == id
    ensures |id| > 10 ==> |r| == 16 && r[..8] == id[..8] && r[8..12] == "-..." && r[12..] == id[|id| - 4..]
  {
    if |id| > 10 then id[..8] + "-..." + id[|id| - 4..] else id
  }

  /** A displayed id is never longer than 16 characters, and formatting a displayed id
      again leaves it as it is. */
  lemma FormatIdIdempotent(id: string)
    ensures |FormatId(id)| <= 16
    ensures FormatId(FormatId(id)) == FormatId(id)
  {
    if |id| > 10 {
      var r := FormatId(id);
      assert r == r[..8] + r[8..12] + r[12..];
      assert r[|r| - 4..] == r[12..];
    }
  }

  /** Two long ids look the same in the table exactly when they share their first 8 and
      their last 4 characters, whatever lies between. */
  lemma FormatIdLongAlike(a: string, b: string)
    requires |a| > 10 && |b| > 10
    ensures FormatId(a) == FormatId(b) <==> a[..8] == b[..8] && a[|a| - 4..] == b[|b| - 4..]
  {
    var ra, rb := FormatId(a), FormatId(b);
    assert ra == ra[..8] + ra[8..12] + ra[12..];
    assert rb == rb[..8] + rb[8..12] + rb[12..];
  }

  /** So the display does not tell all ids apart: these two distinct ids show alike. */
  lemma FormatIdCollides()
    ensures "abcdefgh_X_wxyz" != "abcdefgh_Y_wxyz"
    ensures FormatId("abcdefgh_X_wxyz") == FormatId("abcdefgh_Y_wxyz")
  {
    FormatIdLongAlike("abcdefgh_X_wxyz", "abcdefgh_Y_wxyz");
    assert "abcdefgh_X_wxyz"[..8] == "abcdefgh_Y_wxyz"[..8];
    assert "abcdefgh_X_wxyz"[11..] == "abcdefgh_Y_wxyz"[11..];
  }

  /** The key `sortErrors` compares: the effective time for "timestamp", else the raw field. */
  function TableKey(field: string): Key {
    if field == "timestamp" then TimeKey() else FieldKey(field)
  }

  /** `sortErrors(errors, field, order = 'asc')`: sorts the array in place, ascending for
      "asc" and descending for any other order. The comparator never answers 0, so the order
      of equal keys is left open: only the permutation and the ordering are promised. */
  method SortErrors(a: array<Record>, field: string, order: string := "asc")
    modifies a
    ensures multiset(a[..]) == multiset(old(a[..]))
    ensures Sorted(a[..], TableKey(field), order != "asc")
  {
    ghost var before := a[..];
    SortInPlace(a, TableKey(field), order != "asc");
    SortByPerm(before, TableKey(field), order != "asc");
    SortBySorted(before, TableKey(field), order != "asc");
  }

  /** Sorting by time ascending puts the records with neither `timestamp` nor `createdAt`
      ahead of every record with a later time. */
  lemma UntimedFirst(s: seq<Record>, i: nat, j: nat)
    requires Sorted(s, TimeKey(), false)
    requires i < |s| && j < |s|
    requires s[i].timestamp.None? && s[i].createdAt.None?
    requires EffectiveTime(s[j]) > 0
    ensures i < j
  {
  }

  /** The next direction for a column after a click. */
  function Flip(order: string): (r: string)
    ensures r == "asc" || r == "desc"
    ensures r == "desc" <==> order == "asc"
  {
    if order == "asc" then "desc" else "asc"
  }

  /** The `sortOrder` object of the table page. */
  class SortOrder {
    var order: map<string, string>

    constructor ()
      ensures order == map["id" := "asc", "type" := "asc", "timestamp" := "asc"]
    {
      order := map["id" := "asc", "type" := "asc", "timestamp" := "asc"];
    }

    /** `handleSort(field)`: answer the direction this click sorts with, then flip that column
        only. A column with no entry passes `undefined`, which both `sortErrors` (default
        `order = 'asc'`) and the server (anything but "desc") sort ascending; the flip then
        stores "asc", since `undefined === 'asc'` is false. */
    method HandleSort(field: string) returns (used: string)
      modifies this
      ensures used == if field in old(order) then old(order)[field] else "asc"
      ensures order == old(order)[field := if field in old(order) then Flip(old(order)[field]) else "asc"]
    {
      if field in order {
        used := order[field];
        order := order[field := Flip(used)];
      } else {
        used := "asc";
        order := order[field := "asc"];
      }
    }
  }

  /** Successive clicks on one column sort ascending, then descending, then ascending
      again; the other columns keep their direction. */
  method ClickThrice() returns (first: string, second: string, third: string, after: map<string, string>)
    ensures first == "asc" && second == "desc" && third == "asc"
    ensures after == map["id" := "desc", "type" := "asc", "timestamp" := "asc"]
  {
    var state := new SortOrder();
    first := state.HandleSort("id");
    second := state.HandleSort("id");
    third := state.HandleSort("id");
    after := state.order;
  }

  /** A click on a column with no entry, followed by the local sort it triggers, sorts
      ascending and leaves that column reading "asc". */
  method ClickUnlisted(a: array<Record>, field: string) returns (after: map<string, string>)
    requires field !in {"id", "type", "timestamp"}
    modifies a
    ensures multiset(a[..]) == multiset(old(a[..]))
    ensures Sorted(a[..], TableKey(field), false)
    ensures after == map["id" := "asc", "type" := "asc", "timestamp" := "asc", field := "asc"]
  {
    var state := new SortOrder();
    var used := state.HandleSort(field);
    SortErrors(a, field, used);
    after := state.order;
  }
}
