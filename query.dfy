/** The query layer shared by `GET /errors` and the local `getErrors`: case-insensitive
    filtering by type and a stable sort by one field, plus the order on field values. */
module Query {
  import opened Records

  // ---------------------------------------------------------------------------
  // The order on values: Missing < numbers < strings; strings lexicographically.

  predicate StrLess(a: string, b: string) {
    if |a| == 0 then |b| > 0
    else if |b| == 0 then false
    else a[0] < b[0] || (a[0] == b[0] && StrLess(a[1..], b[1..]))
  }

  lemma {:induction false} StrLessIrreflexive(a: string)
    ensures !StrLess(a, a)
  {
    if |a| > 0 { StrLessIrreflexive(a[1..]); }
  }

  lemma {:induction false} StrLessTransitive(a: string, b: string, c: string)
    requires StrLess(a, b) && StrLess(b, c)
    ensures StrLess(a, c)
  {
    if |a| > 0 && a[0] == b[0] && b[0] == c[0] {
      StrLessTransitive(a[1..], b[1..], c[1..]);
    }
  }

  lemma {:induction false} StrLessTotal(a: string, b: string)
    ensures a == b || StrLess(a, b) || StrLess(b, a)
  {
    if |a| > 0 && |b| > 0 && a[0] == b[0] {
      StrLessTotal(a[1..], b[1..]);
      if a[1..] == b[1..] {
        assert a == [a[0]] + a[1..] && b == [b[0]] + b[1..];
      }
    }
  }

  predicate ValueLess(x: Value, y: Value) {
    match (x, y)
    case (Missing, Missing) => false
    case (Missing, _) => true
    case (Num(m), Num(n)) => m < n
    case (Num(_), Str(_)) => true
    case (Str(s), Str(t)) => StrLess(s, t)
    case _ => false
  }

  lemma ValueLessIrreflexive(x: Value)
    ensures !ValueLess(x, x)
  {
    if x.Str? { StrLessIrreflexive(x.s); }
  }

  lemma ValueLessTransitive(x: Value, y: Value, z: Value)
    requires ValueLess(x, y) && ValueLess(y, z)
    ensures ValueLess(x, z)
  {
    if x.Str? { StrLessTransitive(x.s, y.s, z.s); }
  }

  lemma ValueLessTotal(x: Value, y: Value)
    ensures x == y || ValueLess(x, y) || ValueLess(y, x)
  {
    if x.Str? && y.Str? { StrLessTotal(x.s, y.s); }
  }

  // ---------------------------------------------------------------------------
  // Sort keys and directions.

  /** What a sort compares for each record. */
  type Key = Record -> Value

  /** `record[name]`, the key of the servers' and the table's comparators. */
  function FieldKey(name: string): Key {
    r => FieldValue(r, name)
  }

  /** The table's time key: `timestamp`, else `createdAt`, else 0. */
  function TimeKey(): Key {
    r => Num(EffectiveTime(r))
  }

  /** `x` must be placed ahead of `y`: its key is strictly smaller (larger when `desc`). */
  predicate Before(x: Record, y: Record, key: Key, desc: bool) {
    if desc then ValueLess(key(y), key(x)) else ValueLess(key(x), key(y))
  }

  lemma BeforeAsymmetric(x: Record, y: Record, key: Key, desc: bool)
    requires Before(x, y, key, desc)
    ensures !Before(y, x, key, desc) && key(x) != key(y)
  {
    ValueLessIrreflexive(key(x));
    if Before(y, x, key, desc) {
      ValueLessTransitive(key(x), key(y), key(x));
      ValueLessTransitive(key(y), key(x), key(y));
    }
  }

  /** "Not ahead of" is transitive: a <= b and b <= c give a <= c. */
  lemma NotBeforeTransitive(a: Record, b: Record, c: Record, key: Key, desc: bool)
    requires !Before(b, a, key, desc) && !Before(c, b, key, desc)
    ensures !Before(c, a, key, desc)
  {
    var ka, kb, kc := key(a), key(b), key(c);
    ValueLessTotal(ka, kb);
    if Before(c, a, key, desc) {
      if desc {
        if ValueLess(kb, ka) { ValueLessTransitive(kb, ka, kc); }
      } else {
        if ValueLess(ka, kb) { ValueLessTransitive(kc, ka, kb); }
      }
    }
  }

  /** Ordered in the direction: no later record belongs ahead of an earlier one. */
  ghost predicate Sorted(s: seq<Record>, key: Key, desc: bool) {
    forall i, j :: 0 <= i < j < |s| ==> !Before(s[j], s[i], key, desc)
  }

  /** The records of `s` whose key is `k`, in their order in `s`. */
  function KeyFilter(s: seq<Record>, key: Key, k: Value): seq<Record> {
    if s == [] then []
    else KeyFilter(s[..|s| - 1], key, k) + (if key(s[|s| - 1]) == k then [s[|s| - 1]] else [])
  }

  // ---------------------------------------------------------------------------
  // The stable sort: insertion from the back, the reference for the in-place loop.

  function Insert(t: seq<Record>, x: Record, key: Key, desc: bool): (r: seq<Record>)
    decreases |t|
  {
    if t == [] || !Before(x, t[|t| - 1], key, desc) then t + [x]
    else Insert(t[..|t| - 1], x, key, desc) + [t[|t| - 1]]
  }

  /** What `Array.prototype.sort` returns for a comparator that orders by `key` in the
      direction and answers 0 on equal keys (the sort is stable). */
  function SortBy(s: seq<Record>, key: Key, desc: bool): seq<Record>
  {
    if s == [] then [] else Insert(SortBy(s[..|s| - 1], key, desc), s[|s| - 1], key, desc)
  }

  lemma {:induction false} InsertPerm(t: seq<Record>, x: Record, key: Key, desc: bool)
    ensures multiset(Insert(t, x, key, desc)) == multiset(t) + multiset{x}
    decreases |t|
  {
    if t == [] || !Before(x, t[|t| - 1], key, desc) {
    } else {
      var init := t[..|t| - 1];
      InsertPerm(init, x, key, desc);
      assert t == init + [t[|t| - 1]];
    }
  }

  /** Appending a record that no earlier record belongs after keeps a sequence sorted. */
  lemma AppendSorted(t: seq<Record>, x: Record, key: Key, desc: bool)
    requires Sorted(t, key, desc)
    requires forall i :: 0 <= i < |t| ==> !Before(x, t[i], key, desc)
    ensures Sorted(t + [x], key, desc)
  {
    var r := t + [x];
    forall i, j | 0 <= i < j < |r|
      ensures !Before(r[j], r[i], key, desc)
    {
      assert r[i] == t[i];
      if j < |t| { assert r[j] == t[j]; }
    }
  }

  lemma {:induction false} InsertSorted(t: seq<Record>, x: Record, key: Key, desc: bool)
    requires Sorted(t, key, desc)
    ensures Sorted(Insert(t, x, key, desc), key, desc)
    decreases |t|
  {
    if t == [] || !Before(x, t[|t| - 1], key, desc) {
      forall i | 0 <= i < |t|
        ensures !Before(x, t[i], key, desc)
      {
        if i < |t| - 1 {
          NotBeforeTransitive(t[i], t[|t| - 1], x, key, desc);
        }
      }
      AppendSorted(t, x, key, desc);
    } else {
      var init, last := t[..|t| - 1], t[|t| - 1];
      assert Sorted(init, key, desc);
      InsertSorted(init, x, key, desc);
      InsertPerm(init, x, key, desc);
      var m := Insert(init, x, key, desc);
      forall i | 0 <= i < |m|
        ensures !Before(last, m[i], key, desc)
      {
        assert m[i] in multiset(m);
        if m[i] == x {
          BeforeAsymmetric(x, last, key, desc);
        } else {
          assert m[i] in multiset(init);
          var k :| 0 <= k < |init| && init[k] == m[i];
          assert t[k] == m[i];
        }
      }
      AppendSorted(m, last, key, desc);
    }
  }

  lemma {:induction false} InsertStable(t: seq<Record>, x: Record, key: Key, desc: bool, k: Value)
    ensures KeyFilter(Insert(t, x, key, desc), key, k)
         == KeyFilter(t, key, k) + (if key(x) == k then [x] else [])
    decreases |t|
  {
    if t == [] || !Before(x, t[|t| - 1], key, desc) {
      assert (t + [x])[..|t|] == t;
    } else {
      var init, last := t[..|t| - 1], t[|t| - 1];
      InsertStable(init, x, key, desc, k);
      BeforeAsymmetric(x, last, key, desc);
      var m := Insert(init, x, key, desc);
      assert (m + [last])[..|m|] == m;
    }
  }

  /** The sort is a permutation of its input. */
  lemma {:induction false} SortByPerm(s: seq<Record>, key: Key, desc: bool)
    ensures multiset(SortBy(s, key, desc)) == multiset(s)
  {
    if s != [] {
      var init := s[..|s| - 1];
      SortByPerm(init, key, desc);
      InsertPerm(SortBy(init, key, desc), s[|s| - 1], key, desc);
      assert s == init + [s[|s| - 1]];
    }
  }

  /** The sort is ordered in the requested direction. */
  lemma {:induction false} SortBySorted(s: seq<Record>, key: Key, desc: bool)
    ensures Sorted(SortBy(s, key, desc), key, desc)
  {
    if s != [] {
      SortBySorted(s[..|s| - 1], key, desc);
      InsertSorted(SortBy(s[..|s| - 1], key, desc), s[|s| - 1], key, desc);
    }
  }

  /** The sort is stable: records with equal keys keep their relative input order. */
  lemma {:induction false} SortByStable(s: seq<Record>, key: Key, desc: bool, k: Value)
    ensures KeyFilter(SortBy(s, key, desc), key, k) == KeyFilter(s, key, k)
  {
    if s != [] {
      SortByStable(s[..|s| - 1], key, desc, k);
      InsertStable(SortBy(s[..|s| - 1], key, desc), s[|s| - 1], key, desc, k);
    }
  }

  /** When no two keys are equal, a sorted sequence is strictly increasing
      (strictly decreasing when `desc`). */
  lemma DistinctKeysStrict(s: seq<Record>, key: Key, desc: bool)
    requires Sorted(s, key, desc)
    requires forall i, j :: 0 <= i < j < |s| ==> key(s[i]) != key(s[j])
    ensures forall i, j :: 0 <= i < j < |s| ==> Before(s[i], s[j], key, desc)
  {
    forall i, j | 0 <= i < j < |s|
      ensures Before(s[i], s[j], key, desc)
    {
      ValueLessTotal(key(s[i]), key(s[j]));
    }
  }

  // ---------------------------------------------------------------------------
  // The in-place sort.

  /** Moving the insertion point one place left past a record `x` belongs ahead of. */
  lemma InsertShift(t: seq<Record>, j: nat, x: Record, key: Key, desc: bool)
    requires 0 < j <= |t| && Before(x, t[j - 1], key, desc)
    ensures Insert(t[..j], x, key, desc) + t[j..] == Insert(t[..j - 1], x, key, desc) + t[j - 1..]
  {
    assert t[..j][..j - 1] == t[..j - 1];
    assert t[j - 1..] == [t[j - 1]] + t[j..];
  }

  /** Where the insertion point stops, `x` goes right there: the records before it, `x`,
      then the records moved one place right make up the insertion. */
  lemma InsertStop(cur: seq<Record>, t: seq<Record>, j: nat, x: Record, key: Key, desc: bool)
    requires j <= |t| && |cur| == |t| + 1
    requires j == 0 || !Before(x, t[j - 1], key, desc)
    requires Insert(t, x, key, desc) == Insert(t[..j], x, key, desc) + t[j..]
    requires forall k :: 0 <= k < j ==> cur[k] == t[k]
    requires cur[j] == x
    requires forall k :: j < k <= |t| ==> cur[k] == t[k - 1]
    ensures cur == Insert(t, x, key, desc)
  {
    var r := t[..j] + [x] + t[j..];
    assert Insert(t[..j], x, key, desc) == t[..j] + [x];
    forall k | 0 <= k < |cur|
      ensures cur[k] == r[k]
    {
      if k < j {
        assert r[k] == t[k];
      } else if k > j {
        assert r[k] == t[k - 1];
      }
    }
  }

  /** Move every record of `a[..i]` that `x` belongs ahead of one place right, from the
      back, and answer the gap left for `x`. */
  method ShiftPast(a: array<Record>, i: nat, x: Record, key: Key, desc: bool) returns (j: nat)
    requires i < a.Length
    modifies a
    ensures j <= i
    ensures j == 0 || !Before(x, old(a[j - 1]), key, desc)
    ensures forall k :: 0 <= k < j ==> a[k] == old(a[k])
    ensures forall k :: j < k <= i ==> a[k] == old(a[k - 1])
    ensures forall k :: i < k < a.Length ==> a[k] == old(a[k])
    ensures Insert(old(a[..i]), x, key, desc) == Insert(old(a[..i])[..j], x, key, desc) + old(a[..i])[j..]
  {
    ghost var t := a[..i];
    assert t[..i] == t && t[i..] == [];
    j := i;
    while j > 0 && Before(x, a[j - 1], key, desc)
      invariant 0 <= j <= i
      invariant forall k :: 0 <= k < j ==> a[k] == t[k]
      invariant forall k :: j < k <= i ==> a[k] == t[k - 1]
      invariant forall k :: i < k < a.Length ==> a[k] == old(a[k])
      invariant Insert(t, x, key, desc) == Insert(t[..j], x, key, desc) + t[j..]
    {
      InsertShift(t, j, x, key, desc);
      a[j] := a[j - 1];
      j := j - 1;
    }
  }

  /** One step of the in-place sort: `a[..i]` is already sorted; move `a[i]` back past
      every record it belongs ahead of. */
  method InsertAt(a: array<Record>, i: nat, key: Key, desc: bool)
    requires i < a.Length
    modifies a
    ensures a[..i + 1] == Insert(old(a[..i]), old(a[i]), key, desc)
    ensures a[i + 1..] == old(a[i + 1..])
  {
    var x := a[i];
    ghost var t := a[..i];
    var j := ShiftPast(a, i, x, key, desc);
    a[j] := x;
    InsertStop(a[..i + 1], t, j, x, key, desc);
  }

  /** `array.sort(cmp)` with the comparator of `Before`: stable insertion sort in place. */
  method SortInPlace(a: array<Record>, key: Key, desc: bool)
    modifies a
    ensures a[..] == SortBy(old(a[..]), key, desc)
  {
    ghost var orig := a[..];
    var i := 0;
    while i < a.Length
      invariant 0 <= i <= a.Length
      invariant a[..i] == SortBy(orig[..i], key, desc)
      invariant a[i..] == orig[i..]
    {
      assert orig[..i + 1][..i] == orig[..i];
      assert a[i] == orig[i];
      InsertAt(a, i, key, desc);
      i := i + 1;
    }
    assert orig[..a.Length] == orig;
  }

  /** Sort a copy of `s`, as the handlers do on the freshly read array. */
  method SortedCopy(s: seq<Record>, key: Key, desc: bool) returns (r: seq<Record>)
    ensures r == SortBy(s, key, desc)
  {
    var a := new Record[|s|](i requires 0 <= i < |s| => s[i]);
    assert a[..] == s;
    SortInPlace(a, key, desc);
    r := a[..];
  }

  // ---------------------------------------------------------------------------
  // Filtering and the whole query.

  /** `String(e.type).toLowerCase() === String(filter).toLowerCase()`. */
  predicate TypeMatches(r: Record, filter: string) {
    Lower(TypeText(r)) == Lower(filter)
  }

  function FilterByType(s: seq<Record>, filter: string): seq<Record> {
    if s == [] then []
    else (if TypeMatches(s[0], filter) then [s[0]] else []) + FilterByType(s[1..], filter)
  }

  /** The filter keeps exactly the matching records. */
  lemma {:induction false} FilterByTypeMembers(s: seq<Record>, filter: string)
    ensures forall r :: r in FilterByType(s, filter) <==> r in s && TypeMatches(r, filter)
  {
    if s != [] {
      FilterByTypeMembers(s[1..], filter);
      assert s == [s[0]] + s[1..];
    }
  }

  /** Filtering a record followed by more records. */
  lemma FilterByTypeCons(h: Record, rest: seq<Record>, filter: string)
    ensures FilterByType([h] + rest, filter)
         == (if TypeMatches(h, filter) then [h] else []) + FilterByType(rest, filter)
  {
    var s := [h] + rest;
    assert s[0] == h && s[1..] == rest;
  }

  /** The filter keeps stored order: filtering a concatenation concatenates the filtered parts. */
  lemma {:induction false} FilterByTypeConcat(a: seq<Record>, b: seq<Record>, filter: string)
    ensures FilterByType(a + b, filter) == FilterByType(a, filter) + FilterByType(b, filter)
  {
    if a == [] {
      assert a + b == b;
    } else {
      var h, t := a[0], a[1..];
      var head := if TypeMatches(h, filter) then [h] else [];
      assert a == [h] + t;
      assert a + b == [h] + (t + b);
      FilterByTypeCons(h, t + b, filter);
      FilterByTypeCons(h, t, filter);
      FilterByTypeConcat(t, b, filter);
      assert head + (FilterByType(t, filter) + FilterByType(b, filter))
          == (head + FilterByType(t, filter)) + FilterByType(b, filter);
    }
  }

  /** The filter applied to a single record keeps it exactly when it matches. */
  lemma FilterByTypeSingle(r: Record, filter: string)
    ensures FilterByType([r], filter) == if TypeMatches(r, filter) then [r] else []
  {
    assert [r][1..] == [];
  }

  /** Case-insensitivity: a record typed "TypeError" matches the filter "typeerror". */
  lemma FilterIsCaseInsensitive(r: Record)
    requires r.errorType == Some("TypeError")
    ensures FilterByType([r], "typeerror") == [r]
  {
    LowerAt("TypeError");
    LowerAt("typeerror");
    assert Lower("TypeError") == Lower("typeerror");
    FilterByTypeSingle(r, "typeerror");
  }

  /** The records a query keeps before sorting. */
  function Filtered(s: seq<Record>, filter: string): seq<Record> {
    if filter != "" then FilterByType(s, filter) else s
  }

  /** `GET /errors?filter=&sort=&order=`: filter, then sort; an empty parameter is absent. */
  function Apply(s: seq<Record>, filter: string, sort: string, order: string): seq<Record> {
    var f := Filtered(s, filter);
    if sort != "" then SortBy(f, FieldKey(sort), order == "desc") else f
  }

  /** What a query promises: with a sort field, a permutation of the filtered records,
      ordered by the field (descending exactly when `order` is "desc"), with ties in stored
      order; without one, the filtered records as stored. */
  lemma ApplyMeaning(s: seq<Record>, filter: string, sort: string, order: string)
    ensures sort == "" ==> Apply(s, filter, sort, order) == Filtered(s, filter)
    ensures sort != "" ==>
      var r := Apply(s, filter, sort, order);
      var f := Filtered(s, filter);
      && multiset(r) == multiset(f)
      && Sorted(r, FieldKey(sort), order == "desc")
      && forall k :: KeyFilter(r, FieldKey(sort), k) == KeyFilter(f, FieldKey(sort), k)
  {
    if sort != "" {
      var f := Filtered(s, filter);
      SortByPerm(f, FieldKey(sort), order == "desc");
      SortBySorted(f, FieldKey(sort), order == "desc");
      forall k ensures KeyFilter(SortBy(f, FieldKey(sort), order == "desc"), FieldKey(sort), k)
                    == KeyFilter(f, FieldKey(sort), k) {
        SortByStable(f, FieldKey(sort), order == "desc", k);
      }
    }
  }

  /** The query as a computation over a freshly read copy of the records. */
  method RunQuery(s: seq<Record>, filter: string, sort: string, order: string) returns (r: seq<Record>)
    ensures r == Apply(s, filter, sort, order)
  {
    r := s;
    if filter != "" {
      r := FilterByType(r, filter);
    }
    if sort != "" {
      r := SortedCopy(r, FieldKey(sort), order == "desc");
    }
  }
}
