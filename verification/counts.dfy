/** `buildCounts` (routes/routes.go): the area summaries' per-name tallies.
    Values are grouped by their trimmed, lower-cased form; a group shows the
    trimmed spelling of the first value seen; blank values are skipped; the
    rows come out sorted by lower-cased name. */
module Counts {
  import opened Wrappers
  import opened Text
  import opened Sorting
  import opened Schema

  /** One row of a summary: a display name and how many records carry it. */
  datatype NameCount = NameCount(name: string, count: nat)

  /** The grouping key of a row: its name, lower-cased. */
  function RowKey(e: NameCount): string
  {
    ToLower(e.name)
  }

  // ---------------------------------------------------------------------
  // Reference definitions over the field values

  /** How many values have grouping key `k`. */
  function CountKey(values: seq<string>, k: string): nat
  {
    if |values| == 0 then 0
    else CountKey(values[..|values| - 1], k) + (if Key(values[|values| - 1]) == k then 1 else 0)
  }

  /** The trimmed spelling of the first value with grouping key `k`. */
  function FirstSeen(values: seq<string>, k: string): Option<string>
  {
    if |values| == 0 then None
    else if FirstSeen(values[..|values| - 1], k).Some? then FirstSeen(values[..|values| - 1], k)
    else if Key(values[|values| - 1]) == k then Some(TrimSpace(values[|values| - 1]))
    else None
  }

  /** How many values are not blank. */
  function NonBlank(values: seq<string>): nat
  {
    if |values| == 0 then 0
    else NonBlank(values[..|values| - 1]) + (if IsBlank(values[|values| - 1]) then 0 else 1)
  }

  function Total(t: seq<NameCount>): nat
  {
    if |t| == 0 then 0 else t[0].count + Total(t[1..])
  }

  ghost predicate HasKey(t: seq<NameCount>, k: string)
  {
    exists i :: 0 <= i < |t| && RowKey(t[i]) == k
  }

  ghost predicate DistinctKeys(t: seq<NameCount>)
  {
    forall i, j :: 0 <= i < j < |t| ==> RowKey(t[i]) != RowKey(t[j])
  }

  /** The field of each item, in item order. */
  function Fields(items: seq<DataItem>, get: DataItem -> string): (values: seq<string>)
    ensures |values| == |items|
    ensures forall j :: 0 <= j < |items| ==> values[j] == get(items[j])
  {
    seq(|items|, j requires 0 <= j < |items| => get(items[j]))
  }

  // ---------------------------------------------------------------------
  // The grouping loop

  /** Where the row for key `k` is, if there is one. */
  function IndexOfKey(t: seq<NameCount>, k: string): (r: Option<nat>)
    ensures r.Some? ==> r.value < |t| && RowKey(t[r.value]) == k
    ensures r.None? ==> forall i :: 0 <= i < |t| ==> RowKey(t[i]) != k
  {
    if |t| == 0 then None
    else if RowKey(t[0]) == k then Some(0)
    else match IndexOfKey(t[1..], k)
      case Some(i) => Some(i + 1)
      case None => None
  }

  /** One turn of the loop: skip a blank value, count one more for a known
      key, or open a row under the trimmed value. */
  function Record(t: seq<NameCount>, v: string): seq<NameCount>
  {
    var name := TrimSpace(v);
    if name == "" then t
    else match IndexOfKey(t, ToLower(name))
      case Some(i) => t[i := NameCount(t[i].name, t[i].count + 1)]
      case None => t + [NameCount(name, 1)]
  }

  /** The map `temp` after the loop, its rows in the order they were
      opened. */
  function Tally(values: seq<string>): seq<NameCount>
  {
    if |values| == 0 then []
    else Record(Tally(values[..|values| - 1]), values[|values| - 1])
  }

  ghost predicate NamesTrimmed(t: seq<NameCount>)
  {
    forall i :: 0 <= i < |t| ==> t[i].name != "" && IsTrimmed(t[i].name)
  }

  /** Each row counts the values filed under its key, and there is at
      least one. */
  ghost predicate CountsMatch(t: seq<NameCount>, values: seq<string>)
  {
    forall i :: 0 <= i < |t| ==> t[i].count == CountKey(values, RowKey(t[i])) && t[i].count > 0
  }

  /** Each row is named by the first value filed under its key. */
  ghost predicate FirstsMatch(t: seq<NameCount>, values: seq<string>)
  {
    forall i :: 0 <= i < |t| ==> FirstSeen(values, RowKey(t[i])) == Some(t[i].name)
  }

  /** No value is filed under a non-blank key without a row. */
  ghost predicate Covered(t: seq<NameCount>, values: seq<string>)
  {
    forall k :: k != "" && !HasKey(t, k) ==> CountKey(values, k) == 0 && FirstSeen(values, k).None?
  }

  /** What the rows say about the values seen so far. */
  ghost predicate Grouped(t: seq<NameCount>, values: seq<string>)
  {
    && NamesTrimmed(t)
    && DistinctKeys(t)
    && CountsMatch(t, values)
    && FirstsMatch(t, values)
    && Covered(t, values)
    && Total(t) == NonBlank(values)
  }

  lemma {:induction false} TotalAppend(t: seq<NameCount>, e: NameCount)
    ensures Total(t + [e]) == Total(t) + e.count
    decreases |t|
  {
    if |t| > 0 {
      assert (t + [e])[1..] == t[1..] + [e];
      TotalAppend(t[1..], e);
    }
  }

  lemma {:induction false} TotalUpdate(t: seq<NameCount>, i: nat, e: NameCount)
    requires i < |t|
    ensures Total(t[i := e]) == Total(t) - t[i].count + e.count
    decreases |t|
  {
    if i > 0 {
      assert t[i := e][1..] == t[1..][i - 1 := e];
      TotalUpdate(t[1..], i - 1, e);
    }
  }

  /** The blank check the loop makes on the trimmed value and the key it
      files the value under. */
  lemma KeyOfValue(v: string)
    ensures Key(v) == "" <==> IsBlank(v)
    ensures Key(v) == ToLower(TrimSpace(v))
  {
  }

  lemma RowKeyIsKey(e: NameCount)
    requires IsTrimmed(e.name)
    ensures Key(e.name) == RowKey(e)
  {
    TrimSpaceOfTrimmed(e.name);
  }

  /** How the reference definitions grow by one value. */
  lemma Extend(values: seq<string>, v: string)
    ensures forall k :: CountKey(values + [v], k) == CountKey(values, k) + (if Key(v) == k then 1 else 0)
    ensures forall k :: FirstSeen(values + [v], k) == (if FirstSeen(values, k).Some? then FirstSeen(values, k) else if Key(v) == k then Some(TrimSpace(v)) else None)
    ensures NonBlank(values + [v]) == NonBlank(values) + (if IsBlank(v) then 0 else 1)
  {
    assert (values + [v])[..|values|] == values;
  }

  lemma RecordBlank(t: seq<NameCount>, values: seq<string>, v: string)
    requires Grouped(t, values)
    requires IsBlank(v)
    ensures Grouped(t, values + [v])
  {
    Extend(values, v);
    KeyOfValue(v);
  }

  /** A row update that keeps every name keeps every key. */
  lemma SameNames(t: seq<NameCount>, t': seq<NameCount>)
    requires |t'| == |t|
    requires forall i :: 0 <= i < |t| ==> t'[i].name == t[i].name
    ensures NamesTrimmed(t) ==> NamesTrimmed(t')
    ensures DistinctKeys(t) ==> DistinctKeys(t')
    ensures forall k :: HasKey(t', k) <==> HasKey(t, k)
  {
    assert forall i :: 0 <= i < |t| ==> RowKey(t'[i]) == RowKey(t[i]);
    forall k | HasKey(t, k)
      ensures HasKey(t', k)
    {
      var i :| 0 <= i < |t| && RowKey(t[i]) == k;
      assert RowKey(t'[i]) == k;
    }
  }

  lemma KnownCounts(t: seq<NameCount>, values: seq<string>, v: string, n: nat)
    requires CountsMatch(t, values) && DistinctKeys(t)
    requires n < |t| && RowKey(t[n]) == Key(v)
    ensures CountsMatch(t[n := NameCount(t[n].name, t[n].count + 1)], values + [v])
  {
    var t' := t[n := NameCount(t[n].name, t[n].count + 1)];
    Extend(values, v);
    forall i | 0 <= i < |t'|
      ensures t'[i].count == CountKey(values + [v], RowKey(t'[i])) && t'[i].count > 0
    {
      if i != n {
        assert RowKey(t[i]) != Key(v);
      }
    }
  }

  lemma KnownFirsts(t: seq<NameCount>, values: seq<string>, v: string, n: nat)
    requires FirstsMatch(t, values)
    requires n < |t|
    ensures FirstsMatch(t[n := NameCount(t[n].name, t[n].count + 1)], values + [v])
  {
    var t' := t[n := NameCount(t[n].name, t[n].count + 1)];
    Extend(values, v);
    forall i | 0 <= i < |t'|
      ensures FirstSeen(values + [v], RowKey(t'[i])) == Some(t'[i].name)
    {
      assert RowKey(t'[i]) == RowKey(t[i]);
    }
  }

  lemma KnownCovered(t: seq<NameCount>, t': seq<NameCount>, values: seq<string>, v: string)
    requires Covered(t, values)
    requires HasKey(t, Key(v))
    requires forall k :: HasKey(t', k) <==> HasKey(t, k)
    ensures Covered(t', values + [v])
  {
    Extend(values, v);
  }

  /** Counting one more value under a key that already has a row. */
  lemma RecordKnown(t: seq<NameCount>, values: seq<string>, v: string, n: nat)
    requires Grouped(t, values)
    requires n < |t| && RowKey(t[n]) == Key(v)
    ensures Grouped(t[n := NameCount(t[n].name, t[n].count + 1)], values + [v])
  {
    var t' := t[n := NameCount(t[n].name, t[n].count + 1)];
    SameNames(t, t');
    KnownCounts(t, values, v, n);
    KnownFirsts(t, values, v, n);
    KnownCovered(t, t', values, v);
    Extend(values, v);
    KeyOfValue(v);
    TotalUpdate(t, n, t'[n]);
  }

  /** Appending a row with a new key keeps the old rows' facts. */
  lemma NewRowKeys(t: seq<NameCount>, e: NameCount)
    requires NamesTrimmed(t) && DistinctKeys(t)
    requires e.name != "" && IsTrimmed(e.name) && !HasKey(t, RowKey(e))
    ensures NamesTrimmed(t + [e]) && DistinctKeys(t + [e])
    ensures forall k :: HasKey(t + [e], k) <==> HasKey(t, k) || k == RowKey(e)
  {
    var t' := t + [e];
    forall k | HasKey(t', k)
      ensures HasKey(t, k) || k == RowKey(e)
    {
      var i :| 0 <= i < |t'| && RowKey(t'[i]) == k;
      if i < |t| {
        assert RowKey(t[i]) == k;
      }
    }
    forall k | HasKey(t, k)
      ensures HasKey(t', k)
    {
      var i :| 0 <= i < |t| && RowKey(t[i]) == k;
      assert RowKey(t'[i]) == k;
    }
    assert RowKey(t'[|t|]) == RowKey(e);
  }

  lemma NewCounts(t: seq<NameCount>, values: seq<string>, v: string)
    requires CountsMatch(t, values) && FirstsMatch(t, values) && Covered(t, values)
    requires !IsBlank(v) && !HasKey(t, Key(v))
    requires forall i :: 0 <= i < |t| ==> RowKey(t[i]) != Key(v)
    ensures CountsMatch(t + [NameCount(TrimSpace(v), 1)], values + [v])
    ensures FirstsMatch(t + [NameCount(TrimSpace(v), 1)], values + [v])
  {
    var e := NameCount(TrimSpace(v), 1);
    var t' := t + [e];
    Extend(values, v);
    KeyOfValue(v);
    assert RowKey(e) == Key(v);
    forall i | 0 <= i < |t'|
      ensures t'[i].count == CountKey(values + [v], RowKey(t'[i])) && t'[i].count > 0
      ensures FirstSeen(values + [v], RowKey(t'[i])) == Some(t'[i].name)
    {
      if i < |t| {
        assert t'[i] == t[i];
      }
    }
  }

  /** Opening a row for a value whose key has none yet. */
  lemma RecordNew(t: seq<NameCount>, values: seq<string>, v: string)
    requires Grouped(t, values)
    requires !IsBlank(v) && !HasKey(t, Key(v))
    ensures Grouped(t + [NameCount(TrimSpace(v), 1)], values + [v])
  {
    var e := NameCount(TrimSpace(v), 1);
    KeyOfValue(v);
    assert RowKey(e) == Key(v);
    NewRowKeys(t, e);
    NewCounts(t, values, v);
    Extend(values, v);
    TotalAppend(t, e);
  }

  /** One turn of the loop keeps the rows faithful to the values. */
  lemma RecordKeepsGrouped(t: seq<NameCount>, values: seq<string>, v: string)
    requires Grouped(t, values)
    ensures Grouped(Record(t, v), values + [v])
  {
    KeyOfValue(v);
    if IsBlank(v) {
      RecordBlank(t, values, v);
    } else {
      match IndexOfKey(t, Key(v))
      case Some(n) => RecordKnown(t, values, v, n);
      case None => RecordNew(t, values, v);
    }
  }

  lemma {:induction false} TallyGrouped(values: seq<string>)
    ensures Grouped(Tally(values), values)
    decreases |values|
  {
    if |values| > 0 {
      var init := values[..|values| - 1];
      TallyGrouped(init);
      RecordKeepsGrouped(Tally(init), init, values[|values| - 1]);
      assert init + [values[|values| - 1]] == values;
    }
  }

  // ---------------------------------------------------------------------
  // Sorting the rows

  /** The `less` callback: lower-cased names in byte order. */
  predicate NameBefore(a: NameCount, b: NameCount)
  {
    LexLess(RowKey(a), RowKey(b))
  }

  lemma NameBeforeIsStrictWeakOrder()
    ensures StrictWeakOrder(NameBefore)
  {
    forall a: NameCount
      ensures !NameBefore(a, a)
    {
      LexLessIrreflexive(RowKey(a));
    }
    forall a: NameCount, b: NameCount, c: NameCount | NameBefore(a, b) && NameBefore(b, c)
      ensures NameBefore(a, c)
    {
      LexLessTransitive(RowKey(a), RowKey(b), RowKey(c));
    }
    forall a: NameCount, b: NameCount, c: NameCount | !NameBefore(a, b) && !NameBefore(b, c)
      ensures !NameBefore(a, c)
    {
      var ka, kb, kc := RowKey(a), RowKey(b), RowKey(c);
      if ka != kb { LexLessTotal(ka, kb); }
      if kb != kc { LexLessTotal(kb, kc); }
      if ka != kc && LexLess(kc, ka) {
        LexLessAsymmetric(kc, ka);
      }
      if LexLess(kb, ka) && LexLess(kc, kb) {
        LexLessTransitive(kc, kb, ka);
        LexLessAsymmetric(kc, ka);
      }
      if ka == kc {
        LexLessIrreflexive(ka);
      }
    }
  }

  /** A sorted list whose keys differ is strictly sorted. */
  lemma SortedDistinctIsStrict(s: seq<NameCount>)
    requires Sorted(s, NameBefore)
    requires DistinctKeys(s)
    ensures StrictlySorted(s, NameBefore)
  {
    forall i, j | 0 <= i < j < |s|
      ensures NameBefore(s[i], s[j])
    {
      LexLessTotal(RowKey(s[i]), RowKey(s[j]));
    }
  }

  lemma {:induction false} TotalInsert(x: NameCount, s: seq<NameCount>, before: (NameCount, NameCount) -> bool)
    ensures Total(Insert(x, s, before)) == x.count + Total(s)
    decreases |s|
  {
    if |s| > 0 && !before(x, s[0]) {
      TotalInsert(x, s[1..], before);
    }
  }

  /** Sorting neither adds nor loses counts, whatever the order. */
  lemma {:induction false} TotalSort(s: seq<NameCount>, before: (NameCount, NameCount) -> bool)
    ensures Total(SortBy(s, before)) == Total(s)
    decreases |s|
  {
    if |s| > 0 {
      var init, last := s[..|s| - 1], s[|s| - 1];
      var sorted := SortBy(init, before);
      assert Total(SortBy(s, before)) == last.count + Total(sorted) by {
        assert SortBy(s, before) == Insert(last, sorted, before);
        TotalInsert(last, sorted, before);
      }
      assert Total(s) == Total(init) + last.count by {
        assert s == init + [last];
        TotalAppend(init, last);
      }
      TotalSort(init, before);
    }
  }

  /** Each item occurs at most once in a list with distinct keys. */
  lemma {:induction false} AtMostOnce(s: seq<NameCount>, x: NameCount)
    requires DistinctKeys(s)
    ensures multiset(s)[x] <= 1
    decreases |s|
  {
    if |s| > 0 {
      var init := s[..|s| - 1];
      AtMostOnce(init, x);
      assert s == init + [s[|s| - 1]];
      if s[|s| - 1] == x {
        forall i | 0 <= i < |init|
          ensures init[i] != x
        {
          assert RowKey(s[i]) != RowKey(s[|s| - 1]);
        }
        assert x !in init;
      }
    }
  }

  lemma Twice<T>(p: seq<T>, i: nat, j: nat)
    requires i < j < |p| && p[i] == p[j]
    ensures multiset(p)[p[i]] >= 2
  {
    assert p == p[..j] + [p[j]] + p[j + 1..];
    assert p[i] in p[..j];
  }

  /** Any arrangement of a list with distinct keys has distinct keys. */
  lemma PermutationDistinct(s: seq<NameCount>, p: seq<NameCount>)
    requires DistinctKeys(s)
    requires multiset(p) == multiset(s)
    ensures DistinctKeys(p)
  {
    forall i, j | 0 <= i < j < |p|
      ensures RowKey(p[i]) != RowKey(p[j])
    {
      if RowKey(p[i]) == RowKey(p[j]) {
        assert p[i] in multiset(s) && p[j] in multiset(s);
        var a :| 0 <= a < |s| && s[a] == p[i];
        var b :| 0 <= b < |s| && s[b] == p[j];
        assert a == b;
        Twice(p, i, j);
        AtMostOnce(s, p[i]);
        assert false;
      }
    }
  }

  /** Rearranging grouped rows keeps what each row says, and a key has a
      row exactly when some value is filed under it. */
  lemma PermutedGrouped(t: seq<NameCount>, r: seq<NameCount>, values: seq<string>)
    requires Grouped(t, values)
    requires multiset(r) == multiset(t)
    ensures NamesTrimmed(r) && CountsMatch(r, values) && FirstsMatch(r, values)
    ensures forall k :: k != "" ==> (HasKey(r, k) <==> CountKey(values, k) > 0)
  {
    forall i | 0 <= i < |r|
      ensures r[i] in t
    {
      assert r[i] in multiset(t);
    }
    forall k | k != "" && HasKey(t, k)
      ensures HasKey(r, k)
    {
      var i :| 0 <= i < |t| && RowKey(t[i]) == k;
      assert t[i] in multiset(r);
      var j :| 0 <= j < |r| && r[j] == t[i];
      assert RowKey(r[j]) == k;
    }
  }

  // ---------------------------------------------------------------------
  // buildCounts

  /** `buildCounts`: one row per case-insensitive name, named by the first
      spelling seen, counting its records, strictly ascending by lower-cased
      name. */
  function BuildCounts(items: seq<DataItem>, get: DataItem -> string): (r: seq<NameCount>)
    ensures forall i :: 0 <= i < |r| ==> r[i].name != "" && IsTrimmed(r[i].name)
    ensures StrictlySorted(r, NameBefore)
    ensures forall i :: 0 <= i < |r| ==> r[i].count == CountKey(Fields(items, get), RowKey(r[i]))
    ensures forall i :: 0 <= i < |r| ==> FirstSeen(Fields(items, get), RowKey(r[i])) == Some(r[i].name)
    ensures forall k :: k != "" ==> (HasKey(r, k) <==> CountKey(Fields(items, get), k) > 0)
    ensures Total(r) == NonBlank(Fields(items, get))
  {
    var values := Fields(items, get);
    var t := Tally(values);
    TallyGrouped(values);
    NameBeforeIsStrictWeakOrder();
    var r := SortBy(t, NameBefore);
    SortSorted(t, NameBefore);
    PermutationDistinct(t, r);
    SortedDistinctIsStrict(r);
    TotalSort(t, NameBefore);
    PermutedGrouped(t, r, values);
    r
  }

  /** Go enumerates the map in no fixed order and `sort.Slice` is not
      stable; neither matters: every sorted arrangement of the grouped rows
      is the same list. */
  lemma CountsOrderDetermined(items: seq<DataItem>, get: DataItem -> string, rows: seq<NameCount>)
    requires multiset(rows) == multiset(Tally(Fields(items, get)))
    requires Sorted(rows, NameBefore)
    ensures rows == BuildCounts(items, get)
  {
    var t := Tally(Fields(items, get));
    TallyGrouped(Fields(items, get));
    NameBeforeIsStrictWeakOrder();
    PermutationDistinct(t, rows);
    SortedDistinctIsStrict(rows);
    StrictlySortedUnique(rows, BuildCounts(items, get), NameBefore);
  }

  /** Rows never share a lower-cased name. */
  lemma CountsKeysUnique(items: seq<DataItem>, get: DataItem -> string)
    ensures DistinctKeys(BuildCounts(items, get))
  {
    var r := BuildCounts(items, get);
    forall i, j | 0 <= i < j < |r|
      ensures RowKey(r[i]) != RowKey(r[j])
    {
      LexLessIrreflexive(RowKey(r[i]));
    }
  }
}
