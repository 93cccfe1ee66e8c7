/** The filters and the `/v1/priority` selection of routes/routes.go. Each
    filter is the Go loop that appends passing items to a fresh slice, so
    each result is an order-preserving selection of its input. */
module Routes {
  import opened Wrappers
  import opened Text
  import opened Seqs
  import opened Sorting
  import opened Schema
  import opened Priority

  function Province(item: DataItem): string
  {
    item.location.properties.province
  }

  // ---------------------------------------------------------------------
  // filterItems

  /** `filterItems`: nothing for a blank target; otherwise the items whose
      field, lower-cased but NOT trimmed, equals the trimmed, lower-cased
      target, in input order. */
  function FilterItems(items: seq<DataItem>, target: string, get: DataItem -> string): (r: seq<DataItem>)
    ensures Key(target) == "" ==> r == []
    ensures IsSubsequence(r, items)
    ensures forall x :: multiset(r)[x] == if Key(target) != "" && ToLower(get(x)) == Key(target) then multiset(items)[x] else 0
  {
    var key := Key(target);
    if key == "" then []
    else
      var keep := (x: DataItem) => ToLower(get(x)) == key;
      SelectIsSubsequence(items, keep);
      SelectMultiset(items, keep);
      Select(items, keep)
  }

  /** Surrounding white space in the target is forgiven, in the record's
      field it is not: a field that starts with white space (" Songkhla")
      matches no target at all. */
  lemma PaddedFieldNeverMatches(items: seq<DataItem>, target: string, get: DataItem -> string, x: DataItem)
    requires |get(x)| > 0 && IsSpace(get(x)[0])
    ensures x !in FilterItems(items, target, get)
  {
    var k := Key(target);
    if k != "" {
      assert !IsSpace(k[0]);
      assert IsSpace(ToLower(get(x))[0]);
    }
    assert multiset(FilterItems(items, target, get))[x] == 0;
  }

  // ---------------------------------------------------------------------
  // filterItemsByProvince and the southern allow-list

  /** `filterItemsByProvince`: the items whose trimmed, lower-cased
      province `allow` accepts, in input order. */
  function FilterItemsByProvince(items: seq<DataItem>, allow: string -> bool): (r: seq<DataItem>)
    ensures IsSubsequence(r, items)
    ensures forall x :: multiset(r)[x] == if allow(Key(Province(x))) then multiset(items)[x] else 0
  {
    var keep := ProvinceTest(allow);
    SelectIsSubsequence(items, keep);
    SelectMultiset(items, keep);
    Select(items, keep)
  }

  /** The test `filterItemsByProvince` applies to each item. */
  function ProvinceTest(allow: string -> bool): DataItem -> bool
  {
    x => allow(Key(Province(x)))
  }

  /** The allow-list as the source spells it. Its Thai entry for Surat
      Thani is written with U+0E11 (ฑ) where the province's name has U+0E0E
      (ฎ). */
  const SouthernProvincesAsWritten: set<string> := {
    "phuket", "krabi", "phang nga", "ranong", "chumphon", "surat thani",
    "nakhon si thammarat", "phatthalung", "trang", "satun", "songkhla",
    "pattani", "yala", "narathiwat",
    "ภูเก็ต", "กระบี่", "พังงา", "ระนอง", "ชุมพร", "สุราษฑร์ธานี", "นครศรีธรรมราช",
    "พัทลุง", "ตรัง", "สตูล", "สงขลา", "ปัตตานี", "ยะลา", "นราธิวาส"
  }

  /** "สุราษฎร์ธานี", the correct Thai spelling of Surat Thani. */
  const SuratThani: string := "สุราษฎร์ธานี"

  /** The fourteen southern provinces in English and Thai, with Surat
      Thani accepted under its correct spelling as well. */
  const SouthernProvincesCorrected: set<string> := SouthernProvincesAsWritten + {SuratThani}

  /** `isSouthernProvince`: membership of the trimmed, lower-cased name in
      the list as written. */
  predicate IsSouthernProvince(province: string)
  {
    Key(province) in SouthernProvincesAsWritten
  }

  /** The same test against the corrected list. */
  predicate IsSouthernProvinceCorrected(province: string)
  {
    Key(province) in SouthernProvincesCorrected
  }

  /** Looking a name up through `Key` is insensitive to its ASCII case and
      surrounding space. */
  lemma SouthernProvinceIgnoresCaseAndSpace(a: string, b: string)
    requires Key(a) == Key(b)
    ensures IsSouthernProvince(a) == IsSouthernProvince(b)
  {
  }

  /** As written, a record carrying the correctly spelled Thai name of Surat
      Thani is not recognised as southern. */
  lemma SuratThaniMisspelled()
    ensures !IsSouthernProvince(SuratThani)
  {
    SuratThaniIsKey();
    TrimSpaceOfTrimmed(SuratThani);
    assert SuratThani[5] == '\U{0E0E}';
    assert "สุราษฑร์ธานี"[5] == '\U{0E11}';
  }

  /** The corrected list accepts Surat Thani under its correct Thai
      spelling, in any surrounding space, and still accepts every name the
      list as written accepts. */
  lemma SuratThaniAccepted(padding: string)
    requires IsBlank(padding)
    ensures IsSouthernProvinceCorrected(padding + SuratThani + padding)
    ensures forall p :: IsSouthernProvince(p) ==> IsSouthernProvinceCorrected(p)
  {
    PaddedSuratThaniKey(padding);
    assert SuratThani in {SuratThani};
  }

  lemma PaddedSuratThaniKey(padding: string)
    requires IsBlank(padding)
    ensures Key(padding + SuratThani + padding) == SuratThani
  {
    SuratThaniIsKey();
    TrimPadded(padding, SuratThani);
  }

  /** The correct spelling is already trimmed and has no capitals. */
  lemma SuratThaniIsKey()
    ensures IsTrimmed(SuratThani) && SuratThani != ""
    ensures ToLower(SuratThani) == SuratThani
  {
    assert SuratThani[0] == '\U{0E2A}' && SuratThani[|SuratThani| - 1] == '\U{0E35}';
    ToLowerNoCapitals(SuratThani);
  }

  /** Looking up a name that was already trimmed and lower-cased. */
  lemma SouthernByKey(province: string)
    ensures IsSouthernProvince(Key(province)) == IsSouthernProvince(province)
  {
    KeyIdempotent(province);
  }

  /** Filtering with `isSouthernProvince` keeps exactly the items whose
      trimmed, lower-cased province is on the allow-list, in input order;
      the second trim and lower-casing inside the predicate change nothing. */
  lemma SouthernFilter(items: seq<DataItem>)
    ensures IsSubsequence(FilterItemsByProvince(items, IsSouthernProvince), items)
    ensures forall x :: multiset(FilterItemsByProvince(items, IsSouthernProvince))[x]
                     == if Key(Province(x)) in SouthernProvincesAsWritten then multiset(items)[x] else 0
  {
    forall x: DataItem
      ensures IsSouthernProvince(Key(Province(x))) == (Key(Province(x)) in SouthernProvincesAsWritten)
    {
      KeyIdempotent(Province(x));
    }
  }

  // ---------------------------------------------------------------------
  // The /v1/priority selection

  /** A record with its severity and the time used to break score ties. */
  datatype Ranked = Ranked(item: DataItem, priority: Severity, updated: Instant)

  /** `mostRecentUpdate`: the record's own timestamp, else the one in its
      properties, else Go's zero time. */
  function MostRecentUpdate(item: DataItem, rfc3339: string -> Option<Instant>): (t: Instant)
    ensures ParseTimestamp(item.updatedAt, rfc3339).Some? ==> t == ParseTimestamp(item.updatedAt, rfc3339).value
    ensures ParseTimestamp(item.updatedAt, rfc3339).None? && ParseTimestamp(item.location.properties.updatedAt, rfc3339).Some?
        ==> t == ParseTimestamp(item.location.properties.updatedAt, rfc3339).value
    ensures ParseTimestamp(item.updatedAt, rfc3339).None? && ParseTimestamp(item.location.properties.updatedAt, rfc3339).None?
        ==> t == 0
  {
    match ParseTimestamp(item.updatedAt, rfc3339)
    case Some(t) => t
    case None => ParseTimestamp(item.location.properties.updatedAt, rfc3339).GetOr(0)
  }

  /** The `less` callback of the sort: higher score first, and on equal
      scores the later update first. */
  predicate RankBefore(a: Ranked, b: Ranked)
  {
    if a.priority.score == b.priority.score then a.updated > b.updated
    else a.priority.score > b.priority.score
  }

  lemma RankBeforeIsStrictWeakOrder()
    ensures StrictWeakOrder(RankBefore)
  {
    forall a: Ranked, b: Ranked, c: Ranked | !RankBefore(a, b) && !RankBefore(b, c)
      ensures !RankBefore(a, c)
    {
    }
  }

  /** Score descending, and update time descending among equal scores. */
  ghost predicate Descending(s: seq<Ranked>)
  {
    forall i, j :: 0 <= i < j < |s| ==>
      s[i].priority.score > s[j].priority.score
      || (s[i].priority.score == s[j].priority.score && s[i].updated >= s[j].updated)
  }

  /** Same score and same update time: the items the sort may not reorder. */
  function SameRank(k: Ranked): Ranked -> bool
  {
    (y: Ranked) => y.priority.score == k.priority.score && y.updated == k.updated
  }

  /** `sort.SliceStable` with `RankBefore`. */
  function SortByPriority(items: seq<Ranked>): (r: seq<Ranked>)
    ensures multiset(r) == multiset(items)
    ensures Descending(r)
  {
    RankBeforeIsStrictWeakOrder();
    SortSorted(items, RankBefore);
    SortBy(items, RankBefore)
  }

  /** Stability: items of the same score and update time come out in their
      input order. */
  lemma SortByPriorityStable(items: seq<Ranked>, k: Ranked)
    ensures Select(SortByPriority(items), SameRank(k)) == Select(items, SameRank(k))
  {
    var sorted := SortByPriority(items);
    assert Select(sorted, TiedWith(RankBefore, k)) == Select(items, TiedWith(RankBefore, k)) by {
      RankBeforeIsStrictWeakOrder();
      SortStable(items, RankBefore, k);
    }
    SameRankIsTied(k);
    SelectSameTest(sorted, SameRank(k), TiedWith(RankBefore, k));
    SelectSameTest(items, SameRank(k), TiedWith(RankBefore, k));
  }

  /** Ties under the sort's order are exactly equal score and update time. */
  lemma SameRankIsTied(k: Ranked)
    ensures forall y :: SameRank(k)(y) == TiedWith(RankBefore, k)(y)
  {
    forall y
      ensures SameRank(k)(y) == TiedWith(RankBefore, k)(y)
    {
      assert TiedWith(RankBefore, k)(y) == (!RankBefore(y, k) && !RankBefore(k, y));
    }
  }

  /** The level filter: a blank or "all" query keeps everything; any other
      query keeps the items whose level, lower-cased, equals the trimmed,
      lower-cased query. */
  function FilterByLevel(items: seq<Ranked>, query: string): (r: seq<Ranked>)
    ensures Key(query) == "" || Key(query) == "all" ==> r == items
    ensures IsSubsequence(r, items)
    ensures Key(query) != "" && Key(query) != "all" ==>
      forall x :: multiset(r)[x] == if ToLower(x.priority.level.Name()) == Key(query) then multiset(items)[x] else 0
  {
    var key := Key(query);
    if key == "" || key == "all" then
      SelectAll(items, _ => true);
      SelectIsSubsequence(items, _ => true);
      items
    else
      var keep := (x: Ranked) => ToLower(x.priority.level.Name()) == key;
      SelectIsSubsequence(items, keep);
      SelectMultiset(items, keep);
      Select(items, keep)
  }

  lemma LevelNameIsLower(l: Level)
    ensures ToLower(l.Name()) == l.Name()
  {
    ToLowerNoCapitals(l.Name());
  }

  /** Asking for a level by name, in any ASCII case and with any surrounding
      space, keeps exactly the items of that level. */
  lemma FilterByLevelName(items: seq<Ranked>, query: string, level: Level)
    requires Key(query) == level.Name()
    ensures forall x :: multiset(FilterByLevel(items, query))[x] == if x.priority.level == level then multiset(items)[x] else 0
  {
    forall x: Ranked
      ensures (ToLower(x.priority.level.Name()) == level.Name()) == (x.priority.level == level)
    {
      LevelNameIsLower(x.priority.level);
    }
  }

  /** A query that names no level (and is not blank or "all") keeps
      nothing. */
  lemma FilterByUnknownLevel(items: seq<Ranked>, query: string)
    requires Key(query) != "" && Key(query) != "all"
    requires forall l: Level :: Key(query) != l.Name()
    ensures FilterByLevel(items, query) == []
  {
    var r := FilterByLevel(items, query);
    forall x: Ranked
      ensures ToLower(x.priority.level.Name()) != Key(query)
    {
      LevelNameIsLower(x.priority.level);
    }
    assert multiset(r) == multiset{};
  }

  /** The `limit` rule: a query that parses as an integer n with
      0 < n < len truncates to n; anything else keeps all `n` items. */
  function Limit(query: string, n: nat): (l: nat)
    ensures l <= n
    ensures l < n <==> Atoi(TrimSpace(query)).Some? && 0 < Atoi(TrimSpace(query)).value < n
    ensures l < n ==> l == Atoi(TrimSpace(query)).value
  {
    var q := TrimSpace(query);
    if q == "" then n
    else match Atoi(q)
      case Some(v) => if 0 < v < n then v else n
      case None => n
  }

  /** The response of `/v1/priority`: the number of items that passed the
      level filter, and the first `limit` of them in priority order. */
  datatype PriorityPage = PriorityPage(count: nat, items: seq<Ranked>)

  /** Level filter, stable sort, limit. */
  function PriorityView(ranked: seq<Ranked>, levelQuery: string, limitQuery: string): (page: PriorityPage)
    ensures page.count == |FilterByLevel(ranked, levelQuery)|
    ensures |page.items| == Limit(limitQuery, page.count)
    ensures Descending(page.items)
    ensures page.items == SortByPriority(FilterByLevel(ranked, levelQuery))[..|page.items|]
    ensures forall x :: x in page.items ==> x in FilterByLevel(ranked, levelQuery)
  {
    var filtered := FilterByLevel(ranked, levelQuery);
    var l := Limit(limitQuery, |filtered|);
    SortedPrefix(filtered, l);
    PriorityPage(|filtered|, SortByPriority(filtered)[..l])
  }

  /** A prefix of the sorted list is still in order and holds only input
      items. */
  lemma SortedPrefix(items: seq<Ranked>, l: nat)
    requires l <= |items|
    ensures Descending(SortByPriority(items)[..l])
    ensures forall x :: x in SortByPriority(items)[..l] ==> x in items
  {
    var sorted := SortByPriority(items);
    forall x | x in sorted[..l]
      ensures x in items
    {
      assert x in multiset(sorted);
    }
  }

  /** Without a level or a limit the page holds every ranked record. */
  lemma ViewKeepsAll(ranked: seq<Ranked>, levelQuery: string, limitQuery: string)
    requires Key(levelQuery) == "" || Key(levelQuery) == "all"
    requires Atoi(TrimSpace(limitQuery)).None?
    ensures multiset(PriorityView(ranked, levelQuery, limitQuery).items) == multiset(ranked)
  {
    var sorted := SortByPriority(ranked);
    assert FilterByLevel(ranked, levelQuery) == ranked;
    assert PriorityView(ranked, levelQuery, limitQuery).items == sorted[..|sorted|];
    assert sorted[..|sorted|] == sorted;
  }

  /** Only a query that parses to a number in (0, count) shortens the page;
      the reported count never depends on the limit. */
  lemma LimitOnlyTruncates(ranked: seq<Ranked>, levelQuery: string, a: string, b: string)
    ensures PriorityView(ranked, levelQuery, a).count == PriorityView(ranked, levelQuery, b).count
    ensures |PriorityView(ranked, levelQuery, a).items| <= |PriorityView(ranked, levelQuery, b).items|
        ==> PriorityView(ranked, levelQuery, a).items <= PriorityView(ranked, levelQuery, b).items
  {
  }

  /** Each record paired with its severity and its most recent update. */
  function RankEach(items: seq<DataItem>, score: LocationProperty -> Severity,
                    rfc3339: string -> Option<Instant>): (ranked: seq<Ranked>)
    ensures |ranked| == |items|
    ensures forall i :: 0 <= i < |items| ==> ranked[i].item == items[i]
    ensures forall x :: x in ranked ==>
      x.priority == score(x.item.location.properties) && x.updated == MostRecentUpdate(x.item, rfc3339)
  {
    seq(|items|, i requires 0 <= i < |items| =>
      Ranked(items[i], score(items[i].location.properties), MostRecentUpdate(items[i], rfc3339)))
  }

  /** Every item on a page was among the ranked records. */
  lemma ViewMembers(ranked: seq<Ranked>, levelQuery: string, limitQuery: string)
    ensures forall x :: x in PriorityView(ranked, levelQuery, limitQuery).items ==> x in ranked
  {
    FilterByLevelMembers(ranked, levelQuery);
  }

  lemma FilterByLevelMembers(items: seq<Ranked>, query: string)
    ensures forall x :: x in FilterByLevel(items, query) ==> x in items
  {
    forall x | x in FilterByLevel(items, query)
      ensures x in items
    {
      assert x in multiset(FilterByLevel(items, query));
    }
  }

  /** The records a ranked list carries, in order. */
  function ItemsOf(ranked: seq<Ranked>): (items: seq<DataItem>)
    ensures |items| == |ranked|
    ensures forall i :: 0 <= i < |ranked| ==> items[i] == ranked[i].item
  {
    seq(|ranked|, i requires 0 <= i < |ranked| => ranked[i].item)
  }

  /** The two tests a record passes to be ranked. */
  function Passes(allow: string -> bool, inRegion: DataItem -> bool): DataItem -> bool
  {
    Both(ProvinceTest(allow), inRegion)
  }

  /** The records the handler ranks: those whose province passes `allow`
      (`isSouthernProvince` in the handler), then the region test (the
      floating-point polygon, a parameter here), each paired with its
      severity and its most recent update. Every record that passes both
      tests is kept, as often as it occurs and in input order. The handler
      scores with `Calculate` at the request's clock; `score` stands for
      that. */
  function Candidates(
    items: seq<DataItem>, allow: string -> bool, inRegion: DataItem -> bool,
    score: LocationProperty -> Severity, rfc3339: string -> Option<Instant>): (ranked: seq<Ranked>)
    ensures |ranked| <= |items|
    ensures IsSubsequence(ItemsOf(ranked), items)
    ensures forall x :: multiset(ItemsOf(ranked))[x]
                     == if allow(Key(Province(x))) && inRegion(x) then multiset(items)[x] else 0
    ensures forall x :: x in ranked ==>
      && x.priority == score(x.item.location.properties)
      && x.updated == MostRecentUpdate(x.item, rfc3339)
  {
    var region := Select(FilterItemsByProvince(items, allow), inRegion);
    var ranked := RankEach(region, score, rfc3339);
    CandidateItems(items, allow, inRegion, score, rfc3339);
    ranked
  }

  /** The records the candidates carry are one selection of the input. */
  lemma CandidateItems(
    items: seq<DataItem>, allow: string -> bool, inRegion: DataItem -> bool,
    score: LocationProperty -> Severity, rfc3339: string -> Option<Instant>)
    ensures var ranked := RankEach(Select(FilterItemsByProvince(items, allow), inRegion), score, rfc3339);
      && IsSubsequence(ItemsOf(ranked), items)
      && forall x :: multiset(ItemsOf(ranked))[x]
                   == if allow(Key(Province(x))) && inRegion(x) then multiset(items)[x] else 0
  {
    var region := Select(FilterItemsByProvince(items, allow), inRegion);
    RankedItems(region, score, rfc3339);
    RegionIsSelection(items, allow, inRegion);
    SelectIsSubsequence(items, Passes(allow, inRegion));
    SelectMultiset(items, Passes(allow, inRegion));
    PassesIsBoth(allow, inRegion);
  }

  lemma RankedItems(region: seq<DataItem>, score: LocationProperty -> Severity, rfc3339: string -> Option<Instant>)
    ensures ItemsOf(RankEach(region, score, rfc3339)) == region
  {
  }

  /** The province filter followed by the region filter is one selection. */
  lemma RegionIsSelection(items: seq<DataItem>, allow: string -> bool, inRegion: DataItem -> bool)
    ensures Select(FilterItemsByProvince(items, allow), inRegion) == Select(items, Passes(allow, inRegion))
  {
    assert FilterItemsByProvince(items, allow) == Select(items, ProvinceTest(allow));
    SelectSelect(items, ProvinceTest(allow), inRegion);
  }

  lemma PassesIsBoth(allow: string -> bool, inRegion: DataItem -> bool)
    ensures forall x :: Passes(allow, inRegion)(x) == (allow(Key(Province(x))) && inRegion(x))
  {
  }

  /** A ranked record's item passed both tests and came from the input. */
  lemma CandidateMember(
    items: seq<DataItem>, allow: string -> bool, inRegion: DataItem -> bool,
    score: LocationProperty -> Severity, rfc3339: string -> Option<Instant>, x: Ranked)
    requires x in Candidates(items, allow, inRegion, score, rfc3339)
    ensures x.item in items && allow(Key(Province(x.item))) && inRegion(x.item)
  {
    var ranked := Candidates(items, allow, inRegion, score, rfc3339);
    var i :| 0 <= i < |ranked| && ranked[i] == x;
    assert ItemsOf(ranked)[i] == x.item;
    assert x.item in multiset(ItemsOf(ranked));
  }

  /** Every item on the page of a candidate list came from the input,
      passed both tests, and carries its own severity and update time. */
  lemma PageMembers(
    items: seq<DataItem>, allow: string -> bool, inRegion: DataItem -> bool,
    score: LocationProperty -> Severity, rfc3339: string -> Option<Instant>,
    levelQuery: string, limitQuery: string)
    ensures forall x :: x in PriorityView(Candidates(items, allow, inRegion, score, rfc3339), levelQuery, limitQuery).items ==>
      && x.item in items
      && allow(Key(Province(x.item)))
      && inRegion(x.item)
      && x.priority == score(x.item.location.properties)
      && x.updated == MostRecentUpdate(x.item, rfc3339)
  {
    var ranked := Candidates(items, allow, inRegion, score, rfc3339);
    ViewMembers(ranked, levelQuery, limitQuery);
    forall x | x in PriorityView(ranked, levelQuery, limitQuery).items
      ensures x.item in items && allow(Key(Province(x.item))) && inRegion(x.item)
    {
      CandidateMember(items, allow, inRegion, score, rfc3339, x);
    }
  }

  /** Without a level or a limit, every input item that passes both tests
      is on the page of the candidate list. */
  lemma PageComplete(
    items: seq<DataItem>, allow: string -> bool, inRegion: DataItem -> bool,
    score: LocationProperty -> Severity, rfc3339: string -> Option<Instant>,
    levelQuery: string, limitQuery: string, x: DataItem)
    requires Key(levelQuery) == "" || Key(levelQuery) == "all"
    requires Atoi(TrimSpace(limitQuery)).None?
    requires x in items && allow(Key(Province(x))) && inRegion(x)
    ensures exists r :: r in PriorityView(Candidates(items, allow, inRegion, score, rfc3339), levelQuery, limitQuery).items
                     && r.item == x
  {
    var ranked := Candidates(items, allow, inRegion, score, rfc3339);
    var r := CandidateOf(items, allow, inRegion, score, rfc3339, x);
    ViewKeepsAll(ranked, levelQuery, limitQuery);
    assert r in multiset(PriorityView(ranked, levelQuery, limitQuery).items);
  }

  /** The candidate that carries an input item passing both tests. */
  lemma CandidateOf(
    items: seq<DataItem>, allow: string -> bool, inRegion: DataItem -> bool,
    score: LocationProperty -> Severity, rfc3339: string -> Option<Instant>, x: DataItem) returns (r: Ranked)
    requires x in items && allow(Key(Province(x))) && inRegion(x)
    ensures r in Candidates(items, allow, inRegion, score, rfc3339) && r.item == x
  {
    var ranked := Candidates(items, allow, inRegion, score, rfc3339);
    assert x in multiset(items);
    assert x in multiset(ItemsOf(ranked));
    var i :| 0 <= i < |ranked| && ItemsOf(ranked)[i] == x;
    r := ranked[i];
  }

  /** The whole handler after `GetSOS`: the southern candidates in the
      region, then the level filter, the sort and the limit. The reported
      count is the number of candidates at the requested level. */
  function Prioritize(
    items: seq<DataItem>, levelQuery: string, limitQuery: string, inRegion: DataItem -> bool,
    score: LocationProperty -> Severity, rfc3339: string -> Option<Instant>): (page: PriorityPage)
    ensures page.count == |FilterByLevel(Candidates(items, IsSouthernProvince, inRegion, score, rfc3339), levelQuery)|
    ensures page.count <= |items|
    ensures forall x :: x in page.items ==>
      && x.item in items
      && IsSouthernProvince(Province(x.item))
      && inRegion(x.item)
      && x.priority == score(x.item.location.properties)
      && x.updated == MostRecentUpdate(x.item, rfc3339)
  {
    var ranked := Candidates(items, IsSouthernProvince, inRegion, score, rfc3339);
    PageMembers(items, IsSouthernProvince, inRegion, score, rfc3339, levelQuery, limitQuery);
    forall x: DataItem
      ensures IsSouthernProvince(Key(Province(x))) == IsSouthernProvince(Province(x))
    {
      SouthernByKey(Province(x));
    }
    PriorityView(ranked, levelQuery, limitQuery)
  }

  /** Without a level or a limit, every southern record in the region is
      on the page. */
  lemma PrioritizeKeepsEverySouthernItem(
    items: seq<DataItem>, levelQuery: string, limitQuery: string, inRegion: DataItem -> bool,
    score: LocationProperty -> Severity, rfc3339: string -> Option<Instant>, x: DataItem)
    requires Key(levelQuery) == "" || Key(levelQuery) == "all"
    requires Atoi(TrimSpace(limitQuery)).None?
    requires x in items && IsSouthernProvince(Province(x)) && inRegion(x)
    ensures exists r :: r in Prioritize(items, levelQuery, limitQuery, inRegion, score, rfc3339).items && r.item == x
  {
    SouthernByKey(Province(x));
    PageComplete(items, IsSouthernProvince, inRegion, score, rfc3339, levelQuery, limitQuery, x);
  }
}
