/** The severity scorer of priority/calculator.go: a pure function from one
    record's properties to a score in [0, 100], a level and the list of
    reasons that produced the score.

    Every contribution is a whole number, so the source's `float64` sum and
    final `math.Round` are exact and modelled with `int`. The clock and the
    RFC 3339 parser are parameters: `now` is the instant `time.Since`
    measures from. */
module Priority {
  import opened Wrappers
  import opened Text
  import opened Schema

  datatype Level = Low | Medium | High | Critical {
    /** The spelling the API reports. */
    function Name(): string
    {
      match this
      case Low => "low"
      case Medium => "medium"
      case High => "high"
      case Critical => "critical"
    }
  }

  datatype Severity = Severity(score: int, level: Level, reasons: seq<string>)

  /** The six factors, in the order `Calculate` evaluates them. */
  datatype Factor = SickLevel | Patients | RiskyAge | ChronicDisease | Recency | NoteText {
    function Rank(): nat
    {
      match this
      case SickLevel => 0
      case Patients => 1
      case RiskyAge => 2
      case ChronicDisease => 3
      case Recency => 4
      case NoteText => 5
    }
  }

  /** Why a factor fired; `Text` is the Thai sentence the API reports. */
  datatype Reason =
    | SickLevelReason(level: int)
    | PatientReason(count: int)
    | AgeReason(age: int)
    | DiseaseReason(keyword: string)
    | RecentUpdate
    | StaleUpdate
    | CriticalKeyword(keyword: string)
    | VulnerableKeyword(keyword: string)
    | ScarcityKeyword(keyword: string)
  {
    function Text(): string
    {
      match this
      case SickLevelReason(level) => "ระดับความเจ็บป่วย: " + Decimal(level)
      case PatientReason(count) => "มีผู้ป่วยจำนวน " + Decimal(count) + " คน"
      case AgeReason(age) => "อายุเสี่ยง: " + Decimal(age) + " ปี"
      case DiseaseReason(kw) => "โรคประจำตัว: " + kw
      case RecentUpdate => "อัพเดตในช่วง 24 ชั่วโมงที่ผ่านมา"
      case StaleUpdate => "ไม่มีการอัพเดตเกิน 72 ชั่วโมง"
      case CriticalKeyword(kw) => "มีคีย์เวิร์ดรุนแรง: " + kw
      case VulnerableKeyword(kw) => "มีคีย์เวิร์ดเสี่ยง: " + kw
      case ScarcityKeyword(kw) => "มีคีย์เวิร์ดต้องการความช่วยเหลือ: " + kw
    }
  }

  /** `strconv.Itoa`; every number the scorer prints is positive. */
  function Decimal(n: int): string
  {
    if n < 0 then "-" + NatToString(-n) else NatToString(n)
  }

  /** One factor that fired: its points and the reason it appends. */
  datatype Contribution = Contribution(factor: Factor, points: int, reason: Reason)

  const SevereDiseases: seq<string> :=
    ["หัวใจ", "หัวใจหยุด", "เส้นเลือด", "หลอดเลือดสมอง", "มะเร็ง", "ฟอกไต", "เครื่องช่วยหายใจ"]

  /** Note keywords of the critical tier (+12). */
  const CriticalTerms: seq<string> :=
    ["หมดสติ", "หัวใจหยุด", "วิกฤต", "ช่วยด่วน", "ฟอกไต", "หายใจไม่ออก", "เลือดออกมาก",
     "เสียเลือด", "หยุดหายใจ", "ช็อก", "ชัก", "ไม่รู้สึกตัว", "บาดเจ็บหนัก", "กระดูกหัก"]

  /** Note keywords of the vulnerability tier (+8). */
  const VulnerableTerms: seq<string> :=
    ["ติดเตียง", "พิการ", "ใกล้คลอด", "เด็กเล็ก", "ผู้สูงอายุ", "ทารกแรกเกิด"]

  /** Note keywords of the scarcity tier (+5). */
  const ScarcityTerms: seq<string> :=
    ["ขาดอาหาร", "ขาดน้ำ", "ขาดยา", "ขาดไฟ", "ติดต่อไม่ได้", "ตัดขาด", "ติดอยู่", "ไม่มีสัญญาณ", "ไฟดับ"]

  predicate NonEmptyTerms(keywords: seq<string>)
  {
    forall i :: 0 <= i < |keywords| ==> |keywords[i]| > 0
  }

  // ---------------------------------------------------------------------
  // parseAge

  /** Index of the first digit of `s`, or `|s|` when there is none. */
  function FirstDigit(s: string): (i: nat)
    ensures i <= |s|
    ensures forall k :: 0 <= k < i ==> !IsDigit(s[k])
    ensures i < |s| ==> IsDigit(s[i])
  {
    if |s| == 0 || IsDigit(s[0]) then 0 else 1 + FirstDigit(s[1..])
  }

  /** End of the run of digits that starts at `i`. */
  function RunEnd(s: string, i: nat): (j: nat)
    requires i <= |s|
    ensures i <= j <= |s|
    ensures forall k :: i <= k < j ==> IsDigit(s[k])
    ensures j < |s| ==> !IsDigit(s[j])
    decreases |s| - i
  {
    if i == |s| || !IsDigit(s[i]) then i else RunEnd(s, i + 1)
  }

  /** The first maximal run of ASCII digits in `s` (empty if none). */
  function FirstDigitRun(s: string): (run: string)
    ensures AllDigits(run)
    ensures run == "" <==> forall k :: 0 <= k < |s| ==> !IsDigit(s[k])
  {
    var i := FirstDigit(s);
    s[i..RunEnd(s, i)]
  }

  /** The rune loop of `parseAge`: digits are appended to a builder until
      the first non-digit after at least one digit. */
  method CollectDigits(val: string) returns (builder: string)
    ensures builder == FirstDigitRun(val)
  {
    builder := "";
    var i := 0;
    while i < |val|
      invariant 0 <= i <= |val|
      invariant AllDigits(builder)
      invariant builder == "" ==> forall k :: 0 <= k < i ==> !IsDigit(val[k])
      invariant builder != "" ==> FirstDigit(val) + |builder| == i && builder == val[FirstDigit(val)..i]
    {
      var r := val[i];
      if IsDigit(r) {
        builder := builder + [r];
      } else if |builder| > 0 {
        break;
      }
      i := i + 1;
    }
    if builder == "" {
      FirstDigitAt(val, |val|);
    } else {
      var f := FirstDigit(val);
      assert forall k :: f <= k < i ==> val[k] == builder[k - f];
      RunEndAt(val, f, i);
    }
  }

  /** The first digit is where the characterizing properties say it is. */
  lemma FirstDigitAt(s: string, i: nat)
    requires i <= |s|
    requires forall k :: 0 <= k < i ==> !IsDigit(s[k])
    requires i < |s| ==> IsDigit(s[i])
    ensures FirstDigit(s) == i
  {
  }

  lemma RunEndAt(s: string, i: nat, j: nat)
    requires i <= j <= |s|
    requires forall k :: i <= k < j ==> IsDigit(s[k])
    requires j < |s| ==> !IsDigit(s[j])
    ensures RunEnd(s, i) == j
  {
  }

  lemma SpaceIsNoDigit(c: char)
    requires IsSpace(c)
    ensures !IsDigit(c)
  {
  }

  /** Outside the trimmed slice there is nothing but white space, so no
      digit. */
  lemma NoDigitOutsideTrim(s: string)
    requires !IsBlank(s)
    ensures forall k :: 0 <= k < TrimStart(s) ==> !IsDigit(s[k])
    ensures forall k :: TrimEnd(s) <= k < |s| ==> !IsDigit(s[k])
  {
    forall k | 0 <= k < TrimStart(s) || TrimEnd(s) <= k < |s|
      ensures !IsDigit(s[k])
    {
      SpaceIsNoDigit(s[k]);
    }
  }

  lemma SliceOfSlice(s: string, a: nat, b: nat, f: nat, e: nat)
    requires a <= b <= |s| && f <= e <= b - a
    ensures s[a..b][f..e] == s[a + f..a + e]
  {
    var x, y := s[a..b][f..e], s[a + f..a + e];
    assert |x| == |y|;
    forall k | 0 <= k < |x|
      ensures x[k] == y[k]
    {
    }
  }

  /** A digit found in a slice with no digit to its left is the first
      digit of the whole text. */
  lemma FirstDigitInSlice(s: string, a: nat, b: nat)
    requires a <= b <= |s|
    requires forall k :: 0 <= k < a ==> !IsDigit(s[k])
    requires FirstDigit(s[a..b]) < b - a
    ensures FirstDigit(s) == a + FirstDigit(s[a..b])
  {
    var t := s[a..b];
    var f := FirstDigit(t);
    forall k | 0 <= k < a + f
      ensures !IsDigit(s[k])
    {
      if a <= k {
        assert s[k] == t[k - a];
      }
    }
    assert s[a + f] == t[f];
    FirstDigitAt(s, a + f);
  }

  /** A run ending inside a slice with no digit to its right ends at the
      same place in the whole text. */
  lemma RunEndInSlice(s: string, a: nat, b: nat, f: nat)
    requires a <= b <= |s| && f <= b - a
    requires forall k :: b <= k < |s| ==> !IsDigit(s[k])
    ensures RunEnd(s, a + f) == a + RunEnd(s[a..b], f)
  {
    var t := s[a..b];
    var e := RunEnd(t, f);
    forall k | a + f <= k < a + e
      ensures IsDigit(s[k])
    {
      assert s[k] == t[k - a];
    }
    assert a + e < b ==> s[a + e] == t[e];
    RunEndAt(s, a + f, a + e);
  }

  /** A digit-free slice between digit-free ends leaves no digit at all. */
  lemma NoDigitInSlice(s: string, a: nat, b: nat)
    requires a <= b <= |s|
    requires forall k :: 0 <= k < a ==> !IsDigit(s[k])
    requires forall k :: b <= k < |s| ==> !IsDigit(s[k])
    requires FirstDigit(s[a..b]) == b - a
    ensures FirstDigit(s) == |s|
  {
    var t := s[a..b];
    forall k | 0 <= k < |s|
      ensures !IsDigit(s[k])
    {
      if a <= k < b {
        assert s[k] == t[k - a];
      }
    }
    FirstDigitAt(s, |s|);
  }

  /** Cutting off digit-free ends does not change the first run. */
  lemma RunInSlice(s: string, a: nat, b: nat)
    requires a <= b <= |s|
    requires forall k :: 0 <= k < a ==> !IsDigit(s[k])
    requires forall k :: b <= k < |s| ==> !IsDigit(s[k])
    ensures FirstDigitRun(s[a..b]) == FirstDigitRun(s)
  {
    var t := s[a..b];
    var f := FirstDigit(t);
    if f < |t| {
      FirstDigitInSlice(s, a, b);
      RunEndInSlice(s, a, b, f);
      SliceOfSlice(s, a, b, f, RunEnd(t, f));
    } else {
      NoDigitInSlice(s, a, b);
    }
  }

  /** Trimming first does not change which digits are found, since white
      space is not a digit. */
  lemma RunIgnoresSpace(s: string)
    ensures FirstDigitRun(TrimSpace(s)) == FirstDigitRun(s)
  {
    if IsBlank(s) {
      forall k | 0 <= k < |s|
        ensures !IsDigit(s[k])
      {
        SpaceIsNoDigit(s[k]);
      }
      FirstDigitAt(s, |s|);
    } else {
      NoDigitOutsideTrim(s);
      RunInSlice(s, TrimStart(s), TrimEnd(s));
    }
  }

  lemma FirstDigitRunOfDigits(s: string)
    requires AllDigits(s)
    ensures FirstDigitRun(s) == s
  {
    if |s| > 0 {
      assert FirstDigit(s) == 0;
      assert RunEnd(s, 0) == |s|;
    }
  }

  /** `parseAge`: the value of the first run of digits anywhere in the
      text; 0 when there is none, and 0 (the `strconv.Atoi` range error)
      when the run is too large for `int`. */
  function ParseAge(val: string): (age: int)
    ensures 0 <= age <= MaxInt
    ensures FirstDigitRun(val) == "" ==> age == 0
    ensures FirstDigitRun(val) != "" && DecimalValue(FirstDigitRun(val)) <= MaxInt ==> age == DecimalValue(FirstDigitRun(val))
    ensures DecimalValue(FirstDigitRun(val)) > MaxInt ==> age == 0
  {
    RunIgnoresSpace(val);
    var t := TrimSpace(val);
    if t == "" then 0
    else
      var run := FirstDigitRun(t);
      if run == "" then 0 else Atoi(run).GetOr(0)
  }

  /** Reading back the decimal spelling of an age gives the age. */
  lemma AgeRoundTrip(n: nat)
    requires n <= MaxInt
    ensures ParseAge(NatToString(n)) == n
  {
    FirstDigitRunOfDigits(NatToString(n));
  }

  // ---------------------------------------------------------------------
  // findKeyword

  /** Keyword `i` is the first of `keywords` that occurs in `text`, both
      compared lower-cased. */
  ghost predicate IsFirstMatch(text: string, keywords: seq<string>, i: int)
  {
    && 0 <= i < |keywords|
    && Contains(ToLower(text), ToLower(keywords[i]))
    && forall j :: 0 <= j < i ==> !Contains(ToLower(text), ToLower(keywords[j]))
  }

  /** The `for` loop of `findKeyword`, over an already lower-cased text. */
  function FirstKeywordIndex(lowerText: string, keywords: seq<string>): (r: Option<nat>)
    ensures r.Some? ==> r.value < |keywords| && Contains(lowerText, ToLower(keywords[r.value]))
    ensures r.Some? ==> forall j :: 0 <= j < r.value ==> !Contains(lowerText, ToLower(keywords[j]))
    ensures r.None? ==> forall j :: 0 <= j < |keywords| ==> !Contains(lowerText, ToLower(keywords[j]))
  {
    if |keywords| == 0 then None
    else if Contains(lowerText, ToLower(keywords[0])) then Some(0)
    else match FirstKeywordIndex(lowerText, keywords[1..])
      case None => None
      case Some(i) => Some(i + 1)
  }

  /** `findKeyword`: nothing for empty text, otherwise the earliest keyword
      in list order that occurs in the text, ignoring ASCII case. */
  function FindKeyword(text: string, keywords: seq<string>): (r: Option<string>)
    ensures r.None? <==> text == "" || forall i :: 0 <= i < |keywords| ==> !Contains(ToLower(text), ToLower(keywords[i]))
    ensures r.Some? ==> text != "" && exists i :: IsFirstMatch(text, keywords, i) && keywords[i] == r.value
  {
    if text == "" then None
    else match FirstKeywordIndex(ToLower(text), keywords)
      case None => None
      case Some(i) => assert IsFirstMatch(text, keywords, i); Some(keywords[i])
  }

  /** No text makes "หัวใจหยุด" (cardiac arrest) the first severe disease
      found: "หัวใจ" (heart) comes first in the list and is a prefix of it. */
  lemma HeartShadowsCardiacArrest(text: string)
    ensures FindKeyword(text, SevereDiseases) != Some("หัวใจหยุด")
  {
    var t := ToLower(text);
    ToLowerNoCapitals(SevereDiseases[0]);
    ToLowerNoCapitals(SevereDiseases[1]);
    assert SevereDiseases[1] == SevereDiseases[0] + "หยุด";
    if Contains(t, ToLower(SevereDiseases[1])) {
      ContainsPrefix(t, SevereDiseases[0], "หยุด");
    }
    var r := FirstKeywordIndex(t, SevereDiseases);
    if r.Some? {
      assert r.value != 1;
      assert SevereDiseases[r.value] != "หัวใจหยุด";
    }
  }

  // ---------------------------------------------------------------------
  // The factors

  /** The keyword lists the scorer searches. The operations take the table
      as a parameter so that what holds for any table is proved once;
      `Table` is the one the service uses. */
  datatype KeywordTable = KeywordTable(
    diseases: seq<string>,
    critical: seq<string>,
    vulnerable: seq<string>,
    scarcity: seq<string>)

  const Table: KeywordTable := KeywordTable(SevereDiseases, CriticalTerms, VulnerableTerms, ScarcityTerms)

  function SickLevelFactor(level: int): (c: Option<Contribution>)
    ensures c.Some? <==> 1 <= level <= 4
    ensures c.Some? ==> c.value.factor == SickLevel && 15 <= c.value.points <= 55
    ensures c.Some? ==> c.value.points == (if level == 4 then 55 else if level == 3 then 45 else if level == 2 then 30 else 15)
    ensures c.Some? ==> c.value.reason == SickLevelReason(level)
  {
    match level
    case 4 => Some(Contribution(SickLevel, 55, SickLevelReason(4)))
    case 3 => Some(Contribution(SickLevel, 45, SickLevelReason(3)))
    case 2 => Some(Contribution(SickLevel, 30, SickLevelReason(2)))
    case 1 => Some(Contribution(SickLevel, 15, SickLevelReason(1)))
    case _ => None
  }

  /** A higher sickness level always scores more. */
  lemma SickLevelMonotone(a: int, b: int)
    requires 1 <= a < b <= 4
    ensures SickLevelFactor(a).value.points < SickLevelFactor(b).value.points
  {
  }

  /** The structured count, or the number of victims when that is zero. */
  function PatientCount(prop: LocationProperty): (n: int)
    ensures prop.patient != 0 ==> n == prop.patient
    ensures prop.patient == 0 ==> n == |prop.victims|
  {
    if prop.patient == 0 && |prop.victims| > 0 then |prop.victims| else prop.patient
  }

  /** Two points per patient, at most ten patients counted. */
  function PatientFactor(prop: LocationProperty): (c: Option<Contribution>)
    ensures c.Some? <==> PatientCount(prop) > 0
    ensures c.Some? ==> c.value.factor == Patients && 2 <= c.value.points <= 20
    ensures c.Some? ==> c.value.points == 2 * (if PatientCount(prop) < 10 then PatientCount(prop) else 10)
    ensures c.Some? ==> c.value.reason == PatientReason(PatientCount(prop))
  {
    var count := PatientCount(prop);
    if count > 0 then
      var weight := if count > 10 then 10 else count;
      Some(Contribution(Patients, weight * 2, PatientReason(count)))
    else None
  }

  /** Under six or at least seventy years old. */
  function AgeFactor(ages: string): (c: Option<Contribution>)
    ensures c.Some? <==> var age := ParseAge(ages); age > 0 && (age < 6 || age >= 70)
    ensures c.Some? ==> c.value.factor == RiskyAge && c.value.points == 8
    ensures c.Some? ==> c.value.reason == AgeReason(ParseAge(ages))
  {
    var age := ParseAge(ages);
    if age > 0 && (age < 6 || age >= 70) then
      Some(Contribution(RiskyAge, 8, AgeReason(age)))
    else None
  }

  function DiseaseFactor(disease: string, diseases: seq<string>): (c: Option<Contribution>)
    ensures c.Some? <==> FindKeyword(ToLower(disease), diseases).Some?
    ensures c.Some? ==> c.value.factor == ChronicDisease && c.value.points == 8
    ensures c.Some? ==> c.value.reason == DiseaseReason(FindKeyword(ToLower(disease), diseases).value)
  {
    match FindKeyword(ToLower(disease), diseases)
    case Some(kw) => Some(Contribution(ChronicDisease, 8, DiseaseReason(kw)))
    case None => None
  }

  /** "หัวใจหยุด" (cardiac arrest) is never the disease the scorer names:
      "หัวใจ" (heart) comes first in the list and is a prefix of it. */
  lemma CardiacArrestNeverReported(disease: string)
    ensures DiseaseFactor(disease, SevereDiseases).Some? ==>
      DiseaseFactor(disease, SevereDiseases).value.reason != DiseaseReason("หัวใจหยุด")
  {
    HeartShadowsCardiacArrest(ToLower(disease));
  }

  /** Recency, measured in nanoseconds between the update and `now`. Go's
      `Duration.Hours()` compares with 24 and 72 exactly as the integer
      durations do, and the saturation of `time.Since` keeps the class. */
  function RecencyFactor(updatedAt: string, now: Instant, rfc3339: string -> Option<Instant>): (c: Option<Contribution>)
    ensures c.Some? ==> c.value.factor == Recency
    ensures (c.Some? && c.value.points == 6)
        <==> ParseTimestamp(updatedAt, rfc3339).Some? && now - ParseTimestamp(updatedAt, rfc3339).value <= 24 * Hour
    ensures (c.Some? && c.value.points == -5)
        <==> ParseTimestamp(updatedAt, rfc3339).Some? && now - ParseTimestamp(updatedAt, rfc3339).value > 72 * Hour
    ensures c.Some? ==> c.value.points == 6 || c.value.points == -5
  {
    match ParseTimestamp(updatedAt, rfc3339)
    case None => None
    case Some(t) =>
      var elapsed := now - t;
      if elapsed <= 24 * Hour then Some(Contribution(Recency, 6, RecentUpdate))
      else if elapsed > 72 * Hour then Some(Contribution(Recency, -5, StaleUpdate))
      else None
  }

  /** The note tiers: critical (+12), else vulnerable (+8), else scarcity
      (+5); a lower tier is looked at only when every higher one misses. */
  function NoteFactor(other: string, table: KeywordTable): (c: Option<Contribution>)
    ensures c.Some? ==> c.value.factor == NoteText
    ensures (c.Some? && c.value.points == 12) <==> FindKeyword(ToLower(other), table.critical).Some?
    ensures (c.Some? && c.value.points == 8)
        <==> FindKeyword(ToLower(other), table.critical).None? && FindKeyword(ToLower(other), table.vulnerable).Some?
    ensures (c.Some? && c.value.points == 5)
        <==> && FindKeyword(ToLower(other), table.critical).None?
             && FindKeyword(ToLower(other), table.vulnerable).None?
             && FindKeyword(ToLower(other), table.scarcity).Some?
    ensures c.Some? ==> c.value.points in {12, 8, 5}
    ensures c.Some? && c.value.points == 12
        ==> c.value.reason == CriticalKeyword(FindKeyword(ToLower(other), table.critical).value)
    ensures c.Some? && c.value.points == 8
        ==> c.value.reason == VulnerableKeyword(FindKeyword(ToLower(other), table.vulnerable).value)
    ensures c.Some? && c.value.points == 5
        ==> c.value.reason == ScarcityKeyword(FindKeyword(ToLower(other), table.scarcity).value)
  {
    var text := ToLower(other);
    match FindKeyword(text, table.critical)
    case Some(kw) => Some(Contribution(NoteText, 12, CriticalKeyword(kw)))
    case None =>
      match FindKeyword(text, table.vulnerable)
      case Some(kw) => Some(Contribution(NoteText, 8, VulnerableKeyword(kw)))
      case None =>
        match FindKeyword(text, table.scarcity)
        case Some(kw) => Some(Contribution(NoteText, 5, ScarcityKeyword(kw)))
        case None => None
  }

  /** Mutual exclusion: once any critical keyword occurs in the note, the
      critical tier alone contributes, naming the first critical keyword in
      list order, whatever lower-tier words are there. */
  lemma CriticalTierWins(other: string, table: KeywordTable, i: nat)
    requires NonEmptyTerms(table.critical)
    requires i < |table.critical|
    requires Contains(ToLower(other), ToLower(table.critical[i]))
    ensures NoteFactor(other, table).Some? && NoteFactor(other, table).value.points == 12
    ensures exists j :: 0 <= j <= i && NoteFactor(other, table).value.reason == CriticalKeyword(table.critical[j])
  {
    var text := ToLower(other);
    var p: nat :| p <= |text| && OccursAt(text, ToLower(table.critical[i]), p);
    assert text != "";
    ToLowerIdempotent(other);
    var kw := FindKeyword(text, table.critical).value;
    var j :| IsFirstMatch(text, table.critical, j) && table.critical[j] == kw;
    assert j <= i;
  }

  /** A scarcity reason means no critical or vulnerable keyword occurs in
      the note at all. */
  lemma ScarcityOnlyWithoutHigherTiers(other: string, table: KeywordTable)
    requires NoteFactor(other, table).Some? && NoteFactor(other, table).value.points == 5
    ensures forall i :: 0 <= i < |table.critical| ==> !Contains(ToLower(other), ToLower(table.critical[i]))
    ensures forall i :: 0 <= i < |table.vulnerable| ==> !Contains(ToLower(other), ToLower(table.vulnerable[i]))
  {
    ToLowerIdempotent(other);
  }

  // ---------------------------------------------------------------------
  // The score

  /** The factors in evaluation order, `None` where one did not fire. */
  function Factors(prop: LocationProperty, now: Instant, rfc3339: string -> Option<Instant>, table: KeywordTable): (fs: seq<Option<Contribution>>)
    ensures |fs| == 6
  {
    [ SickLevelFactor(prop.sickLevelSummary),
      PatientFactor(prop),
      AgeFactor(prop.ages),
      DiseaseFactor(prop.disease, table.diseases),
      RecencyFactor(prop.updatedAt, now, rfc3339),
      NoteFactor(prop.other, table) ]
  }

  /** The contributions that fired, in order. */
  function Fired(fs: seq<Option<Contribution>>): (cs: seq<Contribution>)
    ensures |cs| <= |fs|
  {
    if |fs| == 0 then []
    else Fired(fs[..|fs| - 1]) + (if fs[|fs| - 1].Some? then [fs[|fs| - 1].value] else [])
  }

  function Points(c: Option<Contribution>): int
  {
    if c.Some? then c.value.points else 0
  }

  function SumPoints(fs: seq<Option<Contribution>>): int
  {
    if |fs| == 0 then 0 else SumPoints(fs[..|fs| - 1]) + Points(fs[|fs| - 1])
  }

  function Total(cs: seq<Contribution>): int
  {
    if |cs| == 0 then 0 else Total(cs[..|cs| - 1]) + cs[|cs| - 1].points
  }

  lemma {:induction false} TotalConcat(a: seq<Contribution>, b: seq<Contribution>)
    ensures Total(a + b) == Total(a) + Total(b)
    decreases |b|
  {
    if |b| > 0 {
      assert (a + b)[..|a + b| - 1] == a + b[..|b| - 1];
      TotalConcat(a, b[..|b| - 1]);
    } else {
      assert a + b == a;
    }
  }

  /** Summing the fired contributions is summing the points of all. */
  lemma {:induction false} TotalFired(fs: seq<Option<Contribution>>)
    ensures Total(Fired(fs)) == SumPoints(fs)
    decreases |fs|
  {
    if |fs| > 0 {
      var last := fs[|fs| - 1];
      TotalFired(fs[..|fs| - 1]);
      TotalConcat(Fired(fs[..|fs| - 1]), if last.Some? then [last.value] else []);
      if last.Some? {
        assert Total([last.value]) == last.value.points;
      }
    }
  }

  /** The reasons keep the evaluation order: ranks strictly increase. */
  lemma {:induction false} FiredInOrder(fs: seq<Option<Contribution>>)
    requires forall k :: 0 <= k < |fs| && fs[k].Some? ==> fs[k].value.factor.Rank() == k
    ensures forall i :: 0 <= i < |Fired(fs)| ==> Fired(fs)[i].factor.Rank() < |fs|
    ensures forall i, j :: 0 <= i < j < |Fired(fs)| ==> Fired(fs)[i].factor.Rank() < Fired(fs)[j].factor.Rank()
    decreases |fs|
  {
    if |fs| > 0 {
      FiredInOrder(fs[..|fs| - 1]);
    }
  }

  function Clamp(x: int): (y: int)
    ensures 0 <= y <= 100
    ensures 0 <= x <= 100 ==> y == x
    ensures x < 0 ==> y == 0
    ensures x > 100 ==> y == 100
  {
    if x < 0 then 0 else if x > 100 then 100 else x
  }

  /** Level thresholds: critical from 75, high from 55, medium from 35. */
  function LevelFor(score: int): (l: Level)
    ensures l == Critical <==> score >= 75
    ensures l == High <==> 55 <= score < 75
    ensures l == Medium <==> 35 <= score < 55
    ensures l == Low <==> score < 35
  {
    if score >= 75 then Critical
    else if score >= 55 then High
    else if score >= 35 then Medium
    else Low
  }

  /** A higher score never has a lower level. */
  lemma LevelMonotone(a: int, b: int)
    requires a <= b
    ensures LevelFor(a) == Critical ==> LevelFor(b) == Critical
    ensures LevelFor(a) == High ==> LevelFor(b) in {High, Critical}
    ensures LevelFor(a) == Medium ==> LevelFor(b) != Low
  {
  }

  function ReasonsOf(cs: seq<Contribution>): (rs: seq<string>)
    ensures |rs| == |cs|
    ensures forall i :: 0 <= i < |cs| ==> rs[i] == cs[i].reason.Text()
  {
    seq(|cs|, i requires 0 <= i < |cs| => cs[i].reason.Text())
  }

  /** The scorer over a keyword table: the clamped sum of the fired factors,
      the level of that score, and one reason per fired factor in
      evaluation order. */
  function Score(prop: LocationProperty, now: Instant, rfc3339: string -> Option<Instant>, table: KeywordTable): (r: Severity)
    ensures 0 <= r.score <= 100
    ensures r.score == Clamp(SumPoints(Factors(prop, now, rfc3339, table)))
    ensures r.level == Critical <==> r.score >= 75
    ensures r.level == High <==> 55 <= r.score < 75
    ensures r.level == Medium <==> 35 <= r.score < 55
    ensures r.level == Low <==> r.score < 35
    ensures |r.reasons| <= 6
    ensures r.reasons == ReasonsOf(Fired(Factors(prop, now, rfc3339, table)))
  {
    var fs := Factors(prop, now, rfc3339, table);
    TotalFired(fs);
    var score := Clamp(Total(Fired(fs)));
    Severity(score, LevelFor(score), ReasonsOf(Fired(fs)))
  }

  /** `Calculate`: the scorer over the service's own keyword lists. */
  function Calculate(prop: LocationProperty, now: Instant, rfc3339: string -> Option<Instant>): (r: Severity)
    ensures 0 <= r.score <= 100
    ensures |r.reasons| <= 6
  {
    Score(prop, now, rfc3339, Table)
  }

  /** Six optional contributions, each of its own factor, listed in rank
      order. */
  lemma RanksInOrder(fs: seq<Option<Contribution>>)
    requires |fs| == 6
    requires fs[0].Some? ==> fs[0].value.factor == SickLevel
    requires fs[1].Some? ==> fs[1].value.factor == Patients
    requires fs[2].Some? ==> fs[2].value.factor == RiskyAge
    requires fs[3].Some? ==> fs[3].value.factor == ChronicDisease
    requires fs[4].Some? ==> fs[4].value.factor == Recency
    requires fs[5].Some? ==> fs[5].value.factor == NoteText
    ensures forall k :: 0 <= k < |fs| && fs[k].Some? ==> fs[k].value.factor.Rank() == k
  {
  }

  /** Position k of the factor list holds the factor of rank k. */
  lemma FactorRanks(prop: LocationProperty, now: Instant, rfc3339: string -> Option<Instant>, table: KeywordTable)
    ensures var fs := Factors(prop, now, rfc3339, table);
      forall k :: 0 <= k < |fs| && fs[k].Some? ==> fs[k].value.factor.Rank() == k
  {
    RanksInOrder(Factors(prop, now, rfc3339, table));
  }

  /** The reasons follow the evaluation order sickness, patients, age,
      disease, recency, note, each factor at most once. */
  lemma ReasonsInEvaluationOrder(prop: LocationProperty, now: Instant, rfc3339: string -> Option<Instant>, table: KeywordTable)
    ensures var cs := Fired(Factors(prop, now, rfc3339, table));
      forall i, j :: 0 <= i < j < |cs| ==> cs[i].factor.Rank() < cs[j].factor.Rank()
  {
    FactorRanks(prop, now, rfc3339, table);
    FiredInOrder(Factors(prop, now, rfc3339, table));
  }

  lemma SumOfSix(fs: seq<Option<Contribution>>)
    requires |fs| == 6
    ensures SumPoints(fs) == Points(fs[0]) + Points(fs[1]) + Points(fs[2]) + Points(fs[3]) + Points(fs[4]) + Points(fs[5])
  {
    var s5, s4, s3, s2, s1 := fs[..5], fs[..4], fs[..3], fs[..2], fs[..1];
    assert s5[..4] == s4 && s4[..3] == s3 && s3[..2] == s2 && s2[..1] == s1 && s1[..0] == [];
    assert SumPoints(s1) == Points(fs[0]);
    assert SumPoints(s2) == SumPoints(s1) + Points(fs[1]);
    assert SumPoints(s3) == SumPoints(s2) + Points(fs[2]);
    assert SumPoints(s4) == SumPoints(s3) + Points(fs[3]);
    assert SumPoints(s5) == SumPoints(s4) + Points(fs[4]);
  }

  /** Before the clamp the sum lies in [-5, 109], whatever the keywords. */
  lemma RawScoreBounds(prop: LocationProperty, now: Instant, rfc3339: string -> Option<Instant>, table: KeywordTable)
    ensures -5 <= SumPoints(Factors(prop, now, rfc3339, table)) <= 109
  {
    var fs := Factors(prop, now, rfc3339, table);
    SumOfSix(fs);
    assert 0 <= Points(fs[0]) <= 55;
    assert 0 <= Points(fs[1]) <= 20;
    assert 0 <= Points(fs[2]) <= 8;
    assert 0 <= Points(fs[3]) <= 8;
    assert -5 <= Points(fs[4]) <= 6;
    assert 0 <= Points(fs[5]) <= 12;
  }

  /** "หมดสติ" (unconscious) is the first critical keyword. */
  lemma UnconsciousIsCritical()
    ensures NoteFactor("หมดสติ", Table) == Some(Contribution(NoteText, 12, CriticalKeyword("หมดสติ")))
  {
    ToLowerNoCapitals("หมดสติ");
    ContainsItself("หมดสติ");
    assert FirstKeywordIndex("หมดสติ", CriticalTerms) == Some(0);
  }

  /** "หัวใจ" (heart) is the first severe disease. */
  lemma HeartIsSevere()
    ensures DiseaseFactor("หัวใจ", SevereDiseases) == Some(Contribution(ChronicDisease, 8, DiseaseReason("หัวใจ")))
  {
    ToLowerNoCapitals("หัวใจ");
    ContainsItself("หัวใจ");
    assert FirstKeywordIndex("หัวใจ", SevereDiseases) == Some(0);
  }

  lemma EightyIsRisky()
    ensures AgeFactor("80") == Some(Contribution(RiskyAge, 8, AgeReason(80)))
  {
    AgeRoundTrip(80);
    assert NatToString(80) == "80";
  }

  /** The record of the upper clamp: unconscious, ten patients, sick level
      4, aged 80, heart disease, updated just now. */
  const Extreme: LocationProperty := LocationProperty("หมดสติ", [], 10, "", "", "", 4, "", "", "", "80", "หัวใจ", "x")

  /** A record updated at the moment of scoring is recent. */
  lemma JustUpdated(now: Instant)
    ensures RecencyFactor("x", now, _ => Some(now)) == Some(Contribution(Recency, 6, RecentUpdate))
  {
    TrimSpaceOfTrimmed("x");
  }

  /** Every factor fires at its maximum on `Extreme`. */
  lemma ExtremeFactors(now: Instant)
    ensures Factors(Extreme, now, _ => Some(now), Table) ==
      [ Some(Contribution(SickLevel, 55, SickLevelReason(4))),
        Some(Contribution(Patients, 20, PatientReason(10))),
        Some(Contribution(RiskyAge, 8, AgeReason(80))),
        Some(Contribution(ChronicDisease, 8, DiseaseReason("หัวใจ"))),
        Some(Contribution(Recency, 6, RecentUpdate)),
        Some(Contribution(NoteText, 12, CriticalKeyword("หมดสติ"))) ]
  {
    EightyIsRisky();
    UnconsciousIsCritical();
    HeartIsSevere();
    JustUpdated(now);
  }

  /** The upper clamp is reachable: a record that triggers every factor at
      its maximum sums to 109 and scores 100. */
  lemma ClampReachedAbove(now: Instant)
    ensures var r := Calculate(Extreme, now, _ => Some(now));
      SumPoints(Factors(Extreme, now, _ => Some(now), Table)) == 109 && r.score == 100 && r.level == Critical
  {
    var fs := Factors(Extreme, now, _ => Some(now), Table);
    SumOfSix(fs);
    ExtremeFactors(now);
  }

  /** The lower clamp is reachable: a record with nothing but an update
      older than 72 hours sums to -5 and scores 0. */
  lemma ClampReachedBelow(now: Instant)
    ensures var prop := LocationProperty("", [], 0, "", "", "", 0, "", "", "", "", "", "x");
      var r := Calculate(prop, now, _ => Some(now - 73 * Hour));
      SumPoints(Factors(prop, now, _ => Some(now - 73 * Hour), Table)) == -5 && r.score == 0 && r.level == Low
  {
    var prop := LocationProperty("", [], 0, "", "", "", 0, "", "", "", "", "", "x");
    var fs := Factors(prop, now, _ => Some(now - 73 * Hour), Table);
    SumOfSix(fs);
    assert FirstDigitRun("") == "";
    assert Points(fs[2]) == 0;
    assert ToLower("") == "";
    assert Points(fs[3]) == 0;
    assert Points(fs[4]) == -5;
    assert Points(fs[5]) == 0;
  }
}
