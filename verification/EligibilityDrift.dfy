// The nested per-city counters of the route-eligibility drift report
// (scripts/audit_route_eligibility_drift.py).
module EligibilityDrift {

  /** collections.Counter: a missing key counts zero. */
  type Counter = map<string, nat>

  function Count(c: Counter, key: string): nat { if key in c then c[key] else 0 }

  function Incremented(c: Counter, key: string): Counter { c[key := Count(c, key) + 1] }

  datatype Verdict = Verdict(eligible: bool, reasons: seq<string>)

  /** A place's city_id: absent or None, or a number with its decimal text. */
  datatype CityId = NoCity | CityId(id: int, text: string)

  datatype Place = Place(city: CityId, verdict: Verdict)

  /** str(city_id or "unknown") */
  function CityKey(p: Place): (key: string)
    ensures p.city.NoCity? ==> key == "unknown"
    ensures p.city.CityId? ==> key == if p.city.id != 0 then p.city.text else "unknown"
  {
    if p.city.NoCity? || p.city.id == 0 then "unknown" else p.city.text
  }

  const ELIGIBLE := "eligible"
  const EXCLUDED := "excluded"

  const UNKNOWN_CATEGORY := "unknown_category"

  datatype Report = Report(eligible: nat, excluded: nat, unknown: nat, reasons: Counter, byCity: map<string, Counter>)

  const NOTHING := Report(0, 0, 0, map[], map[])

  // ---- Sums over maps --------------------------------------------------------

  ghost function Sum(m: map<string, int>): int
    decreases |m|
  {
    if m == map[] then 0 else var k :| k in m; m[k] + Sum(m - {k})
  }

  lemma {:induction false} SumWithout(m: map<string, int>, k: string)
    requires k in m
    ensures Sum(m) == m[k] + Sum(m - {k})
    decreases |m|
  {
    var first :| first in m && Sum(m) == m[first] + Sum(m - {first});
    if first != k {
      SumWithout(m - {first}, k);
      SumWithout(m - {k}, first);
      assert m - {first} - {k} == m - {k} - {first};
    }
  }

  lemma SumUpdated(m: map<string, int>, k: string, v: int)
    ensures Sum(m[k := v]) == Sum(m) + v - (if k in m then m[k] else 0)
  {
    SumWithout(m[k := v], k);
    if k in m {
      SumWithout(m, k);
      assert m[k := v] - {k} == m - {k};
    } else {
      assert m[k := v] - {k} == m;
    }
  }

  /** by_city is a defaultdict(Counter). */
  function CityCounter(byCity: map<string, Counter>, city: string): Counter {
    if city in byCity then byCity[city] else map[]
  }

  ghost function CitySums(byCity: map<string, Counter>): map<string, int> {
    map c | c in byCity :: Sum(CityCounter(byCity, c))
  }

  /** All the counters of all the cities. */
  ghost function Total(byCity: map<string, Counter>): int { Sum(CitySums(byCity)) }

  /** One key's counters over all the cities. */
  ghost function Column(byCity: map<string, Counter>, key: string): int {
    Sum(map c | c in byCity :: Count(CityCounter(byCity, c), key))
  }

  function Marked(byCity: map<string, Counter>, city: string, key: string): map<string, Counter> {
    byCity[city := Incremented(CityCounter(byCity, city), key)]
  }

  lemma MarkedCitySums(byCity: map<string, Counter>, city: string, key: string)
    ensures var after := Marked(byCity, city, key);
            CitySums(after) == CitySums(byCity)[city := Sum(after[city])]
  {
    var after := Marked(byCity, city, key);
    forall c | c in byCity && c != city ensures CityCounter(after, c) == CityCounter(byCity, c) {
    }
  }

  lemma MarkedTotal(byCity: map<string, Counter>, city: string, key: string)
    ensures Total(Marked(byCity, city, key)) == Total(byCity) + 1
  {
    var counter := CityCounter(byCity, city);
    MarkedCitySums(byCity, city, key);
    SumUpdated(CitySums(byCity), city, Sum(Marked(byCity, city, key)[city]));
    SumUpdated(counter, key, Count(counter, key) + 1);
  }

  lemma MarkedColumn(byCity: map<string, Counter>, city: string, key: string, column: string)
    ensures Column(Marked(byCity, city, key), column) == Column(byCity, column) + (if key == column then 1 else 0)
  {
    var after := Marked(byCity, city, key);
    var counts: map<string, int> := map c | c in byCity :: Count(CityCounter(byCity, c), column);
    assert (map c | c in after :: Count(CityCounter(after, c), column)) == counts[city := Count(after[city], column)];
    SumUpdated(counts, city, Count(after[city], column));
  }

  lemma MarkTwice(byCity: map<string, Counter>, city: string, first: string, second: string)
    ensures var after := Marked(Marked(byCity, city, first), city, second);
            && Total(after) == Total(byCity) + 2
            && forall column :: Column(after, column) == Column(byCity, column)
                 + (if first == column then 1 else 0) + (if second == column then 1 else 0)
  {
    var once := Marked(byCity, city, first);
    MarkedTotal(byCity, city, first);
    MarkedTotal(once, city, second);
    forall column ensures Column(Marked(once, city, second), column) == Column(byCity, column)
                 + (if first == column then 1 else 0) + (if second == column then 1 else 0)
    {
      MarkedColumn(byCity, city, first, column);
      MarkedColumn(once, city, second, column);
    }
  }

  // ---- What is counted -------------------------------------------------------

  function VerdictName(v: Verdict): string { if v.eligible then ELIGIBLE else EXCLUDED }

  /** verdict.reasons[:1] or ("eligible",) */
  function FirstReason(v: Verdict): string { if v.reasons == [] then ELIGIBLE else v.reasons[0] }

  /** Ways to tell verdicts apart: by their name, by the word their first reason
      is counted under, by having no reason, by their actual first reason code,
      by having a reason. */
  datatype What =
    | IsEligible(eligible: bool)
    | Named(name: string)
    | FirstNamed(name: string)
    | NoReason
    | FirstCode(name: string)
    | HasReason(name: string)

  predicate Counts(what: What, v: Verdict) {
    match what
    case IsEligible(e) => v.eligible == e
    case Named(name) => VerdictName(v) == name
    case FirstNamed(name) => FirstReason(v) == name
    case NoReason => v.reasons == []
    case FirstCode(name) => v.reasons != [] && v.reasons[0] == name
    case HasReason(name) => name in v.reasons
  }

  ghost function Tally(places: seq<Place>, what: What): nat {
    if places == [] then 0
    else Tally(places[..|places| - 1], what) + (if Counts(what, places[|places| - 1].verdict) then 1 else 0)
  }

  ghost function ReasonTotal(places: seq<Place>): nat {
    if places == [] then 0 else ReasonTotal(places[..|places| - 1]) + |places[|places| - 1].verdict.reasons|
  }

  ghost predicate Balanced(places: seq<Place>, report: Report) {
    && report.eligible == Tally(places, IsEligible(true))
    && report.excluded == Tally(places, IsEligible(false))
    && report.unknown == Tally(places, HasReason(UNKNOWN_CATEGORY))
    && Sum(report.reasons) == ReasonTotal(places)
    && Total(report.byCity) == 2 * |places|
  }

  ghost predicate ColumnsTallied(places: seq<Place>, byCity: map<string, Counter>) {
    forall name {:trigger Column(byCity, name)} ::
      Column(byCity, name) == Tally(places, Named(name)) + Tally(places, FirstNamed(name))
  }

  /** What the counters add up to. Each column over all cities counts the places
      with that verdict plus the places with that first reason. */
  ghost predicate Conserved(places: seq<Place>, report: Report) {
    Balanced(places, report) && ColumnsTallied(places, report.byCity)
  }

  // ---- Which counter is whose ------------------------------------------------

  /** The places of one city that are counted as `what`. */
  ghost function TallyIn(places: seq<Place>, city: string, what: What): nat {
    if places == [] then 0 else
    var last := places[|places| - 1];
    TallyIn(places[..|places| - 1], city, what) + (if CityKey(last) == city && Counts(what, last.verdict) then 1 else 0)
  }

  /** How often a reason is given, over all places. */
  ghost function Occurrences(places: seq<Place>, reason: string): nat {
    if places == [] then 0
    else Occurrences(places[..|places| - 1], reason) + multiset(places[|places| - 1].verdict.reasons)[reason]
  }

  /** What a city's counter for one name holds. */
  ghost function Expected(places: seq<Place>, city: string, name: string): nat {
    TallyIn(places, city, Named(name)) + TallyIn(places, city, FirstNamed(name))
  }

  ghost predicate CitiesCounted(places: seq<Place>, byCity: map<string, Counter>) {
    forall c, k :: Count(CityCounter(byCity, c), k) == Expected(places, c, k)
  }

  ghost predicate ReasonsCounted(places: seq<Place>, reasons: Counter) {
    forall x :: Count(reasons, x) == Occurrences(places, x)
  }

  /** A counter appears only once something has been counted in it. */
  ghost predicate NoZeros(c: Counter) { forall k :: k in c ==> c[k] > 0 }

  ghost predicate NoIdleCities(byCity: map<string, Counter>) {
    forall c :: c in byCity ==> byCity[c] != map[] && NoZeros(byCity[c])
  }

  ghost predicate NoIdleEntries(report: Report) { NoZeros(report.reasons) && NoIdleCities(report.byCity) }

  /** Every single counter of the report. */
  ghost predicate EachCounted(places: seq<Place>, report: Report) {
    && CitiesCounted(places, report.byCity)
    && ReasonsCounted(places, report.reasons)
    && NoIdleEntries(report)
  }

  /** The place belongs to the city the report shows under this key. */
  ghost predicate Of(p: Place, city: string) {
    if p.city.CityId? && p.city.id != 0 then city == p.city.text else city == "unknown"
  }

  /** What a city's counter for a name counts: by verdict, and by first reason. */
  ghost predicate VerdictShown(p: Place, city: string, name: string) {
    Of(p, city) && name == if p.verdict.eligible then "eligible" else "excluded"
  }

  ghost predicate FirstReasonShown(p: Place, city: string, name: string) {
    Of(p, city) && name == if p.verdict.reasons == [] then "eligible" else p.verdict.reasons[0]
  }

  ghost function VerdictAt(places: seq<Place>, city: string, name: string): set<int> {
    set i | 0 <= i < |places| && VerdictShown(places[i], city, name)
  }

  ghost function FirstReasonAt(places: seq<Place>, city: string, name: string): set<int> {
    set i | 0 <= i < |places| && FirstReasonShown(places[i], city, name)
  }

  lemma OneMore(before: set<int>, all: set<int>, n: int, here: bool)
    requires n !in before && forall i :: i in all <==> (i in before || (here && i == n))
    ensures |all| == |before| + (if here then 1 else 0)
  {
    var expected := if here then before + {n} else before;
    forall i ensures i in all <==> i in expected {
      assert i in all <==> (i in before || (here && i == n));
    }
    assert all == expected;
  }

  lemma {:induction false} VerdictTally(places: seq<Place>, city: string, name: string)
    ensures TallyIn(places, city, Named(name)) == |VerdictAt(places, city, name)|
    decreases |places|
  {
    if places != [] {
      var n := |places| - 1;
      var last := places[n];
      VerdictTally(places[..n], city, name);
      forall i ensures i in VerdictAt(places, city, name)
                  <==> (i in VerdictAt(places[..n], city, name) || (VerdictShown(last, city, name) && i == n))
      {
        if 0 <= i < n { assert places[..n][i] == places[i]; }
      }
      OneMore(VerdictAt(places[..n], city, name), VerdictAt(places, city, name), n, VerdictShown(last, city, name));
      assert CityKey(last) == city && Counts(Named(name), last.verdict) <==> VerdictShown(last, city, name);
    }
  }

  lemma {:induction false} FirstReasonTally(places: seq<Place>, city: string, name: string)
    ensures TallyIn(places, city, FirstNamed(name)) == |FirstReasonAt(places, city, name)|
    decreases |places|
  {
    if places != [] {
      var n := |places| - 1;
      var last := places[n];
      FirstReasonTally(places[..n], city, name);
      forall i ensures i in FirstReasonAt(places, city, name)
                  <==> (i in FirstReasonAt(places[..n], city, name) || (FirstReasonShown(last, city, name) && i == n))
      {
        if 0 <= i < n { assert places[..n][i] == places[i]; }
      }
      OneMore(FirstReasonAt(places[..n], city, name), FirstReasonAt(places, city, name), n,
              FirstReasonShown(last, city, name));
      assert CityKey(last) == city && Counts(FirstNamed(name), last.verdict) <==> FirstReasonShown(last, city, name);
    }
  }

  /** In the report, under a city and a name: the places of that city with that
      verdict, and those with that first reason ("eligible" when they have none). */
  lemma CounterMeaning(places: seq<Place>, report: Report, city: string, name: string)
    requires EachCounted(places, report)
    ensures Count(CityCounter(report.byCity, city), name)
         == |VerdictAt(places, city, name)| + |FirstReasonAt(places, city, name)|
  {
    assert Count(CityCounter(report.byCity, city), name) == Expected(places, city, name);
    VerdictTally(places, city, name);
    FirstReasonTally(places, city, name);
  }

  lemma SameCounts(a: Counter, b: Counter)
    requires NoZeros(a) && NoZeros(b) && forall k :: Count(a, k) == Count(b, k)
    ensures a == b
  {
    forall k ensures k in a <==> k in b {
      assert Count(a, k) == Count(b, k);
    }
    forall k | k in a ensures a[k] == b[k] {
      assert Count(a, k) == Count(b, k);
    }
  }

  lemma CityEntryShared(places: seq<Place>, a: Report, b: Report, city: string)
    requires EachCounted(places, a) && EachCounted(places, b)
    ensures city in a.byCity ==> city in b.byCity && a.byCity[city] == b.byCity[city]
  {
    forall k ensures Count(CityCounter(a.byCity, city), k) == Count(CityCounter(b.byCity, city), k) {
      assert Count(CityCounter(a.byCity, city), k) == Expected(places, city, k);
      assert Count(CityCounter(b.byCity, city), k) == Expected(places, city, k);
    }
    if city in a.byCity {
      var k :| k in a.byCity[city];
      assert Count(CityCounter(b.byCity, city), k) == a.byCity[city][k] > 0;
      SameCounts(a.byCity[city], b.byCity[city]);
    }
  }

  /** The counts leave no freedom: there is one report for each list of places. */
  lemma CountersDetermined(places: seq<Place>, a: Report, b: Report)
    requires EachCounted(places, a) && EachCounted(places, b)
    ensures a.reasons == b.reasons && a.byCity == b.byCity
  {
    forall x ensures Count(a.reasons, x) == Count(b.reasons, x) {
      assert Count(a.reasons, x) == Occurrences(places, x) == Count(b.reasons, x);
    }
    SameCounts(a.reasons, b.reasons);
    forall c ensures c in a.byCity <==> c in b.byCity {
      CityEntryShared(places, a, b, c);
      CityEntryShared(places, b, a, c);
    }
    forall c | c in a.byCity ensures a.byCity[c] == b.byCity[c] {
      CityEntryShared(places, a, b, c);
    }
  }

  lemma NoColumns(byCity: map<string, Counter>, name: string)
    requires byCity == map[]
    ensures Column(byCity, name) == 0 && Total(byCity) == 0
  {
    assert (map c | c in byCity :: Count(CityCounter(byCity, c), name)) == map[];
    assert CitySums(byCity) == map[];
  }

  lemma NothingCounted(places: seq<Place>, report: Report)
    requires places == [] && report == NOTHING
    ensures Conserved(places, report)
  {
    forall name ensures Column(report.byCity, name) == Tally(places, Named(name)) + Tally(places, FirstNamed(name)) {
      NoColumns(report.byCity, name);
    }
    NoColumns(report.byCity, ELIGIBLE);
  }

  lemma TallyAdded(places: seq<Place>, place: Place, what: What)
    ensures Tally(places + [place], what) == Tally(places, what) + (if Counts(what, place.verdict) then 1 else 0)
  {
    assert (places + [place])[..|places|] == places;
  }

  /** A Counter after counting some items, in order. */
  function CountedAll(counter: Counter, items: seq<string>): Counter {
    if items == [] then counter
    else Incremented(CountedAll(counter, items[..|items| - 1]), items[|items| - 1])
  }

  lemma {:induction false} CountedAllAddsUp(counter: Counter, items: seq<string>)
    ensures Sum(CountedAll(counter, items)) == Sum(counter) + |items|
    decreases |items|
  {
    if items != [] {
      var n := |items| - 1;
      CountedAllAddsUp(counter, items[..n]);
      var before := CountedAll(counter, items[..n]);
      SumUpdated(before, items[n], Count(before, items[n]) + 1);
    }
  }

  lemma {:induction false} CountedAllCounts(counter: Counter, items: seq<string>, x: string)
    ensures Count(CountedAll(counter, items), x) == Count(counter, x) + multiset(items)[x]
    decreases |items|
  {
    if items != [] {
      var n := |items| - 1;
      CountedAllCounts(counter, items[..n], x);
      assert items == items[..n] + [items[n]];
    }
  }

  /** The report after one more place. */
  function Extended(report: Report, place: Place): Report {
    var key := CityKey(place);
    Report(
      if place.verdict.eligible then report.eligible + 1 else report.eligible,
      if place.verdict.eligible then report.excluded else report.excluded + 1,
      if UNKNOWN_CATEGORY in place.verdict.reasons then report.unknown + 1 else report.unknown,
      CountedAll(report.reasons, place.verdict.reasons),
      Marked(Marked(report.byCity, key, VerdictName(place.verdict)), key, FirstReason(place.verdict)))
  }

  lemma NamesDiffer()
    ensures ELIGIBLE != EXCLUDED
  {
    assert ELIGIBLE[1] != EXCLUDED[1];
  }

  lemma ColumnsAdded(places: seq<Place>, place: Place, report: Report)
    requires ColumnsTallied(places, report.byCity)
    ensures ColumnsTallied(places + [place], Extended(report, place).byCity)
  {
    var key, first, second := CityKey(place), VerdictName(place.verdict), FirstReason(place.verdict);
    var after := Extended(report, place).byCity;
    MarkTwice(report.byCity, key, first, second);
    forall name
      ensures Column(after, name) == Tally(places + [place], Named(name)) + Tally(places + [place], FirstNamed(name))
    {
      TallyAdded(places, place, Named(name));
      TallyAdded(places, place, FirstNamed(name));
    }
  }

  lemma BalanceKept(places: seq<Place>, place: Place, report: Report)
    requires Balanced(places, report)
    ensures Balanced(places + [place], Extended(report, place))
  {
    CountedAllAddsUp(report.reasons, place.verdict.reasons);
    MarkTwice(report.byCity, CityKey(place), VerdictName(place.verdict), FirstReason(place.verdict));
    TallyAdded(places, place, IsEligible(true));
    TallyAdded(places, place, IsEligible(false));
    TallyAdded(places, place, HasReason(UNKNOWN_CATEGORY));
    assert (places + [place])[..|places|] == places;
  }

  lemma MarkedCount(byCity: map<string, Counter>, city: string, name: string, c: string, k: string)
    ensures Count(CityCounter(Marked(byCity, city, name), c), k)
         == Count(CityCounter(byCity, c), k) + (if c == city && k == name then 1 else 0)
  {
  }

  lemma CitiesCountedAdded(places: seq<Place>, place: Place, report: Report)
    requires CitiesCounted(places, report.byCity)
    ensures CitiesCounted(places + [place], Extended(report, place).byCity)
  {
    var key, first, second := CityKey(place), VerdictName(place.verdict), FirstReason(place.verdict);
    var once := Marked(report.byCity, key, first);
    assert (places + [place])[..|places|] == places;
    forall c, k ensures Count(CityCounter(Marked(once, key, second), c), k) == Expected(places + [place], c, k) {
      assert Count(CityCounter(report.byCity, c), k) == Expected(places, c, k);
      MarkedCount(report.byCity, key, first, c, k);
      MarkedCount(once, key, second, c, k);
    }
  }

  lemma ReasonsCountedAdded(places: seq<Place>, place: Place, reasons: Counter)
    requires ReasonsCounted(places, reasons)
    ensures ReasonsCounted(places + [place], CountedAll(reasons, place.verdict.reasons))
  {
    assert (places + [place])[..|places|] == places;
    forall x ensures Count(CountedAll(reasons, place.verdict.reasons), x) == Occurrences(places + [place], x) {
      CountedAllCounts(reasons, place.verdict.reasons, x);
    }
  }

  lemma {:induction false} CountedAllNoZeros(counter: Counter, items: seq<string>)
    requires NoZeros(counter)
    ensures NoZeros(CountedAll(counter, items))
    decreases |items|
  {
    if items != [] {
      CountedAllNoZeros(counter, items[..|items| - 1]);
    }
  }

  lemma MarkedNotIdle(byCity: map<string, Counter>, city: string, name: string)
    requires NoIdleCities(byCity)
    ensures NoIdleCities(Marked(byCity, city, name))
  {
    assert name in Marked(byCity, city, name)[city];
  }

  lemma IdleEntriesAdded(place: Place, report: Report)
    requires NoIdleEntries(report)
    ensures NoIdleEntries(Extended(report, place))
  {
    var key := CityKey(place);
    CountedAllNoZeros(report.reasons, place.verdict.reasons);
    MarkedNotIdle(report.byCity, key, VerdictName(place.verdict));
    MarkedNotIdle(Marked(report.byCity, key, VerdictName(place.verdict)), key, FirstReason(place.verdict));
  }

  lemma EachCountedAdded(places: seq<Place>, place: Place, report: Report)
    requires EachCounted(places, report)
    ensures EachCounted(places + [place], Extended(report, place))
  {
    CitiesCountedAdded(places, place, report);
    ReasonsCountedAdded(places, place, report.reasons);
    IdleEntriesAdded(place, report);
  }

  lemma ConservedAdded(places: seq<Place>, place: Place, report: Report)
    requires Conserved(places, report)
    ensures Conserved(places + [place], Extended(report, place))
  {
    ColumnsAdded(places, place, report);
    BalanceKept(places, place, report);
  }

  /** Every counter is right, and so are their sums. */
  ghost predicate Accurate(places: seq<Place>, report: Report) {
    EachCounted(places, report) && Conserved(places, report)
  }

  lemma AccurateAtFirst()
    ensures Accurate([], NOTHING)
  {
    NothingCounted([], NOTHING);
  }

  lemma AccurateAdded(places: seq<Place>, place: Place, report: Report, more: seq<Place>, after: Report)
    requires Accurate(places, report) && more == places + [place] && after == Extended(report, place)
    ensures Accurate(more, after)
  {
    EachCountedAdded(places, place, report);
    ConservedAdded(places, place, report);
  }

  /** One turn of the two loops over the verdicts. */
  method CountPlace(report: Report, place: Place) returns (r: Report)
    ensures r == Extended(report, place)
  {
    var verdict, key := place.verdict, CityKey(place);
    var reasons, byCity := report.reasons, report.byCity;
    for j := 0 to |verdict.reasons|
      invariant reasons == CountedAll(report.reasons, verdict.reasons[..j])
    {
      assert verdict.reasons[..j + 1][..j] == verdict.reasons[..j];
      reasons := Incremented(reasons, verdict.reasons[j]);
    }
    assert verdict.reasons[..|verdict.reasons|] == verdict.reasons;
    byCity := Marked(byCity, key, VerdictName(verdict));
    byCity := Marked(byCity, key, FirstReason(verdict));
    var unknown := if UNKNOWN_CATEGORY in verdict.reasons then report.unknown + 1 else report.unknown;
    if verdict.eligible {
      return Report(report.eligible + 1, report.excluded, unknown, reasons, byCity);
    }
    return Report(report.eligible, report.excluded + 1, unknown, reasons, byCity);
  }

  /** build_report, without the counts over hidden place checks: every counter of
      the report is the count it stands for, and together they are conserved. */
  method BuildReport(places: seq<Place>) returns (report: Report)
    ensures Accurate(places, report)
  {
    report := NOTHING;
    ghost var done: seq<Place> := [];
    AccurateAtFirst();
    for i := 0 to |places|
      invariant |done| == i && (forall j :: 0 <= j < i ==> done[j] == places[j])
      invariant Accurate(done, report)
    {
      ghost var before, more := report, done + [places[i]];
      report := CountPlace(report, places[i]);
      AccurateAdded(done, places[i], before, more, report);
      done := more;
    }
    assert done == places;
  }

  ghost function CountedAt(places: seq<Place>, what: What): set<int> {
    set i | 0 <= i < |places| && Counts(what, places[i].verdict)
  }

  lemma {:induction false} TallyMeaning(places: seq<Place>, what: What)
    ensures Tally(places, what) == |CountedAt(places, what)|
    decreases |places|
  {
    if places != [] {
      var n := |places| - 1;
      var here := Counts(what, places[n].verdict);
      TallyMeaning(places[..n], what);
      forall i ensures i in CountedAt(places, what) <==> (i in CountedAt(places[..n], what) || (here && i == n)) {
        if 0 <= i < n { assert places[..n][i] == places[i]; }
      }
      OneMore(CountedAt(places[..n], what), CountedAt(places, what), n, here);
    }
  }

  /** The global counts of the report. */
  lemma GlobalMeaning(places: seq<Place>, report: Report)
    requires Conserved(places, report)
    ensures report.eligible == |set i | 0 <= i < |places| && places[i].verdict.eligible|
    ensures report.excluded == |set i | 0 <= i < |places| && !places[i].verdict.eligible|
    ensures report.unknown == |set i | 0 <= i < |places| && "unknown_category" in places[i].verdict.reasons|
  {
    TallyMeaning(places, IsEligible(true));
    TallyMeaning(places, IsEligible(false));
    TallyMeaning(places, HasReason(UNKNOWN_CATEGORY));
    assert (set i | 0 <= i < |places| && places[i].verdict.eligible)
        == CountedAt(places, IsEligible(true));
    assert (set i | 0 <= i < |places| && !places[i].verdict.eligible)
        == CountedAt(places, IsEligible(false));
    assert (set i | 0 <= i < |places| && "unknown_category" in places[i].verdict.reasons)
        == CountedAt(places, HasReason(UNKNOWN_CATEGORY));
  }

  lemma {:induction false} SameTally(places: seq<Place>, what: What, other: What)
    requires forall v: Verdict :: Counts(what, v) <==> Counts(other, v)
    ensures Tally(places, what) == Tally(places, other)
    decreases |places|
  {
    if places != [] {
      SameTally(places[..|places| - 1], what, other);
    }
  }

  /** Every place is counted once, as eligible or as excluded. */
  lemma {:induction false} VerdictsCoverPlaces(places: seq<Place>)
    ensures Tally(places, IsEligible(true)) + Tally(places, IsEligible(false)) == |places|
    decreases |places|
  {
    if places != [] {
      VerdictsCoverPlaces(places[..|places| - 1]);
    }
  }

  lemma {:induction false} NoneTallied(places: seq<Place>, what: What)
    ensures Tally(places, what) == 0 <==> forall p :: p in places ==> !Counts(what, p.verdict)
    decreases |places|
  {
    if places != [] {
      var n := |places| - 1;
      NoneTallied(places[..n], what);
      assert places == places[..n] + [places[n]];
      assert places[n] in places;
    }
  }

  lemma {:induction false} FirstReasonSplits(places: seq<Place>)
    ensures Tally(places, FirstNamed(ELIGIBLE))
         == Tally(places, NoReason) + Tally(places, FirstCode(ELIGIBLE))
    decreases |places|
  {
    if places != [] {
      FirstReasonSplits(places[..|places| - 1]);
    }
  }

  /** Main result: every place is counted once globally and twice per city; over all
      cities the "excluded" entries sum to the global count, and the "eligible"
      entries to the global count plus the places with no reason, exactly when no
      place's first reason code is that very word. */
  lemma ColumnsAgree(places: seq<Place>, report: Report)
    requires Conserved(places, report)
    ensures report.eligible + report.excluded == |places|
    ensures Total(report.byCity) == 2 * |places|
    ensures Column(report.byCity, EXCLUDED) == report.excluded
       <==> forall p :: p in places ==> !Counts(FirstCode(EXCLUDED), p.verdict)
    ensures Column(report.byCity, ELIGIBLE) == report.eligible + Tally(places, NoReason)
       <==> forall p :: p in places ==> !Counts(FirstCode(ELIGIBLE), p.verdict)
  {
    VerdictsCoverPlaces(places);
    NoneTallied(places, FirstNamed(EXCLUDED));
    NoneTallied(places, FirstCode(ELIGIBLE));
    FirstReasonSplits(places);
    NamesDiffer();
    SameTally(places, Named(ELIGIBLE), IsEligible(true));
    SameTally(places, Named(EXCLUDED), IsEligible(false));
    assert forall v: Verdict :: Counts(FirstNamed(EXCLUDED), v) <==> Counts(FirstCode(EXCLUDED), v);
  }

  // ---- When the columns do not agree -----------------------------------------

  /** Two places excluded for reasons an evaluator may name as it likes. */
  const MISNAMED := [Place(NoCity, Verdict(false, [EXCLUDED])), Place(NoCity, Verdict(false, [ELIGIBLE]))]

  /** With an evaluator that uses the two words as reason codes neither column
      agrees with its global count. */
  lemma ColumnsCanDisagree(report: Report)
    requires Conserved(MISNAMED, report)
    ensures Column(report.byCity, EXCLUDED) != report.excluded
    ensures Column(report.byCity, ELIGIBLE) != report.eligible + Tally(MISNAMED, NoReason)
  {
    ColumnsAgree(MISNAMED, report);
    assert MISNAMED[0] in MISNAMED && Counts(FirstCode(EXCLUDED), MISNAMED[0].verdict);
    assert MISNAMED[1] in MISNAMED && Counts(FirstCode(ELIGIBLE), MISNAMED[1].verdict);
  }

  // ---- The shipped evaluator -------------------------------------------------

  const FIXED_CODES := [
    "city_inactive", "city_not_published", "missing_city_id", "inactive", "place_status_not_active", "service_only",
    "lifecycle_not_active", "draft_or_unpublished", "not_visible_in_catalog", "route_eligible_not_true",
    "missing_coordinates", "invalid_coordinates", "generic_osm_placeholder", "unknown_category", "category_inactive",
    "non_tourist_place_layer", "not_tourist_eligible", "transport_required_scope", "non_walking_route_policy",
    "spam_poi", "duplicate_suspected", "critical_field_expired"]

  /** Reason codes that name the offending value after a colon. */
  const CODE_PREFIXES := [
    "hard_excluded_category:", "quality_tier_not_route_allowed:", "publication_status_not_route_allowed:"]

  ghost predicate ReasonCode(code: string) {
    || (exists i :: 0 <= i < |FIXED_CODES| && code == FIXED_CODES[i])
    || (exists i :: 0 <= i < |CODE_PREFIXES| && CODE_PREFIXES[i] <= code)
  }

  /** What evaluate_place_route_eligibility can return. */
  ghost predicate EvaluatorVerdict(v: Verdict) {
    (v.eligible <==> v.reasons == []) && forall i :: 0 <= i < |v.reasons| ==> ReasonCode(v.reasons[i])
  }

  lemma FixedCodesHead(i: nat)
    requires i < |FIXED_CODES|
    ensures FIXED_CODES[i] != "" && FIXED_CODES[i][0] != 'e'
  {
  }

  lemma PrefixesHead(i: nat)
    requires i < |CODE_PREFIXES|
    ensures CODE_PREFIXES[i] != "" && CODE_PREFIXES[i][0] != 'e'
  {
  }

  lemma CodeIsNoColumn(code: string)
    requires ReasonCode(code)
    ensures code != ELIGIBLE && code != EXCLUDED
  {
    if i :| 0 <= i < |FIXED_CODES| && code == FIXED_CODES[i] {
      FixedCodesHead(i);
    } else {
      var i :| 0 <= i < |CODE_PREFIXES| && CODE_PREFIXES[i] <= code;
      PrefixesHead(i);
      assert code[0] == CODE_PREFIXES[i][0];
    }
    assert ELIGIBLE[0] == 'e' && EXCLUDED[0] == 'e';
  }

  lemma {:induction false} EligibleHaveNoReason(places: seq<Place>)
    requires forall p :: p in places ==> EvaluatorVerdict(p.verdict)
    ensures Tally(places, NoReason) == Tally(places, IsEligible(true))
    decreases |places|
  {
    if places != [] {
      var n := |places| - 1;
      assert places[n] in places && forall p :: p in places[..n] ==> p in places;
      EligibleHaveNoReason(places[..n]);
    }
  }

  /** With the shipped evaluator the columns always agree: "excluded" entries sum to
      the excluded places, and "eligible" entries to twice the eligible ones. */
  lemma ShippedColumnsAgree(places: seq<Place>, report: Report)
    requires Conserved(places, report) && forall p :: p in places ==> EvaluatorVerdict(p.verdict)
    ensures Column(report.byCity, EXCLUDED) == report.excluded
    ensures Column(report.byCity, ELIGIBLE) == 2 * report.eligible
  {
    forall p | p in places
      ensures !Counts(FirstCode(EXCLUDED), p.verdict) && !Counts(FirstCode(ELIGIBLE), p.verdict)
    {
      assert EvaluatorVerdict(p.verdict);
      if p.verdict.reasons != [] { CodeIsNoColumn(p.verdict.reasons[0]); }
    }
    ColumnsAgree(places, report);
    EligibleHaveNoReason(places);
  }
}
