/**
 Sparkle build numbers made from calendar versions (scripts/sparkle-build.ts) and the
 check of a feed of them (scripts/release-check.ts).
 */
module SparkleFeed {
  import opened Common

  // ------------------------------------------------------------------------ decimal digits

  predicate IsDigits(s: string) {
    forall i :: 0 <= i < |s| ==> '0' <= s[i] <= '9'
  }

  /** `${n}`. */
  function Decimal(n: nat): (r: string)
    ensures r != "" && IsDigits(r)
    ensures n < 100 ==> |r| <= 2
  {
    if n < 10 then [Digit(n)] else Decimal(n / 10) + [Digit(n % 10)]
  }

  function Digit(d: nat): (c: char)
    requires d < 10
    ensures '0' <= c <= '9' && c as int - '0' as int == d
  {
    '0' + d as char
  }

  /** `text.padStart(2, "0")`. */
  function PadTwo(s: string): string {
    if |s| == 0 then "00" else if |s| == 1 then ['0'] + s else s
  }

  /** `Number(text)` of decimal digits. */
  function NumberOf(s: string): nat
    requires IsDigits(s)
    decreases |s|
  {
    if s == "" then 0 else NumberOf(s[..|s| - 1]) * 10 + (s[|s| - 1] as int - '0' as int)
  }

  lemma {:induction false} NumberOfDecimal(n: nat)
    ensures NumberOf(Decimal(n)) == n
  {
    if n >= 10 {
      NumberOfDecimal(n / 10);
      assert Decimal(n)[..|Decimal(n)| - 1] == Decimal(n / 10);
    } else {
      assert Decimal(n)[..0] == "";
    }
  }

  lemma {:induction false} NumberOfPair(s: string, a: char, b: char)
    requires IsDigits(s) && '0' <= a <= '9' && '0' <= b <= '9'
    ensures IsDigits(s + [a, b])
    ensures NumberOf(s + [a, b]) == NumberOf(s) * 100 + NumberOf([a, b])
  {
    assert s + [a, b] == s + [a] + [b] && [a, b] == "" + [a] + [b];
    NumberOfSnoc(s, a);
    NumberOfSnoc(s + [a], b);
    NumberOfSnoc("", a);
    NumberOfSnoc("" + [a], b);
  }

  lemma NumberOfSnoc(s: string, c: char)
    requires IsDigits(s) && '0' <= c <= '9'
    ensures IsDigits(s + [c]) && NumberOf(s + [c]) == NumberOf(s) * 10 + (c as int - '0' as int)
  {
    assert (s + [c])[..|s|] == s;
  }

  /** Two digits for n < 100, with a zero in front where needed. */
  lemma {:induction false} PadTwoDigits(n: nat)
    requires n < 100
    ensures var p := PadTwo(Decimal(n));
            |p| == 2 && IsDigits(p) && NumberOf(p) == n
  {
    NumberOfDecimal(n);
    var p, s := PadTwo(Decimal(n)), Decimal(n);
    if |s| == 1 {
      assert p[..1] == "0" && "0"[..0] == "" && s[..0] == "";
      assert p[1] == s[0];
    }
  }

  lemma {:induction false} AppendTwo(s: string, n: nat)
    requires n < 100 && IsDigits(s)
    ensures var t := s + PadTwo(Decimal(n));
            IsDigits(t) && NumberOf(t) == NumberOf(s) * 100 + n
  {
    PadTwoDigits(n);
    var p := PadTwo(Decimal(n));
    assert p == [p[0], p[1]];
    NumberOfPair(s, p[0], p[1]);
  }

  // ------------------------------------------------------------------------------- floors

  /** What follows the date in a version: nothing, text that ends in a number, or
      other text. */
  datatype Suffix = NoSuffix | EndsInNumber(n: nat) | OtherText

  /** A version that matches four, one or two, and one or two digits, and a suffix. */
  datatype Calver = Calver(year: nat, month: nat, day: nat, suffix: Suffix)

  predicate InFourDigits(v: Calver) {
    v.year <= 9999 && v.month <= 99 && v.day <= 99
  }

  datatype Floors = Floors(dateKey: nat, legacyFloor: nat, laneFloor: nat, lane: nat)

  function Lane(s: Suffix): (lane: nat)
    ensures lane <= 90
  {
    match s
    case NoSuffix => 90
    case EndsInNumber(n) => if n < 89 then n else 89
    case OtherText => 1
  }

  predicate IsDate(v: Calver) {
    1 <= v.month <= 12 && 1 <= v.day <= 31
  }

  /** `sparkleBuildFloorsFromShortVersion`, through the same decimal strings. */
  function SparkleBuildFloors(v: Calver): (r: Option<Floors>)
    ensures r.Some? <==> IsDate(v)
  {
    if !IsDate(v) then None
    else
      AppendTwo(Decimal(v.year), v.month);
      AppendTwo(Decimal(v.year) + PadTwo(Decimal(v.month)), v.day);
      var dateKey := NumberOf(Decimal(v.year) + PadTwo(Decimal(v.month)) + PadTwo(Decimal(v.day)));
      var lane := Lane(v.suffix);
      AppendTwo(Decimal(dateKey), lane);
      Some(Floors(dateKey, NumberOf(Decimal(dateKey) + "0"), NumberOf(Decimal(dateKey) + PadTwo(Decimal(lane))), lane))
  }

  function CanonicalSparkleBuild(v: Calver): Option<nat> {
    var f := SparkleBuildFloors(v);
    if f.Some? then Some(f.value.laneFloor) else None
  }

  /** What the digits that are strung together amount to. */
  lemma {:induction false} FloorsAreArithmetic(v: Calver)
    requires IsDate(v)
    ensures var f := SparkleBuildFloors(v).value;
            && f.dateKey == v.year * 10000 + v.month * 100 + v.day
            && f.legacyFloor == f.dateKey * 10
            && f.laneFloor == f.dateKey * 100 + f.lane
            && f.lane == Lane(v.suffix)
  {
    NumberOfDecimal(v.year);
    AppendTwo(Decimal(v.year), v.month);
    AppendTwo(Decimal(v.year) + PadTwo(Decimal(v.month)), v.day);
    var f := SparkleBuildFloors(v).value;
    NumberOfDecimal(f.dateKey);
    AppendTwo(Decimal(f.dateKey), f.lane);
    var t := Decimal(f.dateKey) + "0";
    assert t[..|t| - 1] == Decimal(f.dateKey);
  }

  /** Lexicographic order on date and lane. */
  predicate Before(v: Calver, w: Calver) {
    if v.year != w.year then v.year < w.year
    else if v.month != w.month then v.month < w.month
    else if v.day != w.day then v.day < w.day
    else Lane(v.suffix) < Lane(w.suffix)
  }

  /** Build numbers are ordered exactly as dates and lanes are, and a version without
      suffix comes after every suffixed one of its date. */
  lemma {:induction false} BuildsEmbedOrder(v: Calver, w: Calver)
    requires IsDate(v) && IsDate(w)
    ensures CanonicalSparkleBuild(v).value < CanonicalSparkleBuild(w).value <==> Before(v, w)
    ensures CanonicalSparkleBuild(v) == CanonicalSparkleBuild(w) <==>
            (v.year, v.month, v.day, Lane(v.suffix)) == (w.year, w.month, w.day, Lane(w.suffix))
    ensures w == v.(suffix := NoSuffix) && v.suffix != NoSuffix ==> Before(v, w)
  {
    BuildIsDigits(v);
    BuildIsDigits(w);
    DigitsEmbedOrder(v, w);
  }

  /** Builds of one date: the version without suffix is the greatest, a greater number
      at the end gives a greater build until the numbers reach 89, and other text counts as
      the number 1. */
  lemma {:induction false} SuffixesOrder(v: Calver, s: Suffix, n: nat, m: nat)
    requires IsDate(v)
    ensures BuildWith(v, s) < BuildWith(v, NoSuffix) <==> s != NoSuffix
    ensures BuildWith(v, EndsInNumber(n)) < BuildWith(v, EndsInNumber(m)) <==> n < m && n < 89
    ensures BuildWith(v, OtherText) == BuildWith(v, EndsInNumber(1))
  {
    BuildOfLane(v, s);
    BuildOfLane(v, NoSuffix);
    BuildOfLane(v, OtherText);
    BuildOfLane(v, EndsInNumber(n));
    BuildOfLane(v, EndsInNumber(m));
    BuildOfLane(v, EndsInNumber(1));
  }

  /** Numbers up to 89 are lanes, and the one above them is that of no suffix. */
  lemma {:induction false} NumbersAreLanes(v: Calver, n: nat)
    requires IsDate(v) && n < 90
    ensures BuildWith(v, EndsInNumber(n)) == BuildWith(v, EndsInNumber(0)) + n
    ensures BuildWith(v, NoSuffix) == BuildWith(v, EndsInNumber(0)) + 90
  {
    BuildOfLane(v, EndsInNumber(n));
    BuildOfLane(v, NoSuffix);
  }

  /** The build of a version of the same date. */
  function BuildWith(v: Calver, s: Suffix): nat
    requires IsDate(v)
  {
    CanonicalSparkleBuild(v.(suffix := s)).value
  }

  lemma {:induction false} BuildOfLane(v: Calver, s: Suffix)
    requires IsDate(v)
    ensures BuildWith(v, s) == BuildWith(v, EndsInNumber(0)) + Lane(s)
  {
    BuildIsDigits(v.(suffix := s));
    BuildIsDigits(v.(suffix := EndsInNumber(0)));
  }

  /** Date and lane as one number, two digits each. */
  function DigitsOf(v: Calver): nat {
    ((v.year * 100 + v.month) * 100 + v.day) * 100 + Lane(v.suffix)
  }

  lemma {:induction false} BuildIsDigits(v: Calver)
    requires IsDate(v)
    ensures CanonicalSparkleBuild(v) == Some(DigitsOf(v))
  {
    FloorsAreArithmetic(v);
    PairsOfDigits(v.year, v.month, v.day, Lane(v.suffix));
  }

  lemma PairsOfDigits(y: nat, m: nat, d: nat, l: nat)
    ensures ((y * 100 + m) * 100 + d) * 100 + l == (y * 10000 + m * 100 + d) * 100 + l
  {
  }

  lemma {:induction false} DigitsEmbedOrder(v: Calver, w: Calver)
    requires IsDate(v) && IsDate(w)
    ensures DigitsOf(v) < DigitsOf(w) <==> Before(v, w)
    ensures DigitsOf(v) == DigitsOf(w) <==>
            (v.year, v.month, v.day, Lane(v.suffix)) == (w.year, w.month, w.day, Lane(w.suffix))
    ensures w == v.(suffix := NoSuffix) && v.suffix != NoSuffix ==> Before(v, w)
  {
    DigitsOrder(v.year, v.month, v.day, Lane(v.suffix), w.year, w.month, w.day, Lane(w.suffix));
  }

  lemma DigitsOrder(y: nat, m: nat, d: nat, l: nat, y': nat, m': nat, d': nat, l': nat)
    requires m < 100 && d < 100 && l < 100 && m' < 100 && d' < 100 && l' < 100
    ensures ((y * 100 + m) * 100 + d) * 100 + l < ((y' * 100 + m') * 100 + d') * 100 + l' <==>
            if y != y' then y < y' else if m != m' then m < m' else if d != d' then d < d' else l < l'
    ensures ((y * 100 + m) * 100 + d) * 100 + l == ((y' * 100 + m') * 100 + d') * 100 + l' <==>
            y == y' && m == m' && d == d' && l == l'
  {
  }

  const LANE_BUILD_MIN: nat := 1_000_000_000
  const LANE_FLOOR_ADOPTION_DATE_KEY: nat := 20260227

  /** With a year of four digits, a legacy floor is below the least lane build; a lane
      floor reaches it exactly if the year is at least 1000. */
  lemma {:induction false} FloorsAreSeparated(v: Calver)
    requires IsDate(v) && InFourDigits(v)
    ensures SparkleBuildFloors(v).value.legacyFloor < LANE_BUILD_MIN
    ensures LANE_BUILD_MIN <= SparkleBuildFloors(v).value.laneFloor <==> v.year >= 1000
  {
    FloorsAreArithmetic(v);
  }

  // -------------------------------------------------------------------------------- feeds

  /** `sparkle:version` of an item. */
  datatype Build = Missing | NotNumeric(text: string) | Numeric(n: nat)

  /** An item of the feed; `version` is None if `sparkle:shortVersionString` is missing or
      is no calendar version. */
  datatype Item = Item(title: string, version: Option<Calver>, build: Build)

  datatype FeedError =
    | NoItems
    | MissingBuild(title: string)
    | NonNumericBuild(title: string, text: string)
    | BelowFloor(title: string, build: nat, lane: bool, floor: nat)

  datatype CalverItem = CalverItem(title: string, sparkleBuild: nat, floors: Floors)

  /** The item takes part in the comparison with floors. */
  predicate Dated(item: Item) {
    item.build.Numeric? && item.version.Some? && IsDate(item.version.value)
  }

  function AsCalver(item: Item): CalverItem
    requires Dated(item)
  {
    CalverItem(item.title, item.build.n, SparkleBuildFloors(item.version.value).value)
  }

  function ShapeErrors(items: seq<Item>): seq<FeedError>
    decreases |items|
  {
    if items == [] then []
    else ShapeErrors(items[..|items| - 1]) + ShapeError(items[|items| - 1])
  }

  function ShapeError(item: Item): seq<FeedError> {
    match item.build
    case Missing => [MissingBuild(item.title)]
    case NotNumeric(text) => [NonNumericBuild(item.title, text)]
    case Numeric(_) => []
  }

  function CalverItems(items: seq<Item>): seq<CalverItem>
    decreases |items|
  {
    if items == [] then []
    else
      var item := items[|items| - 1];
      CalverItems(items[..|items| - 1]) + if Dated(item) then [AsCalver(item)] else []
  }

  function Earlier(a: Option<nat>, b: nat): nat {
    if a.Some? && a.value < b then a.value else b
  }

  /** The least date of a lane build: the head of the sorted list, if there is one. */
  function ObservedAdoption(items: seq<CalverItem>): (r: Option<nat>)
    ensures r.None? <==> forall c <- items :: c.sparkleBuild < LANE_BUILD_MIN
    ensures r.Some? ==> exists c <- items :: c.sparkleBuild >= LANE_BUILD_MIN && c.floors.dateKey == r.value
    ensures forall c <- items :: c.sparkleBuild >= LANE_BUILD_MIN ==> r.Some? && r.value <= c.floors.dateKey
    decreases |items|
  {
    if items == [] then None
    else
      var n := |items| - 1;
      var before := ObservedAdoption(items[..n]);
      assert items == items[..n] + [items[n]];
      if items[n].sparkleBuild >= LANE_BUILD_MIN then Some(Earlier(before, items[n].floors.dateKey)) else before
  }

  function EffectiveAdoption(items: seq<CalverItem>): nat {
    Earlier(ObservedAdoption(items), LANE_FLOOR_ADOPTION_DATE_KEY)
  }

  predicate ExpectLane(c: CalverItem, adoption: nat) {
    c.sparkleBuild >= LANE_BUILD_MIN || c.floors.dateKey >= adoption
  }

  function Floor(c: CalverItem, adoption: nat): nat {
    if ExpectLane(c, adoption) then c.floors.laneFloor else c.floors.legacyFloor
  }

  function FloorErrors(items: seq<CalverItem>, adoption: nat): seq<FeedError>
    decreases |items|
  {
    if items == [] then []
    else FloorErrors(items[..|items| - 1], adoption) + FloorError(items[|items| - 1], adoption)
  }

  function FloorError(c: CalverItem, adoption: nat): seq<FeedError> {
    if c.sparkleBuild < Floor(c, adoption)
    then [BelowFloor(c.title, c.sparkleBuild, ExpectLane(c, adoption), Floor(c, adoption))]
    else []
  }

  function FeedErrors(items: seq<Item>): seq<FeedError> {
    var calver := CalverItems(items);
    (if items == [] then [NoItems] else []) + ShapeErrors(items) + FloorErrors(calver, EffectiveAdoption(calver))
  }

  /** `collectAppcastSparkleVersionErrors`, from the parsed items on. */
  method CollectAppcastSparkleVersionErrors(items: seq<Item>) returns (errors: seq<FeedError>)
    ensures errors == FeedErrors(items)
    ensures errors == [] <==> Acceptable(items)
  {
    errors := [];
    if |items| == 0 {
      errors := errors + [NoItems];
    }
    var shape, calverItems := CheckItems(items);
    var low := CheckFloors(calverItems, EffectiveAdoption(calverItems));
    errors := errors + shape + low;
    AcceptedIff(items);
  }

  /** The first loop: builds that are missing or no numbers, and the items to compare. */
  method CheckItems(items: seq<Item>) returns (errors: seq<FeedError>, calverItems: seq<CalverItem>)
    ensures errors == ShapeErrors(items) && calverItems == CalverItems(items)
  {
    errors, calverItems := [], [];
    for i := 0 to |items|
      invariant errors == ShapeErrors(items[..i])
      invariant calverItems == CalverItems(items[..i])
    {
      var item := items[i];
      ItemsStep(items, i);
      if item.build.Missing? {
        errors := errors + [MissingBuild(item.title)];
        continue;
      }
      if item.build.NotNumeric? {
        errors := errors + [NonNumericBuild(item.title, item.build.text)];
        continue;
      }
      if item.version.None? {
        continue;
      }
      var floors := SparkleBuildFloors(item.version.value);
      if floors.None? {
        continue;
      }
      calverItems := calverItems + [CalverItem(item.title, item.build.n, floors.value)];
    }
    TakeAll(items);
  }

  lemma {:induction false} ItemsStep(items: seq<Item>, i: nat)
    requires i < |items|
    ensures ShapeErrors(items[..i + 1]) == ShapeErrors(items[..i]) + ShapeError(items[i])
    ensures CalverItems(items[..i + 1]) == CalverItems(items[..i]) + if Dated(items[i]) then [AsCalver(items[i])] else []
  {
    TakeOneMore(items, i);
  }

  lemma {:induction false} FloorErrorsStep(items: seq<CalverItem>, i: nat, adoption: nat)
    requires i < |items|
    ensures FloorErrors(items[..i + 1], adoption) == FloorErrors(items[..i], adoption) + FloorError(items[i], adoption)
  {
    TakeOneMore(items, i);
  }

  /** The second loop: builds below their floor. */
  method CheckFloors(calverItems: seq<CalverItem>, adoption: nat) returns (errors: seq<FeedError>)
    ensures errors == FloorErrors(calverItems, adoption)
  {
    errors := [];
    for i := 0 to |calverItems|
      invariant errors == FloorErrors(calverItems[..i], adoption)
    {
      var c := calverItems[i];
      FloorErrorsStep(calverItems, i, adoption);
      var expectLaneFloor := c.sparkleBuild >= LANE_BUILD_MIN || c.floors.dateKey >= adoption;
      var floor := if expectLaneFloor then c.floors.laneFloor else c.floors.legacyFloor;
      if c.sparkleBuild < floor {
        errors := errors + [BelowFloor(c.title, c.sparkleBuild, expectLaneFloor, floor)];
      }
    }
    TakeAll(calverItems);
  }

  // ------------------------------------------------------------------- which feeds are accepted

  /** The item obeys the rules of a feed that changed to lane builds on a given date. */
  ghost predicate Obeys(item: Item, adoption: nat)
    requires Dated(item)
  {
    var c := AsCalver(item);
    if c.floors.dateKey >= adoption then c.sparkleBuild >= c.floors.laneFloor
    else c.floors.legacyFloor <= c.sparkleBuild < LANE_BUILD_MIN
  }

  ghost predicate Adopted(items: seq<Item>, adoption: nat) {
    forall item <- items :: Dated(item) ==> Obeys(item, adoption)
  }

  /** The feed is not empty, all its builds are numbers, and on some date, not after the
      official one, it changed from legacy builds to lane builds for good. */
  ghost predicate Acceptable(items: seq<Item>) {
    && items != [] && (forall item <- items :: item.build.Numeric?)
    && exists adoption: nat :: adoption <= LANE_FLOOR_ADOPTION_DATE_KEY && Adopted(items, adoption)
  }

  lemma {:induction false} NoShapeErrors(items: seq<Item>)
    ensures ShapeErrors(items) == [] <==> forall item <- items :: item.build.Numeric?
    decreases |items|
  {
    if items == [] {
    } else {
      var n := |items| - 1;
      NoShapeErrors(items[..n]);
      assert items == items[..n] + [items[n]];
    }
  }

  lemma {:induction false} CalverItemsAre(items: seq<Item>)
    ensures forall item <- items :: Dated(item) ==> AsCalver(item) in CalverItems(items)
    ensures forall c <- CalverItems(items) :: exists item <- items :: Dated(item) && AsCalver(item) == c
    decreases |items|
  {
    if items == [] {
    } else {
      var n := |items| - 1;
      CalverItemsAre(items[..n]);
      assert items == items[..n] + [items[n]];
    }
  }

  ghost predicate MeetsFloor(c: CalverItem, adoption: nat) {
    c.sparkleBuild >= Floor(c, adoption)
  }

  lemma {:induction false} NoFloorErrors(items: seq<CalverItem>, adoption: nat)
    ensures FloorErrors(items, adoption) == [] <==> forall c <- items :: MeetsFloor(c, adoption)
    decreases |items|
  {
    if items == [] {
    } else {
      var n := |items| - 1;
      NoFloorErrors(items[..n], adoption);
      assert items == items[..n] + [items[n]];
      assert MeetsFloor(items[n], adoption) <==> !(items[n].sparkleBuild < Floor(items[n], adoption));
    }
  }

  /** A feed is accepted if and only if it is acceptable. */
  lemma {:induction false} AcceptedIff(items: seq<Item>)
    ensures FeedErrors(items) == [] <==> Acceptable(items)
  {
    var calver := CalverItems(items);
    var t := EffectiveAdoption(calver);
    NoShapeErrors(items);
    NoFloorErrors(calver, t);
    if FeedErrors(items) == [] {
      MeetsThenAdopted(items, t);
    }
    if Acceptable(items) {
      var adoption: nat :| adoption <= LANE_FLOOR_ADOPTION_DATE_KEY && Adopted(items, adoption);
      AdoptedThenMeets(items, adoption);
    }
  }

  lemma {:induction false} MeetsThenAdopted(items: seq<Item>, t: nat)
    requires t == EffectiveAdoption(CalverItems(items)) && forall c <- CalverItems(items) :: MeetsFloor(c, t)
    ensures Adopted(items, t)
  {
    CalverItemsAre(items);
    forall item <- items | Dated(item)
      ensures Obeys(item, t)
    {
      assert MeetsFloor(AsCalver(item), t);
    }
  }

  lemma {:induction false} AdoptedThenMeets(items: seq<Item>, adoption: nat)
    requires adoption <= LANE_FLOOR_ADOPTION_DATE_KEY && Adopted(items, adoption)
    ensures forall c <- CalverItems(items) :: MeetsFloor(c, EffectiveAdoption(CalverItems(items)))
  {
    var t := EffectiveAdoption(CalverItems(items));
    CalverItemsAre(items);
    AdoptedEarlier(items, adoption);
    forall c <- CalverItems(items)
      ensures MeetsFloor(c, t)
    {
      var item :| item in items && Dated(item) && AsCalver(item) == c;
      ObeyingMeetsFloor(item, adoption, t);
    }
  }

  lemma {:induction false} ObeyingMeetsFloor(item: Item, adoption: nat, t: nat)
    requires Dated(item) && Obeys(item, adoption) && adoption <= t
    ensures MeetsFloor(AsCalver(item), t)
  {
    FloorsAreArithmetic(item.version.value);
  }

  /** The date derived from a feed is the latest on which it can have changed. */
  lemma {:induction false} AdoptedEarlier(items: seq<Item>, adoption: nat)
    requires adoption <= LANE_FLOOR_ADOPTION_DATE_KEY && Adopted(items, adoption)
    ensures adoption <= EffectiveAdoption(CalverItems(items))
  {
    var calver := CalverItems(items);
    CalverItemsAre(items);
    if ObservedAdoption(calver).Some? {
      var c :| c in calver && c.sparkleBuild >= LANE_BUILD_MIN && c.floors.dateKey == ObservedAdoption(calver).value;
      var item :| item in items && Dated(item) && AsCalver(item) == c;
      assert Obeys(item, adoption);
    }
  }

  /** In an accepted feed lane builds are upward closed by date: nothing dated on or
      after a lane build, or on or after the official date, is a legacy build. */
  lemma {:induction false} LaneBuildsAreUpwardClosed(items: seq<Item>, item: Item, later: Item)
    requires Dated(item) && Dated(later) && InFourDigits(later.version.value) && later.version.value.year >= 1000
    ensures FeedErrors(items) == [] && item in items && later in items && MustBeLane(item, later) ==>
              later.build.n >= AsCalver(later).floors.laneFloor >= LANE_BUILD_MIN
  {
    AcceptedIff(items);
    if FeedErrors(items) == [] && item in items && later in items {
      var adoption: nat :| adoption <= LANE_FLOOR_ADOPTION_DATE_KEY && Adopted(items, adoption);
      BothObey(item, later, adoption);
    }
  }

  lemma {:induction false} BothObey(item: Item, later: Item, adoption: nat)
    requires Dated(item) && Dated(later) && InFourDigits(later.version.value) && later.version.value.year >= 1000
    requires Obeys(item, adoption) && Obeys(later, adoption) && adoption <= LANE_FLOOR_ADOPTION_DATE_KEY
    ensures MustBeLane(item, later) ==> later.build.n >= AsCalver(later).floors.laneFloor >= LANE_BUILD_MIN
  {
    FloorsAreSeparated(later.version.value);
  }

  /** `later` is dated on or after a lane build, or on or after the official date. */
  ghost predicate MustBeLane(item: Item, later: Item)
    requires Dated(item) && Dated(later)
  {
    || (item.build.n >= LANE_BUILD_MIN && AsCalver(item).floors.dateKey <= AsCalver(later).floors.dateKey)
    || AsCalver(later).floors.dateKey >= LANE_FLOOR_ADOPTION_DATE_KEY
  }

  /** Every non-empty feed of canonical builds is accepted. */
  lemma {:induction false} CanonicalFeedIsAccepted(items: seq<Item>)
    requires items != [] && forall item <- items :: item.build.Numeric?
    requires forall item <- items :: Dated(item) ==> Some(item.build.n) == CanonicalSparkleBuild(item.version.value)
    ensures FeedErrors(items) == []
  {
    var calver := CalverItems(items);
    var t := EffectiveAdoption(calver);
    CalverItemsAre(items);
    NoShapeErrors(items);
    NoFloorErrors(calver, t);
    forall c <- calver
      ensures MeetsFloor(c, t)
    {
      var item :| item in items && Dated(item) && AsCalver(item) == c;
      CanonicalMeetsFloor(item, t);
    }
  }

  lemma {:induction false} CanonicalMeetsFloor(item: Item, adoption: nat)
    requires Dated(item) && Some(item.build.n) == CanonicalSparkleBuild(item.version.value)
    ensures MeetsFloor(AsCalver(item), adoption)
  {
    FloorsAreArithmetic(item.version.value);
  }

  /** Whether a feed is accepted does not depend on the order or repetition of its items. */
  lemma {:induction false} OrderDoesNotMatter(items: seq<Item>, others: seq<Item>)
    requires forall item :: item in items <==> item in others
    ensures FeedErrors(items) == [] <==> FeedErrors(others) == []
  {
    AcceptedIff(items);
    AcceptedIff(others);
    assert items == [] <==> others == [] by {
      assert items != [] ==> items[0] in others;
      assert others != [] ==> others[0] in items;
    }
    assert forall t: nat :: Adopted(items, t) <==> Adopted(others, t);
  }

  // ------------------------------------------------------------------- which errors there are

  function DateOf(v: Calver): nat {
    v.year * 10000 + v.month * 100 + v.day
  }

  /** A build of that date is expected to be a lane build: the date is not before the official
      one, or not before that of a lane build in the feed. */
  ghost predicate LaneTime(items: seq<Item>, date: nat) {
    || date >= LANE_FLOOR_ADOPTION_DATE_KEY
    || exists other <- items :: LaneBuildBy(other, date)
  }

  predicate LaneBuildBy(item: Item, date: nat) {
    Dated(item) && item.build.n >= LANE_BUILD_MIN && DateOf(item.version.value) <= date
  }

  ghost predicate Below(items: seq<Item>, item: Item, build: nat, lane: bool, floor: nat) {
    && Dated(item) && item.build.n == build < floor
    && (lane <==> build >= LANE_BUILD_MIN || LaneTime(items, DateOf(item.version.value)))
    && if lane then CanonicalSparkleBuild(item.version.value) == Some(floor) else floor == DateOf(item.version.value) * 10
  }

  ghost predicate Deserves(items: seq<Item>, e: FeedError) {
    match e
    case NoItems => items == []
    case MissingBuild(title) => exists item <- items :: item.title == title && item.build.Missing?
    case NonNumericBuild(title, text) => exists item <- items :: item.title == title && item.build == NotNumeric(text)
    case BelowFloor(title, build, lane, floor) =>
      exists item <- items :: item.title == title && Below(items, item, build, lane, floor)
  }

  /** Of any feed: the errors listed are exactly those it deserves. */
  lemma {:induction false} ErrorsAreExact(items: seq<Item>, e: FeedError)
    ensures e in FeedErrors(items) <==> Deserves(items, e)
  {
    ShapeIsListed(items, e);
    BelowIsListed(items, e);
  }

  lemma {:induction false} ShapeIsListed(items: seq<Item>, e: FeedError)
    ensures e in ShapeErrors(items) <==> (e.MissingBuild? || e.NonNumericBuild?) && Deserves(items, e)
  {
    ShapeErrorsAre(items, e);
    if item :| item in items && e in ShapeError(item) {
      assert e == ShapeError(item)[0];
    }
    match e
    case MissingBuild(title) =>
      assert forall item <- items :: e in ShapeError(item) <==> item.title == title && item.build.Missing?;
    case NonNumericBuild(title, text) =>
      assert forall item <- items :: e in ShapeError(item) <==> item.title == title && item.build == NotNumeric(text);
    case _ =>
  }

  lemma {:induction false} BelowIsListed(items: seq<Item>, e: FeedError)
    ensures e in FloorErrors(CalverItems(items), EffectiveAdoption(CalverItems(items))) <==> e.BelowFloor? && Deserves(items, e)
  {
    FloorErrorsAre(CalverItems(items), EffectiveAdoption(CalverItems(items)), e);
    if e.BelowFloor? {
      FloorsAreListed(items, e);
    }
  }

  lemma {:induction false} FloorsAreListed(items: seq<Item>, e: FeedError)
    requires e.BelowFloor?
    ensures e in FloorErrors(CalverItems(items), EffectiveAdoption(CalverItems(items))) <==> Deserves(items, e)
  {
    var calver := CalverItems(items);
    var t := EffectiveAdoption(calver);
    CalverItemsAre(items);
    FloorErrorsAre(calver, t, e);
    if c :| c in calver && e in FloorError(c, t) {
      var item :| item in items && Dated(item) && AsCalver(item) == c;
      FloorErrorIs(items, item, e);
    }
    if item :| item in items && item.title == e.title && Below(items, item, e.build, e.lane, e.floor) {
      FloorErrorIs(items, item, e);
      assert e in FloorError(AsCalver(item), t);
    }
  }

  lemma {:induction false} ShapeErrorsAre(items: seq<Item>, e: FeedError)
    ensures e in ShapeErrors(items) <==> exists item <- items :: e in ShapeError(item)
    decreases |items|
  {
    if items == [] {
    } else {
      var n := |items| - 1;
      ShapeErrorsAre(items[..n], e);
      InitAndLast(items);
    }
  }

  lemma {:induction false} FloorErrorsAre(items: seq<CalverItem>, t: nat, e: FeedError)
    ensures e in FloorErrors(items, t) <==> exists c <- items :: e in FloorError(c, t)
    decreases |items|
  {
    if items == [] {
    } else {
      var n := |items| - 1;
      FloorErrorsAre(items[..n], t, e);
      InitAndLast(items);
    }
  }

  lemma {:induction false} AdoptionIsLaneTime(items: seq<Item>, date: nat)
    ensures date >= EffectiveAdoption(CalverItems(items)) <==> LaneTime(items, date)
  {
    var calver := CalverItems(items);
    CalverItemsAre(items);
    if c :| c in calver && LaneItemBy(c, date) {
      var item :| item in items && Dated(item) && AsCalver(item) == c;
      DateKeyIs(item);
      assert LaneBuildBy(item, date);
    }
    if item :| item in items && LaneBuildBy(item, date) {
      DateKeyIs(item);
      assert LaneItemBy(AsCalver(item), date);
    }
    ObservedBy(calver, date);
  }

  lemma {:induction false} DateKeyIs(item: Item)
    requires Dated(item)
    ensures AsCalver(item).floors.dateKey == DateOf(item.version.value)
  {
    FloorsAreArithmetic(item.version.value);
  }

  predicate LaneItemBy(c: CalverItem, date: nat) {
    c.sparkleBuild >= LANE_BUILD_MIN && c.floors.dateKey <= date
  }

  lemma {:induction false} ObservedBy(calver: seq<CalverItem>, date: nat)
    ensures date >= EffectiveAdoption(calver) <==>
            date >= LANE_FLOOR_ADOPTION_DATE_KEY || exists c <- calver :: LaneItemBy(c, date)
  {
    var r := ObservedAdoption(calver);
    if r.Some? && r.value <= date {
      var c :| c in calver && c.sparkleBuild >= LANE_BUILD_MIN && c.floors.dateKey == r.value;
      assert LaneItemBy(c, date);
    }
  }

  lemma {:induction false} FloorErrorIs(items: seq<Item>, item: Item, e: FeedError)
    requires e.BelowFloor? && Dated(item)
    ensures e in FloorError(AsCalver(item), EffectiveAdoption(CalverItems(items))) <==>
            item.title == e.title && Below(items, item, e.build, e.lane, e.floor)
  {
    FloorsAreArithmetic(item.version.value);
    AdoptionIsLaneTime(items, DateOf(item.version.value));
  }
}
