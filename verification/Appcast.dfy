/** The check of the appcast feed: every build number must reach the floor of its lane. */
module Appcast {
  import opened Text
  import opened Decimal
  import opened Sorting
  import opened SparkleBuild

  const LANE_BUILD_MIN := 1_000_000_000
  const LANE_FLOOR_ADOPTION_DATE_KEY := 20260227

  /** An item of the feed with the tags found in it. */
  datatype Item = Item(title: string, shortVersion: Option<string>, version: Option<string>)

  datatype CalverItem = CalverItem(title: string, build: nat, floors: Floors)

  datatype FeedError =
    | NoItems
    | MissingVersion(title: string)
    | NonNumericVersion(title: string, version: string)
    | BelowFloor(title: string, build: nat, laneFloor: bool, floor: nat)

  predicate Absent(tag: Option<string>) {
    tag.None? || tag.value == ""
  }

  /** What the first loop adds for an item: an error, an item to check, or nothing. */
  function ShapeErrors(item: Item): seq<FeedError> {
    if Absent(item.version) then [MissingVersion(item.title)]
    else if !Digits(item.version.value) then [NonNumericVersion(item.title, item.version.value)]
    else []
  }

  function Calver(item: Item): seq<CalverItem> {
    if Absent(item.version) || !Digits(item.version.value) || Absent(item.shortVersion) then []
    else
      match SparkleBuildFloors(item.shortVersion.value)
      case None => []
      case Some(floors) => [CalverItem(item.title, ParseDec(item.version.value), floors)]
  }

  /** The concatenation of what `f` gives for each element. */
  function Collect<A, B>(xs: seq<A>, f: A -> seq<B>): seq<B> {
    if xs == [] then [] else Collect(xs[..|xs| - 1], f) + f(xs[|xs| - 1])
  }

  predicate InLane(item: CalverItem) {
    item.build >= LANE_BUILD_MIN
  }

  function LaneKeys(item: CalverItem): seq<int> {
    if InLane(item) then [item.floors.dateKey] else []
  }

  function IntLe(): (int, int) -> bool {
    (a: int, b: int) => a <= b
  }

  /** The date from which lane floors apply: the first lane-numbered item, if that is
      before the adoption date. */
  function EffectiveKey(items: seq<CalverItem>): int {
    var keys := Sort(Collect(items, LaneKeys), IntLe());
    if keys != [] && keys[0] < LANE_FLOOR_ADOPTION_DATE_KEY then keys[0] else LANE_FLOOR_ADOPTION_DATE_KEY
  }

  predicate ExpectsLane(item: CalverItem, key: int) {
    InLane(item) || item.floors.dateKey >= key
  }

  function FloorFor(item: CalverItem, key: int): nat {
    if ExpectsLane(item, key) then item.floors.laneFloor else item.floors.legacyFloor
  }

  predicate Flagged(item: CalverItem, key: int) {
    item.build < FloorFor(item, key)
  }

  function FloorErrors(key: int): CalverItem -> seq<FeedError> {
    (item: CalverItem) =>
      if Flagged(item, key) then [BelowFloor(item.title, item.build, ExpectsLane(item, key), FloorFor(item, key))] else []
  }

  function Errors(items: seq<Item>): seq<FeedError> {
    var calver := Collect(items, Calver);
    (if items == [] then [NoItems] else []) + Collect(items, ShapeErrors) + Collect(calver, FloorErrors(EffectiveKey(calver)))
  }

  /** The body of the first loop. */
  method CheckShape(item: Item) returns (errors: seq<FeedError>, calverItems: seq<CalverItem>)
    ensures errors == ShapeErrors(item)
    ensures calverItems == Calver(item)
  {
    errors, calverItems := [], [];
    if Absent(item.version) {
      errors := [MissingVersion(item.title)];
      return;
    }
    if !Digits(item.version.value) {
      errors := [NonNumericVersion(item.title, item.version.value)];
      return;
    }
    if Absent(item.shortVersion) {
      return;
    }
    var floors := SparkleBuildFloors(item.shortVersion.value);
    if floors.None? {
      return;
    }
    calverItems := [CalverItem(item.title, ParseDec(item.version.value), floors.value)];
  }

  lemma CollectNone<A, B>(xs: seq<A>, f: A -> seq<B>)
    ensures Collect(xs[..0], f) == []
  {
  }

  /** One more element. */
  lemma CollectTo<A, B>(xs: seq<A>, i: nat, f: A -> seq<B>)
    requires i < |xs|
    ensures Collect(xs[..i + 1], f) == Collect(xs[..i], f) + f(xs[i])
  {
    assert xs[..i + 1][..i] == xs[..i];
  }

  /** The first loop: errors of form, and the items left to check. */
  method CheckShapes(items: seq<Item>) returns (errors: seq<FeedError>, calverItems: seq<CalverItem>)
    ensures errors == Collect(items, ShapeErrors)
    ensures calverItems == Collect(items, Calver)
  {
    hide ShapeErrors, Calver, Collect;
    errors, calverItems := [], [];
    CollectNone(items, ShapeErrors);
    CollectNone(items, Calver);
    for i := 0 to |items|
      invariant errors == Collect(items[..i], ShapeErrors)
      invariant calverItems == Collect(items[..i], Calver)
    {
      CollectTo(items, i, ShapeErrors);
      CollectTo(items, i, Calver);
      var more, checked := CheckShape(items[i]);
      errors := errors + more;
      calverItems := calverItems + checked;
    }
    assert items[..|items|] == items;
  }

  /** The second loop: build numbers below the floor they must reach. */
  method CheckFloors(calverItems: seq<CalverItem>, effective: int) returns (errors: seq<FeedError>)
    ensures errors == Collect(calverItems, FloorErrors(effective))
  {
    errors := [];
    for i := 0 to |calverItems|
      invariant errors == Collect(calverItems[..i], FloorErrors(effective))
    {
      assert calverItems[..i + 1][..i] == calverItems[..i];
      var item := calverItems[i];
      var expectLaneFloor := item.build >= LANE_BUILD_MIN || item.floors.dateKey >= effective;
      var floor := if expectLaneFloor then item.floors.laneFloor else item.floors.legacyFloor;
      if item.build < floor {
        errors := errors + [BelowFloor(item.title, item.build, expectLaneFloor, floor)];
      }
    }
    assert calverItems[..|calverItems|] == calverItems;
  }

  /** `collectAppcastSparkleVersionErrors`. */
  method CollectAppcastSparkleVersionErrors(items: seq<Item>) returns (errors: seq<FeedError>)
    ensures errors == Errors(items)
  {
    var shapes, calverItems := CheckShapes(items);
    var observed := Sort(Collect(calverItems, LaneKeys), IntLe());
    var effective := if |observed| > 0 && observed[0] < LANE_FLOOR_ADOPTION_DATE_KEY
                     then observed[0] else LANE_FLOOR_ADOPTION_DATE_KEY;
    var floors := CheckFloors(calverItems, effective);
    errors := (if |items| == 0 then [NoItems] else []) + shapes + floors;
  }

  // ---------- collecting ----------

  lemma {:induction false} CollectIn<A, B>(xs: seq<A>, f: A -> seq<B>, b: B)
    ensures b in Collect(xs, f) <==> exists x :: x in xs && b in f(x)
  {
    if xs != [] {
      CollectIn(xs[..|xs| - 1], f, b);
      assert xs == xs[..|xs| - 1] + [xs[|xs| - 1]];
    }
  }

  lemma {:induction false} CollectConcat<A, B>(xs: seq<A>, ys: seq<A>, f: A -> seq<B>)
    ensures Collect(xs + ys, f) == Collect(xs, f) + Collect(ys, f)
  {
    if ys == [] {
      assert xs + ys == xs;
    } else {
      assert (xs + ys)[..|xs + ys| - 1] == xs + ys[..|ys| - 1];
      CollectConcat(xs, ys[..|ys| - 1], f);
    }
  }

  lemma CollectOne<A, B>(x: A, f: A -> seq<B>)
    ensures Collect([x], f) == f(x)
  {
    assert [x][..0] == [];
  }

  lemma CollectAround<A, B>(a: seq<A>, x: A, b: seq<A>, f: A -> seq<B>)
    ensures Collect(a + [x] + b, f) == Collect(a, f) + f(x) + Collect(b, f)
  {
    CollectConcat(a + [x], b, f);
    CollectConcat(a, [x], f);
    CollectOne(x, f);
  }

  lemma RemoveAt<A>(xs: seq<A>, i: nat)
    requires i < |xs|
    ensures multiset(xs[..i] + xs[i + 1..]) == multiset(xs) - multiset{xs[i]}
  {
    assert xs == xs[..i] + [xs[i]] + xs[i + 1..];
  }

  /** Two arrangements of the same elements, with one element taken out of both. */
  lemma TakeOut<A>(xs: seq<A>, ys: seq<A>) returns (i: nat)
    requires multiset(xs) == multiset(ys) && xs != []
    ensures i < |ys| && ys[i] == xs[|xs| - 1]
    ensures multiset(xs[..|xs| - 1]) == multiset(ys[..i] + ys[i + 1..])
  {
    var n := |xs| - 1;
    assert xs[n] in multiset(ys);
    i :| 0 <= i < |ys| && ys[i] == xs[n];
    RemoveAt(xs, n);
    RemoveAt(ys, i);
    assert xs[..n] + xs[n + 1..] == xs[..n];
  }

  lemma {:induction false} CollectPermutes<A, B>(xs: seq<A>, ys: seq<A>, f: A -> seq<B>)
    requires multiset(xs) == multiset(ys)
    ensures multiset(Collect(xs, f)) == multiset(Collect(ys, f))
    decreases |xs|
  {
    if xs == [] {
      assert |ys| == |multiset(ys)| == 0;
    } else {
      var i := TakeOut(xs, ys);
      var a, b := ys[..i], ys[i + 1..];
      CollectPermutes(xs[..|xs| - 1], a + b, f);
      CollectConcat(a, b, f);
      CollectAround(a, ys[i], b, f);
      assert ys == a + [ys[i]] + b;
    }
  }

  // ---------- the effective date ----------

  lemma EffectiveKeyLaw(items: seq<CalverItem>)
    ensures EffectiveKey(items) <= LANE_FLOOR_ADOPTION_DATE_KEY
    ensures forall it <- items | InLane(it) :: EffectiveKey(items) <= it.floors.dateKey
    ensures EffectiveKey(items) == LANE_FLOOR_ADOPTION_DATE_KEY ||
            exists it :: it in items && InLane(it) && EffectiveKey(items) == it.floors.dateKey
  {
    var raw := Collect(items, LaneKeys);
    var keys := Sort(raw, IntLe());
    SortPermutes(raw, IntLe());
    SortSorted(raw, IntLe());
    forall it | it in items && InLane(it)
      ensures EffectiveKey(items) <= it.floors.dateKey
    {
      CollectIn(items, LaneKeys, it.floors.dateKey);
      assert it.floors.dateKey in LaneKeys(it);
      var i :| 0 <= i < |keys| && keys[i] == it.floors.dateKey;
      assert i > 0 ==> IntLe()(keys[0], keys[i]);
    }
    if keys != [] {
      assert keys[0] in keys;
      CollectIn(items, LaneKeys, keys[0]);
    }
  }

  lemma EffectiveKeyPermutes(xs: seq<CalverItem>, ys: seq<CalverItem>)
    requires multiset(xs) == multiset(ys)
    ensures EffectiveKey(xs) == EffectiveKey(ys)
  {
    CollectPermutes(xs, ys, LaneKeys);
    SortCanonical(Collect(xs, LaneKeys), Collect(ys, LaneKeys), IntLe());
  }

  /** The order of the feed does not matter: the same errors are reported. */
  lemma ErrorsIgnoreOrder(xs: seq<Item>, ys: seq<Item>)
    requires multiset(xs) == multiset(ys)
    ensures multiset(Errors(xs)) == multiset(Errors(ys))
  {
    var cx, cy := Collect(xs, Calver), Collect(ys, Calver);
    CollectPermutes(xs, ys, ShapeErrors);
    CollectPermutes(xs, ys, Calver);
    EffectiveKeyPermutes(cx, cy);
    CollectPermutes(cx, cy, FloorErrors(EffectiveKey(cx)));
    assert |xs| == |multiset(xs)| == |multiset(ys)| == |ys|;
  }

  // ---------- what an error-free feed guarantees ----------

  /** The floors of a checked item belong to a possible version. */
  lemma CalverFloors(items: seq<Item>, it: CalverItem) returns (v: Version)
    requires it in Collect(items, Calver)
    ensures Possible(v) && it.floors == FloorsOf(v)
  {
    CollectIn(items, Calver, it);
    var item :| item in items && it in Calver(item);
    ReadIsPossible(Trim(item.shortVersion.value));
    v := ReadVersion(Trim(item.shortVersion.value)).value;
  }

  predicate FourDigitYear(it: CalverItem) {
    it.floors.dateKey >= 1000_00_00
  }

  /** The threshold of the lane numbers in terms of an item's date. */
  lemma FloorsSeparate(items: seq<Item>, it: CalverItem)
    requires it in Collect(items, Calver)
    ensures it.floors.legacyFloor < LANE_BUILD_MIN
    ensures it.floors.legacyFloor <= it.floors.laneFloor
    ensures FourDigitYear(it) <==> it.floors.laneFloor >= LANE_BUILD_MIN
  {
    var v := CalverFloors(items, it);
    FloorsArithmetic(v);
    LanesDisjoint(v);
  }

  lemma CheckedLaneFloorIsSafe(items: seq<Item>, it: CalverItem)
    requires it in Collect(items, Calver) && it.build >= it.floors.laneFloor
    ensures !Flagged(it, EffectiveKey(Collect(items, Calver)))
  {
    FloorsSeparate(items, it);
  }

  /** Items below the lane numbers come strictly before the adoption date and before every
      lane-numbered item. */
  ghost predicate LanesApart(calver: seq<CalverItem>) {
    forall old_ <- calver | !InLane(old_) ::
      && old_.floors.dateKey < LANE_FLOOR_ADOPTION_DATE_KEY
      && (forall new_ <- calver | InLane(new_) :: old_.floors.dateKey < new_.floors.dateKey)
  }

  lemma CheckedErrorFree(items: seq<Item>)
    requires forall it <- Collect(items, Calver) :: FourDigitYear(it)
    ensures var calver := Collect(items, Calver);
            Errors(items) == [] <==>
              && items != []
              && (forall item <- items :: !Absent(item.version) && Digits(item.version.value))
              && LanesApart(calver)
              && (forall it <- calver :: it.build >= if InLane(it) then it.floors.laneFloor else it.floors.legacyFloor)
  {
    var calver := Collect(items, Calver);
    var key := EffectiveKey(calver);
    EffectiveKeyLaw(calver);
    EmptyCollect(items, ShapeErrors);
    EmptyCollect(calver, FloorErrors(key));
    assert Collect(items, ShapeErrors) == [] <==> forall item <- items :: !Absent(item.version) && Digits(item.version.value);
    forall it | it in calver
      ensures !Flagged(it, key) <==>
              it.build >= (if InLane(it) then it.floors.laneFloor else it.floors.legacyFloor) &&
              (!InLane(it) ==> it.floors.dateKey < key)
    {
      FloorsSeparate(items, it);
    }
  }

  lemma {:induction false} EmptyCollect<A, B>(xs: seq<A>, f: A -> seq<B>)
    ensures Collect(xs, f) == [] <==> forall x <- xs :: f(x) == []
  {
    if xs != [] {
      EmptyCollect(xs[..|xs| - 1], f);
      assert xs == xs[..|xs| - 1] + [xs[|xs| - 1]];
    }
  }

  // ---------- the same about the feed itself ----------

  predicate Numbered(item: Item) {
    item.version.Some? && item.version.value != "" && Digits(item.version.value)
  }

  /** The version is numeric and the short version has the calendar form. */
  predicate Dated(item: Item) {
    && Numbered(item)
    && item.shortVersion.Some? && item.shortVersion.value != ""
    && SparkleBuildFloors(item.shortVersion.value).Some?
  }

  function Number(item: Item): nat
    requires Dated(item)
  {
    ParseDec(item.version.value)
  }

  function FloorsIn(item: Item): Floors
    requires Dated(item)
  {
    SparkleBuildFloors(item.shortVersion.value).value
  }

  predicate LaneNumbered(item: Item)
    requires Dated(item)
  {
    Number(item) >= 1_000_000_000
  }

  /** The check sees a dated item with its own number and floors, and no other item. */
  lemma CheckedAlone(item: Item)
    ensures Calver(item) == if Dated(item) then [CalverItem(item.title, Number(item), FloorsIn(item))] else []
  {
    hide ParseDec, Digits;
  }

  lemma DatedIsChecked(items: seq<Item>, item: Item)
    requires item in items && Dated(item)
    ensures CalverItem(item.title, Number(item), FloorsIn(item)) in Collect(items, Calver)
  {
    var it := CalverItem(item.title, Number(item), FloorsIn(item));
    CollectIn(items, Calver, it);
    CheckedAlone(item);
    assert it in Calver(item);
  }

  lemma CheckedIsDated(items: seq<Item>, it: CalverItem) returns (item: Item)
    requires it in Collect(items, Calver)
    ensures item in items && Dated(item) && it == CalverItem(item.title, Number(item), FloorsIn(item))
  {
    CollectIn(items, Calver, it);
    item :| item in items && it in Calver(item);
    CheckedAlone(item);
  }

  /** `key` is the date from which lane floors apply: that of the first item numbered in the
      lane, but no later than the fixed date. */
  ghost predicate IsAdoptionKey(items: seq<Item>, key: int) {
    && key <= 2026_02_27
    && (forall item <- items | Dated(item) && LaneNumbered(item) :: key <= FloorsIn(item).dateKey)
    && (key == 2026_02_27 ||
        exists item :: item in items && Dated(item) && LaneNumbered(item) && key == FloorsIn(item).dateKey)
  }

  /** Every feed has exactly one such date, and it is the one that the check uses. */
  lemma AdoptionKeyExactly(items: seq<Item>, key: int)
    ensures IsAdoptionKey(items, key) <==> key == EffectiveKey(Collect(items, Calver))
  {
    AdoptionKeyOfFeed(items);
  }

  lemma AdoptionKeyOfFeed(items: seq<Item>)
    ensures IsAdoptionKey(items, EffectiveKey(Collect(items, Calver)))
  {
    hide EffectiveKey, Dated, Number, FloorsIn, Calver, Collect;
    var calver := Collect(items, Calver);
    var key := EffectiveKey(calver);
    EffectiveKeyLaw(calver);
    forall item | item in items && Dated(item) && LaneNumbered(item)
      ensures key <= FloorsIn(item).dateKey
    {
      DatedIsChecked(items, item);
      assert InLane(CalverItem(item.title, Number(item), FloorsIn(item)));
    }
    if key != LANE_FLOOR_ADOPTION_DATE_KEY {
      var it :| it in calver && InLane(it) && key == it.floors.dateKey;
      var item := CheckedIsDated(items, it);
      assert LaneNumbered(item);
    }
  }

  /** The floor an item must reach: that of the lane if it is numbered there or dated from
      the adoption date on. */
  predicate MustReachLane(item: Item, key: int)
    requires Dated(item)
  {
    LaneNumbered(item) || FloorsIn(item).dateKey >= key
  }

  /** Which errors a feed has: one for no items, one for each item without a numeric version,
      and one for each dated item below the floor it must reach. */
  ghost predicate IsError(items: seq<Item>, key: int, e: FeedError) {
    match e
    case NoItems => items == []
    case MissingVersion(title) =>
      exists item :: item in items && item.title == title && (item.version.None? || item.version.value == "")
    case NonNumericVersion(title, version) =>
      exists item :: item in items && item.title == title && item.version == Some(version) && version != "" && !Digits(version)
    case BelowFloor(title, build, laneFloor, floor) =>
      exists item ::
        && item in items && item.title == title && Dated(item) && build == Number(item) < floor
        && laneFloor == MustReachLane(item, key)
        && floor == if laneFloor then FloorsIn(item).laneFloor else FloorsIn(item).legacyFloor
  }

  lemma ShapeErrorsExactly(items: seq<Item>, key: int, e: FeedError)
    requires e.MissingVersion? || e.NonNumericVersion?
    ensures e in Collect(items, ShapeErrors) <==> IsError(items, key, e)
  {
    hide Digits, Collect;
    CollectIn(items, ShapeErrors, e);
  }

  lemma FloorErrorOf(items: seq<Item>, key: int, item: Item)
    requires item in items && Dated(item)
    ensures var expects := MustReachLane(item, key);
            var floor := if expects then FloorsIn(item).laneFloor else FloorsIn(item).legacyFloor;
            Number(item) < floor ==>
              BelowFloor(item.title, Number(item), expects, floor) in Collect(Collect(items, Calver), FloorErrors(key))
  {
    hide Dated, Number, FloorsIn, Calver, Collect;
    var it := CalverItem(item.title, Number(item), FloorsIn(item));
    DatedIsChecked(items, item);
    var expects := MustReachLane(item, key);
    var floor := if expects then FloorsIn(item).laneFloor else FloorsIn(item).legacyFloor;
    var e := BelowFloor(item.title, Number(item), expects, floor);
    if Number(item) < floor {
      assert e in FloorErrors(key)(it);
      CollectIn(Collect(items, Calver), FloorErrors(key), e);
    }
  }

  lemma FloorErrorsExactly(items: seq<Item>, key: int, e: FeedError)
    requires e.BelowFloor?
    ensures e in Collect(Collect(items, Calver), FloorErrors(key)) <==> IsError(items, key, e)
  {
    hide Dated, Number, FloorsIn, Calver, Collect;
    CollectIn(Collect(items, Calver), FloorErrors(key), e);
    if it :| it in Collect(items, Calver) && e in FloorErrors(key)(it) {
      var item := CheckedIsDated(items, it);
    }
    forall item | item in items && Dated(item)
      ensures var expects := MustReachLane(item, key);
              var floor := if expects then FloorsIn(item).laneFloor else FloorsIn(item).legacyFloor;
              Number(item) < floor ==>
                BelowFloor(item.title, Number(item), expects, floor) in Collect(Collect(items, Calver), FloorErrors(key))
    {
      FloorErrorOf(items, key, item);
    }
  }

  lemma KindsOfErrors(items: seq<Item>, key: int)
    ensures forall e <- Collect(items, ShapeErrors) :: e.MissingVersion? || e.NonNumericVersion?
    ensures forall e <- Collect(Collect(items, Calver), FloorErrors(key)) :: e.BelowFloor?
  {
    forall e | e in Collect(items, ShapeErrors)
      ensures e.MissingVersion? || e.NonNumericVersion?
    {
      CollectIn(items, ShapeErrors, e);
    }
    forall e | e in Collect(Collect(items, Calver), FloorErrors(key))
      ensures e.BelowFloor?
    {
      CollectIn(Collect(items, Calver), FloorErrors(key), e);
    }
  }

  /** The check reports exactly these errors. */
  lemma ErrorsExactly(items: seq<Item>, key: int, e: FeedError)
    requires IsAdoptionKey(items, key)
    ensures e in Errors(items) <==> IsError(items, key, e)
  {
    hide EffectiveKey, Collect, Calver, IsAdoptionKey, Dated;
    AdoptionKeyExactly(items, key);
    KindsOfErrors(items, key);
    if e.BelowFloor? {
      FloorErrorsExactly(items, key, e);
    } else if !e.NoItems? {
      ShapeErrorsExactly(items, key, e);
    }
  }

  lemma DatedFloors(item: Item)
    requires Dated(item)
    ensures FloorsIn(item).legacyFloor < 1_000_000_000
    ensures FloorsIn(item).legacyFloor <= FloorsIn(item).laneFloor
  {
    hide Dated, Number, FloorsIn, Calver;
    DatedIsChecked([item], item);
    FloorsSeparate([item], CalverItem(item.title, Number(item), FloorsIn(item)));
  }

  /** Whoever reaches the lane floor is never reported as too low, whatever the rest of the
      feed holds: a reported item is dated and below its own lane floor. */
  lemma LaneFloorIsSafe(items: seq<Item>, e: FeedError)
    requires e in Errors(items) && e.BelowFloor?
    ensures exists item ::
              item in items && item.title == e.title && Dated(item) && Number(item) == e.build < FloorsIn(item).laneFloor
  {
    hide EffectiveKey, Collect, Calver, IsAdoptionKey, Errors;
    var key := EffectiveKey(Collect(items, Calver));
    AdoptionKeyOfFeed(items);
    ErrorsExactly(items, key, e);
    forall item | item in items && Dated(item)
      ensures FloorsIn(item).legacyFloor <= FloorsIn(item).laneFloor
    {
      DatedFloors(item);
    }
  }

  /** Dated items below the lane numbers come strictly before the fixed date and before every
      lane-numbered item. */
  ghost predicate FeedApart(items: seq<Item>) {
    forall early <- items | Dated(early) && !LaneNumbered(early) ::
      && FloorsIn(early).dateKey < 2026_02_27
      && (forall late <- items | Dated(late) && LaneNumbered(late) :: FloorsIn(early).dateKey < FloorsIn(late).dateKey)
  }

  /** Every dated item reaches the floor of the lane it is numbered in. */
  ghost predicate FeedReaches(items: seq<Item>) {
    forall item <- items | Dated(item) ::
      Number(item) >= if LaneNumbered(item) then FloorsIn(item).laneFloor else FloorsIn(item).legacyFloor
  }

  /** A feed of four-digit years is free of errors exactly when it has items, all have
      numeric versions, the two numbering lanes do not mix, and every dated item reaches the
      floor of the lane it is numbered in. */
  lemma ErrorFreeExactly(items: seq<Item>)
    requires forall item <- items | Dated(item) :: FloorsIn(item).dateKey >= 1000_00_00
    ensures Errors(items) == [] <==>
              && items != []
              && (forall item <- items :: Numbered(item))
              && FeedApart(items) && FeedReaches(items)
  {
    hide Dated, Number, FloorsIn, Calver, Collect, Errors, LanesApart, FeedApart, FeedReaches;
    var calver := Collect(items, Calver);
    forall it | it in calver
      ensures FourDigitYear(it)
    {
      var item := CheckedIsDated(items, it);
    }
    CheckedErrorFree(items);
    if LanesApart(calver) {
      ApartOfChecked(items);
    }
    if FeedApart(items) {
      ApartIsChecked(items);
    }
    ReachesOfChecked(items);
  }

  lemma ApartOfChecked(items: seq<Item>)
    requires LanesApart(Collect(items, Calver))
    ensures FeedApart(items)
  {
    hide Dated, Number, FloorsIn, Calver, Collect;
    forall item | item in items && Dated(item)
      ensures CalverItem(item.title, Number(item), FloorsIn(item)) in Collect(items, Calver)
    {
      DatedIsChecked(items, item);
    }
    forall early | early in items && Dated(early) && !LaneNumbered(early)
      ensures FloorsIn(early).dateKey < 2026_02_27
      ensures forall late <- items | Dated(late) && LaneNumbered(late) :: FloorsIn(early).dateKey < FloorsIn(late).dateKey
    {
      assert !InLane(CalverItem(early.title, Number(early), FloorsIn(early)));
      forall late | late in items && Dated(late) && LaneNumbered(late)
        ensures FloorsIn(early).dateKey < FloorsIn(late).dateKey
      {
        assert InLane(CalverItem(late.title, Number(late), FloorsIn(late)));
      }
    }
  }

  lemma ApartIsChecked(items: seq<Item>)
    requires FeedApart(items)
    ensures LanesApart(Collect(items, Calver))
  {
    hide Dated, Number, FloorsIn, Calver, Collect;
    forall old_ | old_ in Collect(items, Calver) && !InLane(old_)
      ensures old_.floors.dateKey < LANE_FLOOR_ADOPTION_DATE_KEY
      ensures forall new_ <- Collect(items, Calver) | InLane(new_) :: old_.floors.dateKey < new_.floors.dateKey
    {
      var early := CheckedIsDated(items, old_);
      assert !LaneNumbered(early);
      forall new_ | new_ in Collect(items, Calver) && InLane(new_)
        ensures old_.floors.dateKey < new_.floors.dateKey
      {
        var late := CheckedIsDated(items, new_);
        assert LaneNumbered(late);
      }
    }
  }

  lemma ReachesOfChecked(items: seq<Item>)
    ensures (forall it <- Collect(items, Calver) :: it.build >= if InLane(it) then it.floors.laneFloor else it.floors.legacyFloor)
            <==> FeedReaches(items)
  {
    hide Dated, Number, FloorsIn, Calver, Collect;
    forall item | item in items && Dated(item)
      ensures CalverItem(item.title, Number(item), FloorsIn(item)) in Collect(items, Calver)
    {
      DatedIsChecked(items, item);
    }
    forall it | it in Collect(items, Calver)
      ensures exists item :: item in items && Dated(item) && it == CalverItem(item.title, Number(item), FloorsIn(item))
    {
      var item := CheckedIsDated(items, it);
    }
  }
}
