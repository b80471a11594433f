/** `plan_reads`: from the fields of a device model to the read commands to send,
    one area at a time (`_planner.py`). */
module ModbusPlanner {
  import opened Wrappers
  import opened ModbusModel
  import opened ReadPlanning

  const MAX_REGISTERS_PER_READ: nat := 125
  const MAX_BITS_PER_READ: nat := 2000

  datatype ReadCommand = ReadCommand(area: Area, address: nat, count: nat)
  {
    function EndAddress(): nat { address + count }

    predicate CoversField(f: Field) {
      f.area == area && address <= f.address && f.EndAddress() <= EndAddress()
    }

    function Block(): ReadPlanning.Block { ReadPlanning.Block(address, count) }
  }

  datatype PlanError = NegativeGap(maxGap: int) | FieldTooLarge(field: Field)

  function Limit(area: Area): nat { if area.IsBit() then MAX_BITS_PER_READ else MAX_REGISTERS_PER_READ }

  predicate TooLarge(f: Field) { f.WordCount() > Limit(f.area) }

  // ------------------------------------------------------------------
  // What a plan is for, in terms of fields
  // ------------------------------------------------------------------

  ghost predicate DeclaredAt(fields: seq<Field>, area: Area, a: nat) {
    exists f :: f in fields && f.area == area && f.address <= a < f.EndAddress()
  }

  ghost predicate DeclaredNear(fields: seq<Field>, area: Area, x: nat, gap: nat) {
    exists a: nat :: x <= a <= x + gap && DeclaredAt(fields, area, a)
  }

  /** A command the device can answer: within the protocol limit of its area and
      with no more than `gap` undeclared addresses in a row. */
  ghost predicate Admissible(fields: seq<Field>, gap: nat, c: ReadCommand) {
    && 1 <= c.count <= Limit(c.area)
    && forall x: nat :: c.address <= x && x + gap < c.EndAddress() ==> DeclaredNear(fields, c.area, x, gap)
  }

  ghost predicate AllAdmissible(fields: seq<Field>, gap: nat, cs: seq<ReadCommand>) {
    forall k :: 0 <= k < |cs| ==> Admissible(fields, gap, cs[k])
  }

  ghost predicate FieldCovered(cs: seq<ReadCommand>, f: Field) {
    exists k :: 0 <= k < |cs| && cs[k].CoversField(f)
  }

  ghost predicate AllCovered(cs: seq<ReadCommand>, fields: seq<Field>) {
    forall f :: f in fields ==> FieldCovered(cs, f)
  }

  // ------------------------------------------------------------------
  // One area
  // ------------------------------------------------------------------

  function ExtentOf(f: Field): Extent
    requires WellFormed(f)
  {
    Extent(f.address, f.EndAddress())
  }

  function Extents(fields: seq<Field>): (es: seq<Extent>)
    requires AllWellFormed(fields)
    ensures |es| == |fields|
  {
    if fields == [] then [] else [ExtentOf(fields[0])] + Extents(fields[1..])
  }

  lemma {:induction false} ExtentAt(fields: seq<Field>, i: nat)
    requires AllWellFormed(fields) && i < |fields|
    ensures fields[i] in fields && Extents(fields)[i] == ExtentOf(fields[i])
  {
    if i > 0 { ExtentAt(fields[1..], i - 1); }
  }

  function FirstTooLarge(limit: nat, fields: seq<Field>): Option<Field> {
    if fields == [] then None
    else if fields[0].WordCount() > limit then Some(fields[0])
    else FirstTooLarge(limit, fields[1..])
  }

  function Commands(area: Area, bs: seq<Block>): (cs: seq<ReadCommand>)
    ensures |cs| == |bs|
  {
    if bs == [] then [] else [ReadCommand(area, bs[0].address, bs[0].count)] + Commands(area, bs[1..])
  }

  /** The plan of one area's fields, sorted by address. */
  function AreaPlan(area: Area, gap: nat, fields: seq<Field>): Result<seq<ReadCommand>, PlanError>
    requires AllWellFormed(fields)
  {
    if fields == [] then Ok([])
    else match FirstTooLarge(Limit(area), fields)
      case Some(f) => Err(FieldTooLarge(f))
      case None =>
        ExtentAt(fields, 0);
        Ok(Commands(area, Plan(gap, Limit(area), Extents(fields))))
  }

  method Span(f: Field, limit: nat) returns (r: Result<int, PlanError>)
    ensures r == if f.WordCount() > limit then Err(FieldTooLarge(f)) else Ok(f.WordCount())
  {
    if f.WordCount() > limit {
      return Err(FieldTooLarge(f));
    }
    return Ok(f.WordCount());
  }

  /** `_plan_area`. */
  method PlanArea(area: Area, fields: seq<Field>, maxGap: nat) returns (r: Result<seq<ReadCommand>, PlanError>)
    requires fields != [] && AllWellFormed(fields)
    ensures r == AreaPlan(area, maxGap, fields)
  {
    hide Joins, Limit, Commands, PlanFrom, Extents;
    var limit := Limit(area);
    var commands: seq<ReadCommand> := [];
    ExtentAt(fields, 0);
    var first :- Span(fields[0], limit);
    var start: nat, end: nat := fields[0].address, fields[0].address + first;
    ExtentsStep(fields);
    for i := 1 to |fields|
      invariant start <= end
      invariant FirstTooLarge(limit, fields) == FirstTooLarge(limit, fields[i..])
      invariant Commands(area, Plan(maxGap, limit, Extents(fields)))
             == commands + Commands(area, PlanFrom(maxGap, limit, Extents(fields[i..]), start, end))
    {
      var f := fields[i];
      assert f in fields;
      var size :- Span(f, limit);
      var fieldEnd := f.address + size;
      assert fields[i..][1..] == fields[i + 1..];
      var rest := Extents(fields[i..]);
      ExtentsStep(fields[i..]);
      PlanFromStep(maxGap, limit, rest, start, end);
      var gap, merged := f.address - end, fieldEnd - start;
      assert (gap <= maxGap && merged <= limit) == Joins(maxGap, limit, start, end, rest[0]) by {
        DefineJoins(maxGap, limit, start, end, rest[0]);
      }
      if gap <= maxGap && merged <= limit {
        end := Max(end, fieldEnd);
      } else {
        ghost var tail := PlanFrom(maxGap, limit, rest[1..], f.address, fieldEnd);
        CommandsCons(area, Block(start, end - start), tail);
        Associate(commands, [ReadCommand(area, start, end - start)], Commands(area, tail));
        commands := commands + [ReadCommand(area, start, end - start)];
        start, end := f.address, fieldEnd;
      }
    }
    CommandsCons(area, Block(start, end - start), []);
    PlanFromEnd(maxGap, limit, Extents(fields[|fields|..]), start, end);
    commands := commands + [ReadCommand(area, start, end - start)];
    return Ok(commands);
  }

  lemma DefineJoins(gap: nat, limit: nat, start: nat, end: nat, e: Extent)
    ensures Joins(gap, limit, start, end, e) == (e.lo - end <= gap && e.hi - start <= limit)
  {}

  lemma ExtentsStep(fields: seq<Field>)
    requires AllWellFormed(fields) && fields != []
    ensures fields[0] in fields && Extents(fields)[0] == ExtentOf(fields[0]) && Extents(fields)[1..] == Extents(fields[1..])
  {}

  lemma PlanFromStep(gap: nat, limit: nat, rest: seq<Extent>, start: nat, end: nat)
    requires start <= end && rest != [] && rest[0].lo <= rest[0].hi
    ensures PlanFrom(gap, limit, rest, start, end)
         == if Joins(gap, limit, start, end, rest[0]) then PlanFrom(gap, limit, rest[1..], start, Max(end, rest[0].hi))
            else [Block(start, end - start)] + PlanFrom(gap, limit, rest[1..], rest[0].lo, rest[0].hi)
  {}

  lemma PlanFromEnd(gap: nat, limit: nat, rest: seq<Extent>, start: nat, end: nat)
    requires start <= end && rest == []
    ensures PlanFrom(gap, limit, rest, start, end) == [Block(start, end - start)]
  {}

  lemma CommandsCons(area: Area, b: Block, bs: seq<Block>)
    ensures Commands(area, [b] + bs) == [ReadCommand(area, b.address, b.count)] + Commands(area, bs)
    ensures Commands(area, [b]) == [ReadCommand(area, b.address, b.count)]
  {
    assert ([b] + bs)[1..] == bs;
  }

  // ------------------------------------------------------------------
  // All areas
  // ------------------------------------------------------------------

  function PlanOver(areas: seq<Area>, fields: seq<Field>, gap: nat): Result<seq<ReadCommand>, PlanError>
    requires AllWellFormed(fields)
  {
    if areas == [] then Ok([])
    else
      SortedAreaFacts(areas[0], fields);
      var here :- AreaPlan(areas[0], gap, SortedArea(areas[0], fields));
      var rest :- PlanOver(areas[1..], fields, gap);
      Ok(here + rest)
  }

  /** The commands for `fields`, or the reason there are none. */
  function PlanOf(fields: seq<Field>, maxGap: int): Result<seq<ReadCommand>, PlanError>
    requires AllWellFormed(fields)
  {
    if maxGap < 0 then Err(NegativeGap(maxGap)) else PlanOver(AREAS, fields, maxGap)
  }

  function Prepend(done: seq<ReadCommand>,
        rest: Result<seq<ReadCommand>, PlanError>): Result<seq<ReadCommand>, PlanError>
  {
    var cs :- rest;
    Ok(done + cs)
  }

  method PlanReads(fields: seq<Field>, maxGap: int) returns (r: Result<seq<ReadCommand>, PlanError>)
    requires AllWellFormed(fields)
    ensures r == PlanOf(fields, maxGap)
  {
    hide AreaPlan, SortByAddress, InArea, AllWellFormed;
    if maxGap < 0 {
      return Err(NegativeGap(maxGap));
    }
    var commands: seq<ReadCommand> := [];
    assert AREAS[0..] == AREAS;
    PrependNothing(PlanOver(AREAS, fields, maxGap));
    for i := 0 to |AREAS|
      invariant PlanOf(fields, maxGap) == Prepend(commands, PlanOver(AREAS[i..], fields, maxGap))
    {
      var area := AREAS[i];
      var inArea := SortByAddress(InArea(area, fields));
      WellFormedArea(area, fields);
      assert AREAS[i..][1..] == AREAS[i + 1..];
      if inArea != [] {
        var planned :- PlanArea(area, inArea, maxGap);
        PrependTwice(commands, planned, PlanOver(AREAS[i + 1..], fields, maxGap));
        commands := commands + planned;
      } else {
        NoFields(area, maxGap, inArea);
        PrependTwice(commands, [], PlanOver(AREAS[i + 1..], fields, maxGap));
        assert commands + [] == commands;
      }
    }
    return Ok(commands);
  }

  lemma PrependTwice(a: seq<ReadCommand>, b: seq<ReadCommand>, rest: Result<seq<ReadCommand>, PlanError>)
    ensures Prepend(a, Prepend(b, rest)) == Prepend(a + b, rest)
  {
    if rest.Ok? { Associate(a, b, rest.value); }
  }

  lemma PrependNothing(rest: Result<seq<ReadCommand>, PlanError>)
    ensures Prepend([], rest) == rest
  {
    if rest.Ok? { assert [] + rest.value == rest.value; }
  }

  lemma NoFields(area: Area, gap: nat, fields: seq<Field>)
    requires fields == [] && AllWellFormed(fields)
    ensures AreaPlan(area, gap, fields) == Ok([])
  {}

  lemma WellFormedArea(area: Area, fields: seq<Field>)
    requires AllWellFormed(fields)
    ensures AllWellFormed(SortedArea(area, fields))
  {
    SortedAreaFacts(area, fields);
  }

  // ------------------------------------------------------------------
  // What the plan guarantees
  // ------------------------------------------------------------------

  function OfArea(area: Area, cs: seq<ReadCommand>): (bs: seq<Block>)
    ensures |bs| <= |cs|
  {
    if cs == [] then []
    else if cs[0].area == area then [cs[0].Block()] + OfArea(area, cs[1..])
    else OfArea(area, cs[1..])
  }

  lemma {:induction false} OfAreaConcat(area: Area, a: seq<ReadCommand>, b: seq<ReadCommand>)
    ensures OfArea(area, a + b) == OfArea(area, a) + OfArea(area, b)
  {
    if a == [] {
      assert a + b == b;
    } else {
      assert (a + b)[1..] == a[1..] + b;
      OfAreaConcat(area, a[1..], b);
    }
  }

  lemma {:induction false} OfAreaCommands(area: Area, other: Area, bs: seq<Block>)
    ensures OfArea(other, Commands(area, bs)) == if other == area then bs else []
  {
    if bs != [] {
      OfAreaCommands(area, other, bs[1..]);
      assert bs == [bs[0]] + bs[1..];
    }
  }

  /** A list of commands is its four areas put together. */
  lemma {:induction false} CountByArea(cs: seq<ReadCommand>)
    ensures |cs| == |OfArea(Coil, cs)| + |OfArea(Discrete, cs)| + |OfArea(Input, cs)| + |OfArea(Holding, cs)|
  {
    if cs != [] { CountByArea(cs[1..]); }
  }

  lemma {:induction false} OfAreaMember(area: Area, cs: seq<ReadCommand>, b: Block)
    ensures b in OfArea(area, cs) <==> ReadCommand(area, b.address, b.count) in cs
  {
    if cs != [] {
      OfAreaMember(area, cs[1..], b);
      assert cs[0] == ReadCommand(area, b.address, b.count) <==> cs[0].area == area && cs[0].Block() == b;
    }
  }

  function AreaExtents(area: Area, fields: seq<Field>): seq<Extent>
    requires AllWellFormed(fields)
  {
    WellFormedArea(area, fields);
    Extents(SortedArea(area, fields))
  }

  lemma AreaExtentMembers(area: Area, fields: seq<Field>)
    requires AllWellFormed(fields)
    ensures forall f :: f in fields && f.area == area ==> ExtentOf(f) in AreaExtents(area, fields)
    ensures forall e :: e in AreaExtents(area, fields) ==> exists f :: f in fields && f.area == area && ExtentOf(f) == e
  {
    WellFormedArea(area, fields);
    SortedAreaFacts(area, fields);
    var s := SortedArea(area, fields);
    forall f | f in fields && f.area == area ensures ExtentOf(f) in AreaExtents(area, fields) {
      var i :| 0 <= i < |s| && s[i] == f;
      ExtentAt(s, i);
    }
    forall e | e in AreaExtents(area, fields) ensures exists f :: f in fields && f.area == area && ExtentOf(f) == e {
      var i :| 0 <= i < |s| && Extents(s)[i] == e;
      ExtentAt(s, i);
    }
  }

  lemma DeclaredIsDeclared(area: Area, fields: seq<Field>, a: nat)
    requires AllWellFormed(fields)
    ensures DeclaredAt(fields, area, a) <==> Declared(AreaExtents(area, fields), a)
  {
    hide Extents, AreaExtents;
    AreaExtentMembers(area, fields);
    if DeclaredAt(fields, area, a) {
      var f :| f in fields && f.area == area && f.address <= a < f.EndAddress();
      assert f in fields && WellFormed(f) by { WellFormedMember(fields, f); }
      assert ExtentOf(f) in AreaExtents(area, fields);
    }
    if Declared(AreaExtents(area, fields), a) {
      var e :| e in AreaExtents(area, fields) && e.lo <= a < e.hi;
      var f :| f in fields && f.area == area && WellFormed(f) && ExtentOf(f) == e;
    }
  }

  lemma WellFormedMember(fields: seq<Field>, f: Field)
    requires AllWellFormed(fields) && f in fields
    ensures WellFormed(f)
  {}

  /** Admissible for the fields is feasible for their extents. */
  lemma AdmissibleIsFeasible(fields: seq<Field>, gap: nat, c: ReadCommand)
    requires AllWellFormed(fields)
    ensures Admissible(fields, gap, c) <==> Feasible(AreaExtents(c.area, fields), gap, Limit(c.area), c.Block())
  {
    hide AllWellFormed, Extents, AreaExtents, DeclaredAt, Declared;
    forall x: nat
      ensures DeclaredNear(fields, c.area, x, gap) <==> DeclaredWithin(AreaExtents(c.area, fields), x, gap)
    {
      NearIsWithin(c.area, fields, x, gap);
    }
    var b := c.Block();
    assert BlockEnd(b) == c.EndAddress() && b.address == c.address;
  }

  lemma NearIsWithin(area: Area, fields: seq<Field>, x: nat, gap: nat)
    requires AllWellFormed(fields)
    ensures DeclaredNear(fields, area, x, gap) <==> DeclaredWithin(AreaExtents(area, fields), x, gap)
  {
    hide AllWellFormed, Extents, AreaExtents, DeclaredAt, Declared;
    forall a: nat ensures DeclaredAt(fields, area, a) <==> Declared(AreaExtents(area, fields), a) {
      DeclaredIsDeclared(area, fields, a);
    }
  }

  lemma {:induction false} FirstTooLargeFacts(limit: nat, fields: seq<Field>)
    ensures FirstTooLarge(limit, fields).None? <==> forall f :: f in fields ==> f.WordCount() <= limit
    ensures FirstTooLarge(limit, fields).Some? ==>
              FirstTooLarge(limit, fields).value in fields && FirstTooLarge(limit, fields).value.WordCount() > limit
  {
    if fields == [] {
    } else {
      FirstTooLargeFacts(limit, fields[1..]);
      assert fields == [fields[0]] + fields[1..];
    }
  }

  /** The sorted extents of an area meet what the interval plan asks for. */
  lemma ExtentsReady(area: Area, fields: seq<Field>)
    requires AllWellFormed(fields) && forall f :: f in fields && f.area == area ==> !TooLarge(f)
    ensures SortedByLo(AreaExtents(area, fields)) && Sized(AreaExtents(area, fields), Limit(area))
    ensures NoOverlap(fields) ==> ReadPlanning.Disjoint(AreaExtents(area, fields))
  {
    hide NoOverlap, SortByAddress, InArea, Extents;
    WellFormedArea(area, fields);
    SortedAreaFacts(area, fields);
    var s := SortedArea(area, fields);
    forall i: nat | i < |s| ensures s[i] in s && Extents(s)[i] == ExtentOf(s[i]) { ExtentAt(s, i); }
    forall i, j | 0 <= i < j < |s| ensures s[i].address <= s[j].address { SortedAt(s, i, j); }
    if NoOverlap(fields) {
      NoOverlapByArea(fields);
      assert NoOverlapPerArea(fields) && NoOverlap(InArea(area, fields));
      forall i, j | 0 <= i < j < |s| ensures s[i].EndAddress() <= s[j].address {
        ApartAt(s, i, j);
        SortedAt(s, i, j);
      }
    }
  }

  lemma ApartAt(s: seq<Field>, i: nat, j: nat)
    requires NoOverlap(s) && i < j < |s|
    ensures Apart(s[i], s[j])
  {}

  /** The commands of one area in a plan are that area's interval plan. */
  ghost predicate PlannedArea(area: Area, fields: seq<Field>, gap: nat, cs: seq<ReadCommand>)
    requires AllWellFormed(fields)
  {
    var es := AreaExtents(area, fields);
    if es == [] then OfArea(area, cs) == []
    else SortedByLo(es) && Sized(es, Limit(area)) && OfArea(area, cs) == Plan(gap, Limit(area), es)
  }

  lemma AreaPlanFacts(area: Area, fields: seq<Field>, gap: nat)
    requires AllWellFormed(fields)
    ensures AllWellFormed(SortedArea(area, fields))
    ensures var r := AreaPlan(area, gap, SortedArea(area, fields));
            && (r.Ok? <==> forall f :: f in fields && f.area == area ==> !TooLarge(f))
            && (r.Err? ==> r.error.FieldTooLarge? && r.error.field in fields && TooLarge(r.error.field))
            && (r.Ok? ==> PlannedArea(area, fields, gap, r.value))
            && (r.Ok? ==> forall other :: other != area ==> OfArea(other, r.value) == [])
  {
    hide NoOverlap, SortByAddress, InArea, SortedByLo, Sized, PlanFrom, Extents;
    WellFormedArea(area, fields);
    SortedAreaFacts(area, fields);
    var s := SortedArea(area, fields);
    FirstTooLargeFacts(Limit(area), s);
    if s != [] && FirstTooLarge(Limit(area), s).None? {
      ExtentsReady(area, fields);
      ExtentAt(s, 0);
      var bs := Plan(gap, Limit(area), AreaExtents(area, fields));
      forall other ensures OfArea(other, Commands(area, bs)) == if other == area then bs else [] {
        OfAreaCommands(area, other, bs);
      }
    }
  }

  ghost predicate PlanResult(areas: seq<Area>, fields: seq<Field>, gap: nat, r: Result<seq<ReadCommand>, PlanError>)
    requires AllWellFormed(fields)
  {
    && (r.Ok? <==> forall f :: f in fields && f.area in areas ==> !TooLarge(f))
    && (r.Err? ==> r.error.FieldTooLarge? && r.error.field in fields && TooLarge(r.error.field))
    && (r.Ok? ==> forall a :: if a in areas then PlannedArea(a, fields, gap, r.value) else OfArea(a, r.value) == [])
  }

  lemma {:induction false} PlanOverAreas(areas: seq<Area>, fields: seq<Field>, gap: nat)
    requires AllWellFormed(fields)
    requires forall i, j :: 0 <= i < j < |areas| ==> areas[i] != areas[j]
    ensures PlanResult(areas, fields, gap, PlanOver(areas, fields, gap))
  {
    hide AllWellFormed, AreaPlan, SortByAddress, InArea, TooLarge, AreaExtents, SortedByLo, Sized, Plan;
    if areas != [] {
      var area := areas[0];
      AreaPlanFacts(area, fields, gap);
      PlanOverAreas(areas[1..], fields, gap);
      var here, rest := AreaPlan(area, gap, SortedArea(area, fields)), PlanOver(areas[1..], fields, gap);
      assert forall a :: a in areas <==> a == area || a in areas[1..];
      assert area !in areas[1..];
      if here.Ok? && rest.Ok? {
        forall a ensures OfArea(a, here.value + rest.value) == OfArea(a, here.value) + OfArea(a, rest.value) {
          OfAreaConcat(a, here.value, rest.value);
        }
      }
    }
  }

  lemma EveryArea(a: Area)
    ensures a in AREAS
  {
    assert AREAS[0] == Coil && AREAS[1] == Discrete && AREAS[2] == Input && AREAS[3] == Holding;
  }

  /** A plan exists exactly when the gap is not negative and every field fits in
      one command of its area. */
  lemma PlanExists(fields: seq<Field>, maxGap: int)
    requires AllWellFormed(fields)
    ensures PlanOf(fields, maxGap).Ok? <==> maxGap >= 0 && forall f :: f in fields ==> !TooLarge(f)
    ensures PlanOf(fields, maxGap).Err? && maxGap >= 0 ==>
              PlanOf(fields, maxGap).error.FieldTooLarge?
              && PlanOf(fields, maxGap).error.field in fields && TooLarge(PlanOf(fields, maxGap).error.field)
  {
    hide TooLarge, AllWellFormed;
    if maxGap >= 0 {
      PlanOverAreas(AREAS, fields, maxGap);
      forall f | f in fields ensures f.area in AREAS { EveryArea(f.area); }
    }
  }

  lemma PlannedAreas(fields: seq<Field>, maxGap: nat, area: Area)
    requires AllWellFormed(fields) && PlanOf(fields, maxGap).Ok?
    ensures PlannedArea(area, fields, maxGap, PlanOf(fields, maxGap).value)
  {
    hide TooLarge, AllWellFormed, PlannedArea;
    PlanOverAreas(AREAS, fields, maxGap);
    EveryArea(area);
  }

  lemma CommandInArea(cs: seq<ReadCommand>, k: nat) returns (j: nat)
    requires k < |cs|
    ensures j < |OfArea(cs[k].area, cs)| && OfArea(cs[k].area, cs)[j] == cs[k].Block()
  {
    OfAreaMember(cs[k].area, cs, cs[k].Block());
    var c := cs[k];
    assert c == ReadCommand(c.area, c.Block().address, c.Block().count);
    j :| 0 <= j < |OfArea(c.area, cs)| && OfArea(c.area, cs)[j] == c.Block();
  }

  ghost predicate StartsAndEndsAtFields(fields: seq<Field>, c: ReadCommand) {
    && (exists f :: f in fields && f.area == c.area && f.address == c.address)
    && (exists f :: f in fields && f.area == c.area && f.EndAddress() == c.EndAddress())
  }

  lemma SoundCommand(fields: seq<Field>, gap: nat, c: ReadCommand)
    requires AllWellFormed(fields)
    requires Sound(AreaExtents(c.area, fields), gap, Limit(c.area), c.Block())
    ensures Admissible(fields, gap, c) && StartsAndEndsAtFields(fields, c)
  {
    hide AllWellFormed, AreaExtents, Feasible, Admissible;
    AdmissibleIsFeasible(fields, gap, c);
    AreaExtentMembers(c.area, fields);
    var es := AreaExtents(c.area, fields);
    var first :| first in es && first.lo == c.address;
    var last :| last in es && last.hi == BlockEnd(c.Block());
    SomeField(c.area, fields, first);
    SomeField(c.area, fields, last);
  }

  lemma SomeField(area: Area, fields: seq<Field>, e: Extent)
    requires AllWellFormed(fields) && e in AreaExtents(area, fields)
    ensures exists f :: f in fields && f.area == area && f.address == e.lo && f.EndAddress() == e.hi
  {
    hide AreaExtents;
    AreaExtentMembers(area, fields);
  }

  /** Every command is within its protocol limit, crosses no stretch of more than
      `maxGap` undeclared addresses, and begins and ends with a declared field. */
  lemma PlanIsAdmissible(fields: seq<Field>, maxGap: nat)
    requires AllWellFormed(fields) && PlanOf(fields, maxGap).Ok?
    ensures AllAdmissible(fields, maxGap, PlanOf(fields, maxGap).value)
    ensures forall c :: c in PlanOf(fields, maxGap).value ==> StartsAndEndsAtFields(fields, c)
  {
    hide AllWellFormed, AreaExtents, Sound, Admissible, StartsAndEndsAtFields, PlanOf, SortedByLo, Sized, Plan;
    var cs := PlanOf(fields, maxGap).value;
    forall k: nat | k < |cs| ensures Admissible(fields, maxGap, cs[k]) && StartsAndEndsAtFields(fields, cs[k]) {
      var area := cs[k].area;
      PlannedAreas(fields, maxGap, area);
      var j := CommandInArea(cs, k);
      PlanIsSafe(AreaExtents(area, fields), maxGap, Limit(area));
      assert Sound(AreaExtents(area, fields), maxGap, Limit(area), cs[k].Block());
      SoundCommand(fields, maxGap, cs[k]);
    }
  }

  /** Every field is inside one command of its area, so it can be decoded. */
  lemma PlanCoversEveryField(fields: seq<Field>, maxGap: nat)
    requires AllWellFormed(fields) && PlanOf(fields, maxGap).Ok?
    ensures AllCovered(PlanOf(fields, maxGap).value, fields)
  {
    hide PlanOf, FieldCovered, AllWellFormed;
    forall f | f in fields ensures FieldCovered(PlanOf(fields, maxGap).value, f) {
      PlanCovers(fields, maxGap, f);
    }
  }

  lemma PlanCovers(fields: seq<Field>, maxGap: nat, f: Field)
    requires AllWellFormed(fields) && PlanOf(fields, maxGap).Ok? && f in fields
    ensures FieldCovered(PlanOf(fields, maxGap).value, f)
  {
    hide AllWellFormed, AreaExtents, PlanOf, SortedByLo, Sized, Plan, AllFeasible, WellFormed;
    hide Increasing, AllSound, Separate, CoveredBy, FieldCovered, OfArea;
    var cs := PlanOf(fields, maxGap).value;
    WellFormedMember(fields, f);
    AreaExtentMembers(f.area, fields);
    PlannedAreas(fields, maxGap, f.area);
    var es := AreaExtents(f.area, fields);
    assert ExtentOf(f) in es;
    PlanIsSafe(es, maxGap, Limit(f.area));
    assert CoveredBy(OfArea(f.area, cs), ExtentOf(f));
    CoveredInPlan(cs, f);
  }

  lemma CoveredInPlan(cs: seq<ReadCommand>, f: Field)
    requires WellFormed(f) && CoveredBy(OfArea(f.area, cs), ExtentOf(f))
    ensures FieldCovered(cs, f)
  {
    hide OfArea;
    var bs := OfArea(f.area, cs);
    var k :| 0 <= k < |bs| && Covers(bs[k], ExtentOf(f));
    OfAreaMember(f.area, cs, bs[k]);
    var n :| 0 <= n < |cs| && cs[n] == ReadCommand(f.area, bs[k].address, bs[k].count);
    assert cs[n].CoversField(f);
  }

  /** The commands of one area come in address order, and share no address when
      the fields do not. */
  lemma PlanIsOrdered(fields: seq<Field>, maxGap: nat, area: Area)
    requires AllWellFormed(fields) && PlanOf(fields, maxGap).Ok?
    ensures Increasing(OfArea(area, PlanOf(fields, maxGap).value))
    ensures NoOverlap(fields) ==> Separate(OfArea(area, PlanOf(fields, maxGap).value))
  {
    hide AllWellFormed, AreaExtents, PlanOf, SortedByLo, Sized, Plan, NoOverlap, ReadPlanning.Disjoint, TooLarge;
    PlanExists(fields, maxGap);
    PlannedAreas(fields, maxGap, area);
    ExtentsReady(area, fields);
    var es := AreaExtents(area, fields);
    if es != [] {
      PlanIsSafe(es, maxGap, Limit(area));
    }
  }

  lemma ServesArea(fields: seq<Field>, gap: nat, q: seq<ReadCommand>, area: Area)
    requires AllWellFormed(fields) && AllAdmissible(fields, gap, q) && AllCovered(q, fields)
    ensures Serves(AreaExtents(area, fields), gap, Limit(area), OfArea(area, q))
  {
    hide AllWellFormed, AreaExtents, Feasible, Admissible;
    var es, bs := AreaExtents(area, fields), OfArea(area, q);
    forall k | 0 <= k < |bs| ensures Feasible(es, gap, Limit(area), bs[k]) {
      var c := ReadCommand(area, bs[k].address, bs[k].count);
      OfAreaMember(area, q, bs[k]);
      var n :| 0 <= n < |q| && q[n] == c;
      AdmissibleIsFeasible(fields, gap, c);
      assert c.Block() == bs[k];
    }
    forall e | e in es ensures CoveredBy(bs, e) {
      SomeField(area, fields, e);
      var f :| f in fields && f.area == area && f.address == e.lo && f.EndAddress() == e.hi;
      assert FieldCovered(q, f);
      var n :| 0 <= n < |q| && q[n].CoversField(f);
      OfAreaMember(area, q, q[n].Block());
      assert q[n] == ReadCommand(area, q[n].Block().address, q[n].Block().count);
      var k :| 0 <= k < |bs| && bs[k] == q[n].Block();
      assert Covers(bs[k], e);
    }
  }

  lemma ShortestPerArea(fields: seq<Field>, maxGap: nat, q: seq<ReadCommand>, area: Area)
    requires AllWellFormed(fields) && PlanOf(fields, maxGap).Ok?
    requires AllAdmissible(fields, maxGap, q) && AllCovered(q, fields)
    ensures |OfArea(area, PlanOf(fields, maxGap).value)| <= |OfArea(area, q)|
  {
    hide AllWellFormed, AreaExtents, PlanOf, SortedByLo, Sized, Plan, Serves, AllAdmissible, AllCovered;
    PlannedAreas(fields, maxGap, area);
    ServesArea(fields, maxGap, q, area);
    if AreaExtents(area, fields) != [] {
      PlanIsMinimal(AreaExtents(area, fields), maxGap, Limit(area), OfArea(area, q));
    }
  }

  /** Whatever commands would also do, there are at least as many of them. */
  lemma PlanIsShortest(fields: seq<Field>, maxGap: nat, q: seq<ReadCommand>)
    requires AllWellFormed(fields) && PlanOf(fields, maxGap).Ok?
    requires AllAdmissible(fields, maxGap, q) && AllCovered(q, fields)
    ensures |PlanOf(fields, maxGap).value| <= |q|
  {
    hide AllWellFormed, PlanOf, AllAdmissible, AllCovered, OfArea;
    CountByArea(q);
    CountByArea(PlanOf(fields, maxGap).value);
    ShortestPerArea(fields, maxGap, q, Coil);
    ShortestPerArea(fields, maxGap, q, Discrete);
    ShortestPerArea(fields, maxGap, q, Input);
    ShortestPerArea(fields, maxGap, q, Holding);
  }

  /** With no gap allowed, a plan reads the declared addresses and nothing else. */
  lemma NoGapReadsOnlyDeclared(fields: seq<Field>, c: ReadCommand, a: nat)
    requires AllWellFormed(fields) && PlanOf(fields, 0).Ok?
    requires c in PlanOf(fields, 0).value && c.address <= a < c.EndAddress()
    ensures DeclaredAt(fields, c.area, a)
  {
    hide AllWellFormed, PlanOf, DeclaredAt;
    PlanIsAdmissible(fields, 0);
    var cs := PlanOf(fields, 0).value;
    var k :| 0 <= k < |cs| && cs[k] == c;
    assert Admissible(fields, 0, cs[k]);
    assert DeclaredNear(fields, c.area, a, 0);
  }
}
