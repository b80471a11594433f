/** Fields of a Modbus device model, the addresses they occupy, and the check
    that no two of them share one (`_model.py`). */
module ModbusModel {
  import opened Wrappers

  datatype Area = Coil | Discrete | Input | Holding
  {
    predicate IsBit() { Coil? || Discrete? }

    predicate Writable() { Coil? || Holding? }

    function ModiconBase(): nat {
      match this
      case Coil => 1
      case Discrete => 10001
      case Input => 30001
      case Holding => 40001
    }
  }

  const AREAS: seq<Area> := [Coil, Discrete, Input, Holding]

  datatype DataType = Bool | Int16 | Uint16 | Int32 | Uint32 | Int64 | Uint64 | Float32 | Float64 | String
  {
    function Words(): nat {
      match this
      case Bool | String => 0
      case Int16 | Uint16 => 1
      case Int32 | Uint32 | Float32 => 2
      case Int64 | Uint64 | Float64 => 4
    }

    predicate IsInteger() { Int16? || Uint16? || Int32? || Uint32? || Int64? || Uint64? }

    predicate IsSigned() { Int16? || Int32? || Int64? }
  }

  datatype Order = BigEndian | LittleEndian

  datatype Field = Field(
    name: string,
    area: Area,
    address: nat,
    kind: DataType,
    wordOrder: Option<Order>,
    byteOrder: Option<Order>,
    scale: Option<real>,
    offset: Option<real>,
    count: Option<int>)
  {
    /** Registers, or bits, the field occupies. */
    function WordCount(): int {
      if area.IsBit() || kind == String then CountOrOne(count) else kind.Words()
    }

    function EndAddress(): int { address + WordCount() }
  }

  function CountOrOne(count: Option<int>): int {
    if count.None? || count.value == 0 then 1 else count.value
  }

  datatype FieldError =
    | NoAddress | TwoAddresses | OutsideModiconRange | NegativeAddress | AddressTooLarge
    | BitFieldNotBool | RegisterFieldIsBool | StringWithoutCount | CountBelowOne | CountIsMeaningless | ScaleIsZero

  /** `_resolve_address`: the two address forms, never guessed between. */
  function ResolveAddress(address: Option<int>, modicon: Option<int>, area: Area): Result<nat, FieldError> {
    if address.None? && modicon.None? then Err(NoAddress)
    else if address.Some? && modicon.Some? then Err(TwoAddresses)
    else if modicon.Some? then
      if area.ModiconBase() <= modicon.value <= area.ModiconBase() + 9998
      then Ok(modicon.value - area.ModiconBase())
      else Err(OutsideModiconRange)
    else if address.value < 0 then Err(NegativeAddress)
    else if address.value > 0xFFFF then Err(AddressTooLarge)
    else Ok(address.value)
  }

  /** `_validate`, in the order its checks run. */
  function Validate(f: Field): Option<FieldError> {
    if f.area.IsBit() && f.kind != Bool then Some(BitFieldNotBool)
    else if !f.area.IsBit() && f.kind == Bool then Some(RegisterFieldIsBool)
    else if f.kind == String && (f.count.None? || f.count.value == 0) then Some(StringWithoutCount)
    else if f.count.Some? && f.count.value < 1 then Some(CountBelowOne)
    else if f.count.Some? && !f.area.IsBit() && f.kind != String then Some(CountIsMeaningless)
    else if f.scale.Some? && f.scale.value == 0.0 then Some(ScaleIsZero)
    else None
  }

  function MakeField(address: Option<int>, modicon: Option<int>, f: Field): Result<Field, FieldError> {
    var a :- ResolveAddress(address, modicon, f.area);
    var made := f.(address := a);
    match Validate(made)
    case Some(e) => Err(e)
    case None => Ok(made)
  }

  /** What the rest of the adapter relies on about an accepted field. */
  predicate WellFormed(f: Field) {
    && f.address <= 0xFFFF
    && f.WordCount() >= 1
    && (f.kind == Bool <==> f.area.IsBit())
    && (!f.area.IsBit() && f.kind != String ==> f.WordCount() == f.kind.Words() && f.count.None?)
    && (f.scale.Some? ==> f.scale.value != 0.0)
  }

  lemma AcceptedFieldIsWellFormed(address: Option<int>, modicon: Option<int>, f: Field)
    ensures MakeField(address, modicon, f).Ok? ==> WellFormed(MakeField(address, modicon, f).value)
  {}

  /** A datasheet number and the protocol address it stands for name each other,
      and the number leaves no choice of area. */
  lemma ModiconNamesOneAddress(m: int, n: nat, area: Area, other: Area, k: nat)
    requires ResolveAddress(None, Some(m), area) == Ok(n)
    ensures ResolveAddress(None, Some(m), other) == Ok(k) ==> other == area && k == n
    ensures m == area.ModiconBase() + n && ResolveAddress(Some(n), None, area) == Ok(n)
  {}

  // ------------------------------------------------------------------
  // Overlap
  // ------------------------------------------------------------------

  predicate Apart(f: Field, g: Field) {
    f.area != g.area || f.EndAddress() <= g.address || g.EndAddress() <= f.address
  }

  /** No two fields of one area share an address. */
  ghost predicate NoOverlap(fields: seq<Field>) {
    forall i, j :: 0 <= i < j < |fields| ==> Apart(fields[i], fields[j])
  }

  ghost predicate AllWellFormed(fields: seq<Field>) {
    forall f :: f in fields ==> WellFormed(f)
  }

  function InArea(area: Area, fields: seq<Field>): seq<Field> {
    if fields == [] then []
    else if fields[0].area == area then [fields[0]] + InArea(area, fields[1..])
    else InArea(area, fields[1..])
  }

  /** A stable sort by address. */
  function SortByAddress(fields: seq<Field>): seq<Field> {
    if fields == [] then [] else Insert(fields[0], SortByAddress(fields[1..]))
  }

  function Insert(f: Field, sorted: seq<Field>): (r: seq<Field>)
    ensures |r| == |sorted| + 1
  {
    if sorted == [] || f.address <= sorted[0].address then [f] + sorted
    else [sorted[0]] + Insert(f, sorted[1..])
  }

  ghost predicate Sorted(s: seq<Field>) {
    forall i, j :: 0 <= i < j < |s| ==> s[i].address <= s[j].address
  }

  lemma {:induction false} InsertMembers(f: Field, s: seq<Field>, g: Field)
    ensures g in Insert(f, s) <==> g == f || g in s
  {
    if s == [] || f.address <= s[0].address {
      assert [f] + s == Insert(f, s);
    } else {
      InsertMembers(f, s[1..], g);
      assert s == [s[0]] + s[1..];
    }
  }

  lemma {:induction false} InsertSorted(f: Field, s: seq<Field>)
    requires Sorted(s)
    ensures Sorted(Insert(f, s))
  {
    if s == [] || f.address <= s[0].address {
    } else {
      InsertSorted(f, s[1..]);
      var r := Insert(f, s);
      forall i, j | 0 <= i < j < |r| ensures r[i].address <= r[j].address {
        if i == 0 {
          InsertMembers(f, s[1..], r[j]);
          assert r[j] in Insert(f, s[1..]);
        }
      }
    }
  }

  lemma {:induction false} SortMembers(s: seq<Field>, g: Field)
    ensures g in SortByAddress(s) <==> g in s
  {
    if s != [] {
      SortMembers(s[1..], g);
      InsertMembers(s[0], SortByAddress(s[1..]), g);
    }
  }

  lemma {:induction false} SortIsSorted(s: seq<Field>)
    ensures Sorted(SortByAddress(s)) && |SortByAddress(s)| == |s|
  {
    if s != [] {
      SortIsSorted(s[1..]);
      InsertSorted(s[0], SortByAddress(s[1..]));
    }
  }

  lemma {:induction false} InAreaMembers(area: Area, s: seq<Field>, g: Field)
    ensures g in InArea(area, s) <==> g in s && g.area == area
  {
    if s != [] {
      InAreaMembers(area, s[1..], g);
    }
  }

  ghost predicate ApartFromAll(f: Field, s: seq<Field>) {
    forall g :: g in s ==> Apart(f, g)
  }

  lemma NoOverlapCons(s: seq<Field>)
    requires s != []
    ensures NoOverlap(s) <==> ApartFromAll(s[0], s[1..]) && NoOverlap(s[1..])
  {
    if ApartFromAll(s[0], s[1..]) && NoOverlap(s[1..]) {
      forall i, j | 0 <= i < j < |s| ensures Apart(s[i], s[j]) {
        assert s[j] == s[1..][j - 1];
        if i > 0 { assert s[i] == s[1..][i - 1]; }
      }
    }
    if NoOverlap(s) {
      forall g | g in s[1..] ensures Apart(s[0], g) {
        var j :| 0 <= j < |s[1..]| && s[1..][j] == g;
        assert s[j + 1] == g;
      }
    }
  }

  lemma ApartFromMore(f: Field, g: Field, s: seq<Field>, more: seq<Field>)
    requires forall x :: x in more <==> x == g || x in s
    ensures ApartFromAll(f, more) <==> Apart(f, g) && ApartFromAll(f, s)
    ensures Apart(f, g) <==> Apart(g, f)
  {}

  lemma {:induction false} NoOverlapInsert(f: Field, s: seq<Field>)
    ensures NoOverlap(Insert(f, s)) <==> ApartFromAll(f, s) && NoOverlap(s)
  {
    hide NoOverlap;
    var r := Insert(f, s);
    NoOverlapCons(r);
    if s == [] || f.address <= s[0].address {
      assert r[1..] == s;
    } else {
      NoOverlapCons(s);
      NoOverlapInsert(f, s[1..]);
      assert r[1..] == Insert(f, s[1..]);
      forall g ensures g in r[1..] <==> g == f || g in s[1..] { InsertMembers(f, s[1..], g); }
      ApartFromMore(s[0], f, s[1..], r[1..]);
      forall g ensures g in s <==> g == s[0] || g in s[1..] { assert s == [s[0]] + s[1..]; }
      ApartFromMore(f, s[0], s[1..], s);
    }
  }

  /** Overlap does not depend on the order of the fields. */
  lemma {:induction false} NoOverlapSort(s: seq<Field>)
    ensures NoOverlap(SortByAddress(s)) <==> NoOverlap(s)
  {
    hide NoOverlap, Apart;
    if s == [] {
    } else {
      var sorted := SortByAddress(s[1..]);
      NoOverlapSort(s[1..]);
      NoOverlapCons(s);
      NoOverlapInsert(s[0], sorted);
      forall g ensures g in sorted <==> g in s[1..] { SortMembers(s[1..], g); }
    }
  }

  ghost predicate NoOverlapPerArea(s: seq<Field>) {
    forall area: Area :: NoOverlap(InArea(area, s))
  }

  lemma NoOverlapInAreaCons(area: Area, s: seq<Field>)
    requires s != []
    ensures NoOverlap(InArea(area, s)) <==>
            NoOverlap(InArea(area, s[1..])) && (area == s[0].area ==> ApartFromAll(s[0], s[1..]))
  {
    hide NoOverlap, ApartFromAll;
    if area == s[0].area {
      var mine := InArea(area, s);
      NoOverlapCons(mine);
      assert mine[1..] == InArea(area, s[1..]);
      forall g ensures g in mine[1..] <==> g in s[1..] && g.area == area { InAreaMembers(area, s[1..], g); }
      ApartInArea(s[0], s[1..], mine[1..]);
    }
  }

  lemma {:induction false} NoOverlapByArea(s: seq<Field>)
    ensures NoOverlap(s) <==> NoOverlapPerArea(s)
  {
    hide NoOverlap, ApartFromAll;
    if s == [] {
      forall area ensures NoOverlap(InArea(area, s)) { EmptyNoOverlap(InArea(area, s)); }
      EmptyNoOverlap(s);
    } else {
      NoOverlapByArea(s[1..]);
      NoOverlapCons(s);
      forall area ensures NoOverlap(InArea(area, s)) <==>
            NoOverlap(InArea(area, s[1..])) && (area == s[0].area ==> ApartFromAll(s[0], s[1..]))
      {
        NoOverlapInAreaCons(area, s);
      }
      assert NoOverlapPerArea(s) ==> NoOverlap(InArea(s[0].area, s));
    }
  }

  lemma ApartInArea(f: Field, s: seq<Field>, mine: seq<Field>)
    requires forall g :: g in mine <==> g in s && g.area == f.area
    ensures ApartFromAll(f, s) <==> ApartFromAll(f, mine)
  {}

  lemma EmptyNoOverlap(s: seq<Field>)
    requires s == []
    ensures NoOverlap(s)
  {}

  ghost predicate AdjacentApart(s: seq<Field>, n: nat) {
    forall i :: 0 <= i && i + 1 < n && i + 1 < |s| ==> s[i].EndAddress() <= s[i + 1].address
  }

  /** Comparing neighbours is enough once the group is sorted. */
  lemma {:induction false} NeighboursDecide(s: seq<Field>, area: Area)
    requires Sorted(s) && AllWellFormed(s) && forall f :: f in s ==> f.area == area
    ensures AdjacentApart(s, |s|) <==> NoOverlap(s)
  {
    if AdjacentApart(s, |s|) {
      forall i, j | 0 <= i < j < |s| ensures Apart(s[i], s[j]) {
        assert s[i].EndAddress() <= s[i + 1].address;
        assert s[i + 1].address <= s[j].address;
      }
    }
    if NoOverlap(s) {
      forall i | 0 <= i && i + 1 < |s| ensures s[i].EndAddress() <= s[i + 1].address {
        assert Apart(s[i], s[i + 1]);
        assert s[i] in s && s[i + 1] in s;
      }
    }
  }

  function SortedArea(area: Area, fields: seq<Field>): seq<Field> {
    SortByAddress(InArea(area, fields))
  }

  lemma SortedAreaFacts(area: Area, fields: seq<Field>)
    ensures Sorted(SortedArea(area, fields))
    ensures forall f :: f in SortedArea(area, fields) <==> f in fields && f.area == area
    ensures NoOverlap(SortedArea(area, fields)) <==> NoOverlap(InArea(area, fields))
  {
    SortIsSorted(InArea(area, fields));
    NoOverlapSort(InArea(area, fields));
    forall f ensures f in SortedArea(area, fields) <==> f in fields && f.area == area {
      SortMembers(InArea(area, fields), f);
      InAreaMembers(area, fields, f);
    }
  }

  /** The fields of each area, areas in order of first appearance. */
  method GroupByArea(fields: seq<Field>) returns (byArea: map<Area, seq<Field>>, order: seq<Area>)
    ensures forall a :: a in byArea <==> a in order
    ensures forall a :: InArea(a, fields) == if a in byArea then byArea[a] else []
  {
    byArea := map[];
    order := [];
    for i := 0 to |fields|
      invariant forall a :: a in byArea <==> a in order
      invariant forall a :: InArea(a, fields[..i]) == if a in byArea then byArea[a] else []
    {
      var f := fields[i];
      forall a ensures InArea(a, fields[..i + 1]) == InArea(a, fields[..i]) + if f.area == a then [f] else [] {
        InAreaSnoc(a, fields[..i], f);
        assert fields[..i] + [f] == fields[..i + 1];
      }
      if f.area in byArea {
        byArea := byArea[f.area := byArea[f.area] + [f]];
      } else {
        byArea := byArea[f.area := [f]];
        order := order + [f.area];
      }
    }
    assert fields[..|fields|] == fields;
  }

  /** `_check_no_overlap`: fields grouped by area, each group sorted, neighbours
      compared. It complains exactly when two fields of one area share an
      address, and then about two that do. */
  method CheckNoOverlap(fields: seq<Field>) returns (r: Option<(Field, Field)>)
    requires AllWellFormed(fields)
    ensures r.None? <==> NoOverlap(fields)
    ensures r.Some? ==> r.value.0 in fields && r.value.1 in fields && !Apart(r.value.0, r.value.1)
  {
    hide NoOverlap, Apart, SortByAddress, InArea, AllWellFormed;
    var byArea, order := GroupByArea(fields);
    NoOverlapByArea(fields);
    for k := 0 to |order|
      invariant forall j :: 0 <= j < k ==> NoOverlap(InArea(order[j], fields))
    {
      var area := order[k];
      assert area in byArea;
      r := CheckGroup(fields, area, SortByAddress(byArea[area]));
      if r.Some? {
        assert NoOverlapPerArea(fields) ==> NoOverlap(InArea(area, fields));
        return;
      }
    }
    r := None;
    forall area ensures NoOverlap(InArea(area, fields)) {
      if area in order {
        var j :| 0 <= j < |order| && order[j] == area;
      } else {
        EmptyNoOverlap(InArea(area, fields));
      }
    }
  }

  lemma {:induction false} InAreaSnoc(a: Area, s: seq<Field>, f: Field)
    ensures InArea(a, s + [f]) == InArea(a, s) + if f.area == a then [f] else []
  {
    if s == [] {
      assert s + [f] == [f];
      assert [f][1..] == [];
    } else {
      InAreaSnoc(a, s[1..], f);
      assert (s + [f])[1..] == s[1..] + [f];
    }
  }

  lemma SortedAt(s: seq<Field>, i: nat, j: nat)
    requires Sorted(s) && i < j < |s|
    ensures s[i].address <= s[j].address
  {}

  method CheckGroup(fields: seq<Field>, area: Area, group: seq<Field>) returns (r: Option<(Field, Field)>)
    requires AllWellFormed(fields) && group == SortedArea(area, fields)
    ensures r.None? <==> NoOverlap(InArea(area, fields))
    ensures r.Some? ==> r.value.0 in fields && r.value.1 in fields && !Apart(r.value.0, r.value.1)
  {
    hide NoOverlap, SortByAddress, InArea, Sorted;
    SortedAreaFacts(area, fields);
    NeighboursDecide(group, area);
    var i := 1;
    while i < |group|
      invariant 1 <= i
      invariant AdjacentApart(group, i)
    {
      var previous, current := group[i - 1], group[i];
      assert previous in group && current in group;
      if current.address < previous.EndAddress() {
        assert previous.address <= current.address by { SortedAt(group, i - 1, i); }
        assert !AdjacentApart(group, |group|) by { assert 0 <= i - 1 && i - 1 + 1 < |group|; }
        return Some((previous, current));
      }
      i := i + 1;
    }
    return None;
  }
}
