/** `ModbusClient`: whole-device reads through the planner and field writes, over
    a device that refuses addresses it does not have (`_client.py`). */
module ModbusClient {
  import opened Wrappers
  import opened ModbusModel
  import opened ModbusCodec
  import opened ModbusPlanner

  /** The addresses a device has, and what they hold. */
  type Memory = map<(Area, nat), Word>

  type Instance = map<string, Value>

  datatype ClientError =
    | PlanFailed(plan: PlanError)
    | CodecFailed(codec: CodecError)
    | ReadRefused(area: Area, address: nat, count: nat)
    | WriteRefused(area: Area, address: nat, count: nat)

  /** Limits of one write, sections 6.11 and 6.12 of the MODBUS Application
      Protocol Specification V1.1b3. */
  function WriteLimit(area: Area): nat { if area.IsBit() then 1968 else 123 }

  predicate Present(mem: Memory, area: Area, address: nat, count: nat) {
    forall a: nat :: address <= a < address + count ==> (area, a) in mem
  }

  function Cells(mem: Memory, area: Area, address: nat, count: nat): (ws: seq<Word>)
    requires Present(mem, area, address, count)
    ensures |ws| == count
    decreases count
  {
    if count == 0 then [] else [mem[(area, address)]] + Cells(mem, area, address + 1, count - 1)
  }

  lemma {:induction false} CellsAt(mem: Memory, area: Area, address: nat, count: nat, i: nat)
    requires Present(mem, area, address, count) && i < count
    ensures (area, address + i) in mem && Cells(mem, area, address, count)[i] == mem[(area, address + i)]
    decreases count
  {
    if i > 0 { CellsAt(mem, area, address + 1, count - 1, i - 1); }
  }

  /** Cutting a stretch out of a longer one reads the same cells. */
  lemma CellsSlice(mem: Memory, area: Area, address: nat, count: nat, from: nat, n: nat)
    requires Present(mem, area, address, count) && from + n <= count
    ensures Present(mem, area, address + from, n)
    ensures Cells(mem, area, address, count)[from..from + n] == Cells(mem, area, address + from, n)
  {
    var whole, part := Cells(mem, area, address, count), Cells(mem, area, address + from, n);
    forall i: nat | i < n ensures whole[from..from + n][i] == part[i] {
      CellsAt(mem, area, address, count, from + i);
      CellsAt(mem, area, address + from, n, i);
    }
  }

  predicate Readable(mem: Memory, area: Area, address: nat, count: nat) {
    1 <= count <= Limit(area) && Present(mem, area, address, count)
  }

  function Written(mem: Memory, area: Area, address: nat, ws: seq<Word>): Memory
    decreases |ws|
  {
    if ws == [] then mem else Written(mem[(area, address) := ws[0]], area, address + 1, ws[1..])
  }

  lemma {:induction false} WrittenCells(mem: Memory, area: Area, address: nat, ws: seq<Word>, b: Area, x: nat)
    ensures (b, x) in Written(mem, area, address, ws) <==> (b, x) in mem || (b == area && address <= x < address + |ws|)
    ensures b == area && address <= x < address + |ws| ==> Written(mem, area, address, ws)[(b, x)] == ws[x - address]
    ensures !(b == area && address <= x < address + |ws|) && (b, x) in mem ==> Written(mem, area, address, ws)[(b, x)] == mem[(b, x)]
    decreases |ws|
  {
    if ws != [] {
      WrittenCells(mem[(area, address) := ws[0]], area, address + 1, ws[1..], b, x);
    }
  }

  /** The other end of the connection. */
  class ModbusConnection {
    var mem: Memory

    constructor (m: Memory)
      ensures mem == m
    {
      mem := m;
    }

    method Read(area: Area, address: nat, count: nat) returns (r: Result<seq<Word>, ClientError>)
      ensures r.Ok? <==> Readable(mem, area, address, count)
      ensures r.Ok? ==> r.value == Cells(mem, area, address, count)
      ensures r.Err? ==> r.error == ReadRefused(area, address, count)
    {
      if !(1 <= count <= Limit(area)) {
        return Err(ReadRefused(area, address, count));
      }
      var values: seq<Word> := [];
      var i := 0;
      while i < count
        invariant 0 <= i <= count
        invariant Present(mem, area, address, i)
        invariant values == Cells(mem, area, address, i)
      {
        if (area, address + i) !in mem {
          return Err(ReadRefused(area, address, count));
        }
        CellsSlice(mem, area, address, i + 1, 0, i);
        CellsAt(mem, area, address, i + 1, i);
        values := values + [mem[(area, address + i)]];
        i := i + 1;
      }
      return Ok(values);
    }

    /** `write_coils` and `write_registers`. */
    method Write(area: Area, address: nat, values: seq<Word>) returns (r: Result<(), ClientError>)
      modifies this
      ensures r == if Accepts(old(mem), area, address, values) then Ok(()) else Err(WriteRefused(area, address, |values|))
      ensures mem == if r.Ok? then Written(old(mem), area, address, values) else old(mem)
    {
      if !Accepts(mem, area, address, values) {
        return Err(WriteRefused(area, address, |values|));
      }
      mem := Written(mem, area, address, values);
      return Ok(());
    }
  }

  predicate Accepts(mem: Memory, area: Area, address: nat, values: seq<Word>) {
    1 <= |values| <= WriteLimit(area) && Present(mem, area, address, |values|)
  }

  // ------------------------------------------------------------------
  // One field
  // ------------------------------------------------------------------

  /** What `read_field` answers. */
  function FieldRead(lib: Library, info: DeviceInfo, mem: Memory, f: Field): Result<Value, ClientError>
    requires WellFormed(f)
  {
    if !Readable(mem, f.area, f.address, f.WordCount()) then Err(ReadRefused(f.area, f.address, f.WordCount()))
    else match DecodeField(lib, info, f, Cells(mem, f.area, f.address, f.WordCount()))
      case Ok(v) => Ok(v)
      case Err(e) => Err(CodecFailed(e))
  }

  /** A full span always decodes. */
  lemma FullSpanDecodes(lib: Library, info: DeviceInfo, f: Field, raw: seq<Word>)
    requires WellFormed(f) && |raw| == f.WordCount()
    ensures DecodeField(lib, info, f, raw).Ok?
  {}

  /** What `write` does: the memory afterwards and the error, if any. */
  function FieldWrite(lib: Library, info: DeviceInfo, mem: Memory, f: Field,
        v: Value): (r: (Memory, Option<ClientError>))
    requires WellFormed(f)
  {
    match EncodeField(lib, info, f, v, false)
    case Err(e) => (mem, Some(CodecFailed(e)))
    case Ok(ws) =>
      if Accepts(mem, f.area, f.address, ws) then (Written(mem, f.area, f.address, ws), None)
      else (mem, Some(WriteRefused(f.area, f.address, |ws|)))
  }

  // ------------------------------------------------------------------
  // Payloads
  // ------------------------------------------------------------------

  /** An insertion-ordered dictionary from start address to the values read there. */
  type AreaPayloads = seq<(nat, seq<Word>)>

  function Put(ps: AreaPayloads, address: nat, values: seq<Word>): AreaPayloads {
    if ps == [] then [(address, values)]
    else if ps[0].0 == address then [(address, values)] + ps[1..]
    else [ps[0]] + Put(ps[1..], address, values)
  }

  lemma {:induction false} PutMembers(ps: AreaPayloads, address: nat, values: seq<Word>, p: (nat, seq<Word>))
    ensures p in Put(ps, address, values) ==> p == (address, values) || p in ps
    ensures p == (address, values) || (p in ps && p.0 != address) ==> p in Put(ps, address, values)
  {
    if ps != [] {
      PutMembers(ps[1..], address, values, p);
      assert ps == [ps[0]] + ps[1..];
    }
  }

  function PayloadsOf(payloads: map<Area, AreaPayloads>, area: Area): AreaPayloads {
    if area in payloads then payloads[area] else []
  }

  predicate Holds(p: (nat, seq<Word>), f: Field) {
    p.0 <= f.address && f.EndAddress() <= p.0 + |p.1|
  }

  /** Each payload is what the device holds there. */
  ghost predicate Faithful(mem: Memory, area: Area, ps: AreaPayloads) {
    forall p :: p in ps ==> FaithfulAt(mem, area, p)
  }

  predicate FaithfulAt(mem: Memory, area: Area, p: (nat, seq<Word>)) {
    Present(mem, area, p.0, |p.1|) && p.1 == Cells(mem, area, p.0, |p.1|)
  }

  /** `_slice_for`: out of the first payload that covers the field. */
  method SliceFor(f: Field, ps: AreaPayloads, ghost mem: Memory) returns (r: Result<seq<Word>, CodecError>)
    requires WellFormed(f) && Faithful(mem, f.area, ps)
    ensures r.Err? ==> r.error == NotCovered(f) && forall p :: p in ps ==> !Holds(p, f)
    ensures r.Ok? ==> Present(mem, f.area, f.address, f.WordCount()) && r.value == Cells(mem, f.area, f.address, f.WordCount())
  {
    for k := 0 to |ps|
      invariant forall j :: 0 <= j < k ==> !Holds(ps[j], f)
    {
      var (start, values) := ps[k];
      var end := start + |values|;
      if start <= f.address && f.EndAddress() <= end {
        var begin := f.address - start;
        assert FaithfulAt(mem, f.area, ps[k]);
        CellsSlice(mem, f.area, start, |values|, begin, f.WordCount());
        return Ok(values[begin..begin + f.WordCount()]);
      }
    }
    return Err(NotCovered(f));
  }

  // ------------------------------------------------------------------
  // Reading a device
  // ------------------------------------------------------------------

  ghost predicate DistinctNames(fields: seq<Field>) {
    forall i, j :: 0 <= i < j < |fields| ==> fields[i].name != fields[j].name
  }

  predicate CommandReadable(mem: Memory, c: ReadCommand) { Readable(mem, c.area, c.address, c.count) }

  ghost predicate AllReadable(mem: Memory, cs: seq<ReadCommand>) {
    forall k :: 0 <= k < |cs| ==> CommandReadable(mem, cs[k])
  }

  /** The instance holds, for every field, what reading that field alone gives. */
  ghost predicate FieldByField(lib: Library, info: DeviceInfo, mem: Memory, fields: seq<Field>, inst: Instance)
    requires AllWellFormed(fields)
  {
    && inst.Keys == (set f | f in fields :: f.name)
    && forall f :: f in fields ==> FieldRead(lib, info, mem, f) == Ok(inst[f.name])
  }

  /** A read fails with the planner's error, or with the first command the device
      refuses, or gives every field what reading it alone would. */
  ghost predicate ReadOutcome(lib: Library, info: DeviceInfo, maxGap: int, mem: Memory,
        r: Result<Instance, ClientError>)
    requires AllWellFormed(info.fields)
  {
    match PlanOf(info.fields, maxGap)
    case Err(e) => r == Err(PlanFailed(e))
    case Ok(cs) =>
      if AllReadable(mem, cs) then r.Ok? && FieldByField(lib, info, mem, info.fields, r.value)
      else
        && r.Err?
        && exists k :: 0 <= k < |cs| && FirstRefused(mem, cs, k) && r.error == ReadRefused(cs[k].area, cs[k].address, cs[k].count)
  }

  ghost predicate FirstRefused(mem: Memory, cs: seq<ReadCommand>, k: int)
    requires 0 <= k < |cs|
  {
    !CommandReadable(mem, cs[k]) && forall j :: 0 <= j < k ==> CommandReadable(mem, cs[j])
  }

  /** The answer to command `c` is among the payloads. */
  ghost predicate Answered(payloads: map<Area, AreaPayloads>, c: ReadCommand) {
    exists p :: p in PayloadsOf(payloads, c.area) && p.0 == c.address && |p.1| == c.count
  }

  ghost predicate AllFaithful(mem: Memory, payloads: map<Area, AreaPayloads>) {
    forall area: Area :: Faithful(mem, area, PayloadsOf(payloads, area))
  }

  ghost predicate DistinctStarts(cs: seq<ReadCommand>) {
    forall i, j :: 0 <= i < j < |cs| && cs[i].area == cs[j].area ==> cs[i].address != cs[j].address
  }

  lemma {:induction false} StartsAreDistinct(cs: seq<ReadCommand>)
    requires forall area: Area :: ReadPlanning.Increasing(OfArea(area, cs))
    ensures DistinctStarts(cs)
  {
    if cs != [] {
      var a := cs[0].area;
      var rest := cs[1..];
      forall area: Area ensures ReadPlanning.Increasing(OfArea(area, rest)) {
        var whole := OfArea(area, cs);
        assert ReadPlanning.Increasing(whole);
        if area == a { assert whole == [cs[0].Block()] + OfArea(area, rest); }
        forall i, j | 0 <= i < j < |OfArea(area, rest)|
          ensures OfArea(area, rest)[i].address < OfArea(area, rest)[j].address
        {
          if area == a {
            assert whole[i + 1] == OfArea(area, rest)[i] && whole[j + 1] == OfArea(area, rest)[j];
          }
        }
      }
      StartsAreDistinct(rest);
      forall i, j | 0 <= i < j < |cs| && cs[i].area == cs[j].area ensures cs[i].address != cs[j].address {
        assert cs[j] == rest[j - 1];
        if i == 0 {
          OfAreaMember(a, rest, cs[j].Block());
          assert cs[j] == ReadCommand(a, cs[j].Block().address, cs[j].Block().count);
          var k :| 0 <= k < |OfArea(a, rest)| && OfArea(a, rest)[k] == cs[j].Block();
          var whole := OfArea(a, cs);
          assert whole[0] == cs[0].Block() && whole[k + 1] == cs[j].Block();
          assert ReadPlanning.Increasing(whole);
        } else {
          assert cs[i] == rest[i - 1];
        }
      }
    }
  }

  lemma AnswerStays(payloads: map<Area, AreaPayloads>, d: ReadCommand, values: seq<Word>, c: ReadCommand)
    requires Answered(payloads, c) && (c.area == d.area ==> c.address != d.address)
    ensures Answered(payloads[d.area := Put(PayloadsOf(payloads, d.area), d.address, values)], c)
  {
    var p :| p in PayloadsOf(payloads, c.area) && p.0 == c.address && |p.1| == c.count;
    PutMembers(PayloadsOf(payloads, d.area), d.address, values, p);
    assert p in PayloadsOf(payloads[d.area := Put(PayloadsOf(payloads, d.area), d.address, values)], c.area);
  }

  lemma AnswerArrives(payloads: map<Area, AreaPayloads>, d: ReadCommand, values: seq<Word>)
    requires |values| == d.count
    ensures Answered(payloads[d.area := Put(PayloadsOf(payloads, d.area), d.address, values)], d)
  {
    PutMembers(PayloadsOf(payloads, d.area), d.address, values, (d.address, values));
    var after := payloads[d.area := Put(PayloadsOf(payloads, d.area), d.address, values)];
    assert (d.address, values) in PayloadsOf(after, d.area);
  }

  lemma StaysFaithful(mem: Memory, payloads: map<Area, AreaPayloads>, d: ReadCommand, values: seq<Word>)
    requires AllFaithful(mem, payloads) && FaithfulAt(mem, d.area, (d.address, values))
    ensures AllFaithful(mem, payloads[d.area := Put(PayloadsOf(payloads, d.area), d.address, values)])
  {
    hide FaithfulAt;
    var ps := PayloadsOf(payloads, d.area);
    var after := payloads[d.area := Put(ps, d.address, values)];
    forall area: Area ensures Faithful(mem, area, PayloadsOf(after, area)) {
      assert Faithful(mem, area, PayloadsOf(payloads, area));
      if area == d.area {
        forall p | p in Put(ps, d.address, values) ensures FaithfulAt(mem, area, p) {
          PutMembers(ps, d.address, values, p);
        }
      }
    }
  }

  class ModbusClient {
    const lib: Library
    const connection: ModbusConnection

    constructor (l: Library, c: ModbusConnection)
      ensures lib == l && connection == c
    {
      lib, connection := l, c;
    }

    /** Sends the commands one by one and keeps what comes back. */
    method Fetch(cs: seq<ReadCommand>) returns (r: Result<map<Area, AreaPayloads>, ClientError>)
      requires DistinctStarts(cs)
      ensures r.Ok? <==> AllReadable(connection.mem, cs)
      ensures r.Ok? ==> AllFaithful(connection.mem, r.value) && forall k :: 0 <= k < |cs| ==> Answered(r.value, cs[k])
      ensures r.Err? ==> exists k :: 0 <= k < |cs| && FirstRefused(connection.mem, cs, k)
                                     && r.error == ReadRefused(cs[k].area, cs[k].address, cs[k].count)
    {
      hide Answered, AllFaithful;
      var payloads: map<Area, AreaPayloads> := map[];
      NothingYet(connection.mem);
      for k := 0 to |cs|
        invariant forall j :: 0 <= j < k ==> CommandReadable(connection.mem, cs[j])
        invariant AllFaithful(connection.mem, payloads)
        invariant forall j :: 0 <= j < k ==> Answered(payloads, cs[j])
      {
        var c := cs[k];
        var answer := connection.Read(c.area, c.address, c.count);
        if answer.Err? {
          assert FirstRefused(connection.mem, cs, k);
          return Err(answer.error);
        }
        forall j | 0 <= j < k
          ensures Answered(payloads[c.area := Put(PayloadsOf(payloads, c.area), c.address, answer.value)], cs[j])
        {
          AnswerStays(payloads, c, answer.value, cs[j]);
        }
        AnswerArrives(payloads, c, answer.value);
        StaysFaithful(connection.mem, payloads, c, answer.value);
        payloads := payloads[c.area := Put(PayloadsOf(payloads, c.area), c.address, answer.value)];
      }
      return Ok(payloads);
    }

    /** `decode_device`. */
    method DecodeDevice(info: DeviceInfo, payloads: map<Area, AreaPayloads>, ghost cs: seq<ReadCommand>)
        returns (r: Result<Instance, ClientError>)
      requires AllWellFormed(info.fields) && DistinctNames(info.fields)
      requires AllFaithful(connection.mem, payloads) && forall k :: 0 <= k < |cs| ==> Answered(payloads, cs[k])
      requires AllCovered(cs, info.fields) && forall f :: f in info.fields ==> !TooLarge(f)
      ensures r.Ok? && FieldByField(lib, info, connection.mem, info.fields, r.value)
    {
      hide Answered, AllFaithful, Faithful, WellFormed, FieldCovered, TooLarge, DecodeField;
      var inst: Instance := map[];
      for i := 0 to |info.fields|
        invariant inst.Keys == set j | 0 <= j < i :: info.fields[j].name
        invariant forall j :: 0 <= j < i ==> FieldRead(lib, info, connection.mem, info.fields[j]) == Ok(inst[info.fields[j].name])
      {
        var f := info.fields[i];
        assert f in info.fields && FieldCovered(cs, f);
        CoveredFieldHeld(connection.mem, payloads, cs, f);
        var chunk := SliceFor(f, PayloadsOf(payloads, f.area), connection.mem);
        assert chunk.Ok?;
        var value := DecodeField(lib, info, f, chunk.value);
        FullSpanDecodes(lib, info, f, chunk.value);
        FittingFieldReads(lib, info, connection.mem, f);
        inst := inst[f.name := value.value];
      }
      return Ok(inst);
    }

    /** `read`. */
    method Read(info: DeviceInfo, maxGap: int) returns (r: Result<Instance, ClientError>)
      requires AllWellFormed(info.fields) && DistinctNames(info.fields)
      ensures ReadOutcome(lib, info, maxGap, connection.mem, r)
    {
      hide AllWellFormed, PlanOf, FieldByField, AllReadable, Answered, AllFaithful, TooLarge, DistinctStarts;
      var plan := PlanReads(info.fields, maxGap);
      if plan.Err? {
        return Err(PlanFailed(plan.error));
      }
      PlanExists(info.fields, maxGap);
      forall area: Area
        ensures ReadPlanning.Increasing(OfArea(area, plan.value))
      {
        PlanIsOrdered(info.fields, maxGap, area);
      }
      StartsAreDistinct(plan.value);
      PlanCoversEveryField(info.fields, maxGap);
      var payloads := Fetch(plan.value);
      if payloads.Err? {
        return Err(payloads.error);
      }
      r := DecodeDevice(info, payloads.value, plan.value);
    }

    /** `read_field`. */
    method ReadField(info: DeviceInfo, f: Field) returns (r: Result<Value, ClientError>)
      requires WellFormed(f)
      ensures r == FieldRead(lib, info, connection.mem, f)
    {
      var values :- connection.Read(f.area, f.address, f.WordCount());
      var decoded := DecodeField(lib, info, f, values);
      if decoded.Err? {
        return Err(CodecFailed(decoded.error));
      }
      return Ok(decoded.value);
    }

    /** `write`. */
    method Write(info: DeviceInfo, f: Field, v: Value) returns (r: Option<ClientError>)
      requires WellFormed(f)
      modifies connection
      ensures (connection.mem, r) == FieldWrite(lib, info, old(connection.mem), f, v)
    {
      var payload := EncodeField(lib, info, f, v, false);
      if payload.Err? {
        return Some(CodecFailed(payload.error));
      }
      var answer := connection.Write(f.area, f.address, payload.value);
      return if answer.Ok? then None else Some(answer.error);
    }

    /** `write_device`: read-only areas and absent values are skipped; the first
        failure ends the run and leaves the earlier writes in place. */
    method WriteDevice(info: DeviceInfo, inst: Instance) returns (r: Option<ClientError>)
      requires AllWellFormed(info.fields)
      modifies connection
      ensures (connection.mem, r) == WriteEach(lib, info, info.fields, inst, old(connection.mem))
    {
      hide FieldWrite;
      ghost var mem := connection.mem;
      assert info.fields[0..] == info.fields;
      for i := 0 to |info.fields|
        invariant WriteEach(lib, info, info.fields, inst, mem) == WriteEach(lib, info, info.fields[i..], inst, connection.mem)
      {
        var f := info.fields[i];
        assert f in info.fields && info.fields[i..][1..] == info.fields[i + 1..];
        if f.area.Writable() && f.name in inst {
          r := Write(info, f, inst[f.name]);
          if r.Some? { return; }
        }
      }
      r := None;
    }
  }

  predicate Writes(f: Field, inst: Instance) { f.area.Writable() && f.name in inst }

  /** The writes of `fields` in order, up to the first that fails. */
  function WriteEach(lib: Library, info: DeviceInfo, fields: seq<Field>, inst: Instance,
        mem: Memory): (Memory, Option<ClientError>)
    requires AllWellFormed(fields)
  {
    if fields == [] then (mem, None)
    else if !Writes(fields[0], inst) then WriteEach(lib, info, fields[1..], inst, mem)
    else
      var (after, error) := FieldWrite(lib, info, mem, fields[0], inst[fields[0].name]);
      if error.Some? then (after, error) else WriteEach(lib, info, fields[1..], inst, after)
  }

  lemma NothingYet(mem: Memory)
    ensures AllFaithful(mem, map[])
  {}

  lemma CoveredFieldHeld(mem: Memory, payloads: map<Area, AreaPayloads>, cs: seq<ReadCommand>, f: Field)
    requires FieldCovered(cs, f) && forall k :: 0 <= k < |cs| ==> Answered(payloads, cs[k])
    requires AllFaithful(mem, payloads)
    ensures Faithful(mem, f.area, PayloadsOf(payloads, f.area))
    ensures exists p :: p in PayloadsOf(payloads, f.area) && Holds(p, f)
  {
    hide Faithful;
    var k :| 0 <= k < |cs| && cs[k].CoversField(f);
    assert Answered(payloads, cs[k]);
    var p :| p in PayloadsOf(payloads, cs[k].area) && p.0 == cs[k].address && |p.1| == cs[k].count;
    assert Holds(p, f);
  }

  lemma FittingFieldReads(lib: Library, info: DeviceInfo, mem: Memory, f: Field)
    requires WellFormed(f) && !TooLarge(f) && Present(mem, f.area, f.address, f.WordCount())
    ensures Readable(mem, f.area, f.address, f.WordCount())
  {}

  // ------------------------------------------------------------------
  // What a planned read means
  // ------------------------------------------------------------------

  predicate Declared(fields: seq<Field>, area: Area, a: nat) {
    exists f :: f in fields && f.area == area && f.address <= a < f.EndAddress()
  }

  /** Every address the plan reads between fields, belonging to none, is there. */
  ghost predicate GapsPresent(fields: seq<Field>, maxGap: int, mem: Memory)
    requires AllWellFormed(fields)
  {
    && PlanOf(fields, maxGap).Ok?
    && forall c, a: nat ::
        (c in PlanOf(fields, maxGap).value && c.address <= a < c.address + c.count && !Declared(fields, c.area, a)) ==>
          (c.area, a) in mem
  }

  /** A planned read agrees with reading each field alone, and it succeeds exactly
      when each of those would and the device has the addresses read in between. */
  lemma PlannedReadIsFieldReads(lib: Library, info: DeviceInfo, maxGap: int, mem: Memory,
        r: Result<Instance, ClientError>)
    requires AllWellFormed(info.fields) && ReadOutcome(lib, info, maxGap, mem, r)
    ensures r.Ok? <==> (forall f :: f in info.fields ==> FieldRead(lib, info, mem, f).Ok?) && GapsPresent(info.fields, maxGap, mem)
    ensures r.Ok? ==> forall f :: f in info.fields ==> f.name in r.value && FieldRead(lib, info, mem, f) == Ok(r.value[f.name])
  {
    hide PlanOf, TooLarge, FieldRead, WellFormed, Admissible, Declared;
    if r.Ok? {
      forall f | f in info.fields ensures f.name in r.value { assert f.name in r.value.Keys; }
      ReadableGaps(info.fields, maxGap, mem);
    }
    if (forall f :: f in info.fields ==> FieldRead(lib, info, mem, f).Ok?) && GapsPresent(info.fields, maxGap, mem) {
      var cs := PlanOf(info.fields, maxGap).value;
      PlanExists(info.fields, maxGap);
      PlanIsAdmissible(info.fields, maxGap);
      forall k: nat | k < |cs| ensures CommandReadable(mem, cs[k]) {
        assert cs[k] in cs && Admissible(info.fields, maxGap, cs[k]);
        CommandIsReadable(lib, info, maxGap, mem, cs[k]);
      }
    }
  }

  lemma ReadableGaps(fields: seq<Field>, maxGap: int, mem: Memory)
    requires AllWellFormed(fields) && PlanOf(fields, maxGap).Ok? && AllReadable(mem, PlanOf(fields, maxGap).value)
    ensures GapsPresent(fields, maxGap, mem)
  {
    hide PlanOf, Declared, AllWellFormed;
    var cs := PlanOf(fields, maxGap).value;
    forall c, a: nat | c in cs && c.address <= a < c.address + c.count && !Declared(fields, c.area, a)
      ensures (c.area, a) in mem
    {
      var k :| 0 <= k < |cs| && cs[k] == c;
      assert CommandReadable(mem, cs[k]);
    }
  }

  lemma CommandIsReadable(lib: Library, info: DeviceInfo, maxGap: int, mem: Memory, c: ReadCommand)
    requires AllWellFormed(info.fields) && GapsPresent(info.fields, maxGap, mem) && c in PlanOf(info.fields, maxGap).value
    requires Admissible(info.fields, maxGap, c)
    requires forall f :: f in info.fields ==> FieldRead(lib, info, mem, f).Ok?
    ensures CommandReadable(mem, c)
  {
    hide AllWellFormed, PlanOf, DecodeField, FieldRead;
    forall a: nat | c.address <= a < c.address + c.count ensures (c.area, a) in mem {
      if Declared(info.fields, c.area, a) {
        var f :| f in info.fields && f.area == c.area && f.address <= a < f.EndAddress();
        WellFormedMember(info.fields, f);
        ReadableFits(lib, info, mem, f);
      }
    }
  }

  /** With no gap allowed, one refused address cannot spoil a read that the fields
      one by one would survive, and the other way round. */
  lemma NoGapReadIsFieldReads(lib: Library, info: DeviceInfo, mem: Memory, r: Result<Instance, ClientError>)
    requires AllWellFormed(info.fields) && ReadOutcome(lib, info, 0, mem, r)
    ensures r.Ok? <==> forall f :: f in info.fields ==> FieldRead(lib, info, mem, f).Ok?
  {
    hide PlanOf, TooLarge, FieldRead, WellFormed;
    PlannedReadIsFieldReads(lib, info, 0, mem, r);
    if forall f :: f in info.fields ==> FieldRead(lib, info, mem, f).Ok? {
      PlanExists(info.fields, 0);
      forall f | f in info.fields ensures !TooLarge(f) { ReadableFits(lib, info, mem, f); }
      forall c, a: nat | c in PlanOf(info.fields, 0).value && c.address <= a < c.address + c.count
        ensures Declared(info.fields, c.area, a)
      {
        NoGapReadsOnlyDeclared(info.fields, c, a);
      }
    }
  }

  lemma ReadableFits(lib: Library, info: DeviceInfo, mem: Memory, f: Field)
    requires WellFormed(f) && FieldRead(lib, info, mem, f).Ok?
    ensures !TooLarge(f) && Present(mem, f.area, f.address, f.WordCount())
  {}

  // ------------------------------------------------------------------
  // What a device write means
  // ------------------------------------------------------------------

  predicate InField(f: Field, b: Area, x: nat) { b == f.area && f.address <= x < f.EndAddress() }

  lemma FieldWriteCells(lib: Library, info: DeviceInfo, mem: Memory, f: Field, v: Value, b: Area, x: nat)
    requires WellFormed(f)
    ensures (b, x) in FieldWrite(lib, info, mem, f, v).0 <==> (b, x) in mem
    ensures !InField(f, b, x) && (b, x) in mem ==> FieldWrite(lib, info, mem, f, v).0[(b, x)] == mem[(b, x)]
  {
    var ws := EncodeField(lib, info, f, v, false);
    if ws.Ok? {
      EncodedFillsField(lib, info, f, v, false);
      WrittenCells(mem, f.area, f.address, ws.value, b, x);
    }
  }

  /** Only addresses of writable fields that hold a value change, failed run or not. */
  lemma {:induction false} WriteTouchesOnlyItsFields(lib: Library, info: DeviceInfo, fields: seq<Field>,
        inst: Instance, mem: Memory, b: Area, x: nat)
    requires AllWellFormed(fields)
    requires forall f :: f in fields && Writes(f, inst) ==> !InField(f, b, x)
    ensures (b, x) in WriteEach(lib, info, fields, inst, mem).0 <==> (b, x) in mem
    ensures (b, x) in mem ==> WriteEach(lib, info, fields, inst, mem).0[(b, x)] == mem[(b, x)]
  {
    hide FieldWrite, WellFormed, InField;
    if fields != [] {
      var f := fields[0];
      if !Writes(f, inst) {
        WriteTouchesOnlyItsFields(lib, info, fields[1..], inst, mem, b, x);
      } else {
        var after := FieldWrite(lib, info, mem, f, inst[f.name]);
        FieldWriteCells(lib, info, mem, f, inst[f.name], b, x);
        if after.1.None? {
          WriteTouchesOnlyItsFields(lib, info, fields[1..], inst, after.0, b, x);
        }
      }
    }
  }

  lemma SameCells(mem: Memory, other: Memory, area: Area, address: nat, count: nat)
    requires Present(mem, area, address, count) && Present(other, area, address, count)
    requires forall a: nat :: address <= a < address + count ==> mem[(area, a)] == other[(area, a)]
    ensures Cells(mem, area, address, count) == Cells(other, area, address, count)
  {
    forall i: nat | i < count ensures Cells(mem, area, address, count)[i] == Cells(other, area, address, count)[i] {
      CellsAt(mem, area, address, count, i);
      CellsAt(other, area, address, count, i);
    }
  }

  lemma WrittenHolds(mem: Memory, area: Area, address: nat, ws: seq<Word>)
    requires Present(mem, area, address, |ws|)
    ensures Present(Written(mem, area, address, ws), area, address, |ws|)
    ensures Cells(Written(mem, area, address, ws), area, address, |ws|) == ws
  {
    var after := Written(mem, area, address, ws);
    forall a: nat | address <= a < address + |ws| ensures (area, a) in after && after[(area, a)] == ws[a - address] {
      WrittenCells(mem, area, address, ws, area, a);
    }
    forall i: nat | i < |ws| ensures Cells(after, area, address, |ws|)[i] == ws[i] {
      CellsAt(after, area, address, |ws|, i);
      assert address + i - address == i;
    }
  }

  /** The registers a field holds after a successful write of the whole device. */
  lemma {:induction false} WrittenFieldHolds(lib: Library, info: DeviceInfo, fields: seq<Field>, inst: Instance,
        mem: Memory, f: Field)
    requires AllWellFormed(fields) && NoOverlap(fields) && f in fields && Writes(f, inst)
    requires WriteEach(lib, info, fields, inst, mem).1.None?
    ensures EncodeField(lib, info, f, inst[f.name], false).Ok?
    ensures var after := WriteEach(lib, info, fields, inst, mem).0;
            Present(after, f.area, f.address, f.WordCount())
            && Cells(after, f.area, f.address, f.WordCount()) == EncodeField(lib, info, f, inst[f.name], false).value
  {
    hide WellFormed, NoOverlap, EncodeField;
    NoOverlapCons(fields);
    var g := fields[0];
    WellFormedMember(fields, g);
    WellFormedMember(fields, f);
    if g == f {
      var ws := EncodeField(lib, info, f, inst[f.name], false).value;
      EncodedFillsField(lib, info, f, inst[f.name], false);
      var written := Written(mem, f.area, f.address, ws);
      WrittenHolds(mem, f.area, f.address, ws);
      LaterWritesMiss(lib, info, fields[1..], inst, written, f);
    } else if !Writes(g, inst) {
      WrittenFieldHolds(lib, info, fields[1..], inst, mem, f);
    } else {
      WrittenFieldHolds(lib, info, fields[1..], inst, FieldWrite(lib, info, mem, g, inst[g.name]).0, f);
    }
  }

  lemma LaterWritesMiss(lib: Library, info: DeviceInfo, rest: seq<Field>, inst: Instance, mem: Memory, f: Field)
    requires WellFormed(f) && AllWellFormed(rest) && Present(mem, f.area, f.address, f.WordCount())
    requires forall g :: g in rest && Writes(g, inst) ==> Apart(f, g)
    ensures var after := WriteEach(lib, info, rest, inst, mem).0;
            Present(after, f.area, f.address, f.WordCount())
            && Cells(after, f.area, f.address, f.WordCount()) == Cells(mem, f.area, f.address, f.WordCount())
  {
    hide WriteEach;
    var after := WriteEach(lib, info, rest, inst, mem).0;
    forall a: nat | f.address <= a < f.EndAddress()
      ensures (f.area, a) in after && after[(f.area, a)] == mem[(f.area, a)]
    {
      WriteTouchesOnlyItsFields(lib, info, rest, inst, mem, f.area, a);
    }
    SameCells(after, mem, f.area, f.address, f.WordCount());
  }

  /** The whole device is written exactly when each field alone could be: its value
      encodes and the device accepts it. */
  lemma {:induction false} DeviceWriteSucceeds(lib: Library, info: DeviceInfo, fields: seq<Field>,
        inst: Instance, mem: Memory)
    requires AllWellFormed(fields)
    ensures WriteEach(lib, info, fields, inst, mem).1.None? <==>
            forall f :: f in fields && Writes(f, inst) ==> FieldWrite(lib, info, mem, f, inst[f.name]).1.None?
  {
    hide FieldWrite, WellFormed;
    if fields != [] {
      var g := fields[0];
      assert fields == [g] + fields[1..];
      if !Writes(g, inst) {
        DeviceWriteSucceeds(lib, info, fields[1..], inst, mem);
      } else {
        var (after, error) := FieldWrite(lib, info, mem, g, inst[g.name]);
        if error.None? {
          DeviceWriteSucceeds(lib, info, fields[1..], inst, after);
          forall f | f in fields[1..] && Writes(f, inst)
            ensures FieldWrite(lib, info, after, f, inst[f.name]).1 == FieldWrite(lib, info, mem, f, inst[f.name]).1
          {
            forall a: nat ensures (f.area, a) in after <==> (f.area, a) in mem {
              FieldWriteCells(lib, info, mem, g, inst[g.name], f.area, a);
            }
            WellFormedMember(fields, f);
            SameAddressesSameAnswer(lib, info, mem, after, f, inst[f.name]);
          }
        }
      }
    }
  }

  lemma SameAddressesSameAnswer(lib: Library, info: DeviceInfo, mem: Memory, after: Memory, f: Field, v: Value)
    requires WellFormed(f) && forall a: nat :: (f.area, a) in after <==> (f.area, a) in mem
    ensures FieldWrite(lib, info, after, f, v).1 == FieldWrite(lib, info, mem, f, v).1
  {
    hide EncodeField;
  }

  /** Reading after a successful write: written fields give back their encoding
      decoded, all others what they gave before. */
  lemma ReadAfterWrite(lib: Library, info: DeviceInfo, inst: Instance, mem: Memory, f: Field)
    requires AllWellFormed(info.fields) && NoOverlap(info.fields) && f in info.fields
    requires WriteEach(lib, info, info.fields, inst, mem).1.None?
    requires FieldRead(lib, info, mem, f).Ok?
    ensures var after := WriteEach(lib, info, info.fields, inst, mem).0;
            if Writes(f, inst) then
              EncodeField(lib, info, f, inst[f.name], false).Ok?
              && FieldRead(lib, info, after, f).Ok?
              && DecodeField(lib, info, f, EncodeField(lib, info, f, inst[f.name], false).value) == Ok(FieldRead(lib, info, after, f).value)
            else FieldRead(lib, info, after, f) == FieldRead(lib, info, mem, f)
  {
    hide WellFormed, NoOverlap, EncodeField, DecodeField, WriteEach;
    WellFormedMember(info.fields, f);
    ReadableFits(lib, info, mem, f);
    var after := WriteEach(lib, info, info.fields, inst, mem).0;
    if Writes(f, inst) {
      WrittenFieldHolds(lib, info, info.fields, inst, mem, f);
      EncodedFillsField(lib, info, f, inst[f.name], false);
      FittingFieldReads(lib, info, after, f);
      FullSpanDecodes(lib, info, f, EncodeField(lib, info, f, inst[f.name], false).value);
    } else {
      forall g | g in info.fields && Writes(g, inst) ensures Apart(f, g) {
        ApartMembers(info.fields, f, g);
      }
      LaterWritesMiss(lib, info, info.fields, inst, mem, f);
      FittingFieldReads(lib, info, after, f);
    }
  }

  /** Unscaled integers and bits come back from the device as they were sent. */
  lemma WrittenValueIsReadBack(lib: Library, info: DeviceInfo, inst: Instance, mem: Memory, f: Field)
    requires AllWellFormed(info.fields) && NoOverlap(info.fields) && f in info.fields && Writes(f, inst)
    requires WriteEach(lib, info, info.fields, inst, mem).1.None?
    requires FieldRead(lib, info, mem, f).Ok?
    requires if f.area.IsBit() then BitShape(f, inst[f.name]) else f.kind.IsInteger() && !Scaled(f) && inst[f.name].Whole?
    ensures FieldRead(lib, info, WriteEach(lib, info, info.fields, inst, mem).0, f) == Ok(inst[f.name])
  {
    hide WellFormed, NoOverlap, EncodeField, DecodeField, WriteEach, FieldRead;
    WellFormedMember(info.fields, f);
    ReadAfterWrite(lib, info, inst, mem, f);
    if f.area.IsBit() {
      BitFieldComesBack(lib, info, f, inst[f.name]);
    } else {
      UnscaledIntegerComesBack(lib, info, f, inst[f.name].i);
    }
  }

  lemma ApartMembers(fields: seq<Field>, f: Field, g: Field)
    requires NoOverlap(fields) && f in fields && g in fields && f != g
    ensures Apart(f, g)
  {
    var i :| 0 <= i < |fields| && fields[i] == f;
    var j :| 0 <= j < |fields| && fields[j] == g;
    assert i < j ==> Apart(fields[i], fields[j]);
    assert j < i ==> Apart(fields[j], fields[i]);
  }
}
