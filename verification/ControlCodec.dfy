/** Messages of the control channel (`_control.py`): two fixed bytes and the rest,
    and the envelopes of adapter commands and their acknowledgements. */
module ControlCodec {
  import opened Wrappers
  import opened Bytes

  const BROADCAST: Byte := 255
  const MAX_MESSAGE: nat := 512

  // ------------------------------------------------------------------
  // `pack` and `unpack`
  // ------------------------------------------------------------------

  /** Python's `& 0xFF`, for any integer. */
  function LowByte(v: int): Byte { v % 256 }

  function PackControl(index: int, extra: seq<Byte>, flag: int): seq<Byte> {
    [LowByte(index), LowByte(flag)] + extra
  }

  function UnpackControl(payload: seq<Byte>): (Byte, Byte, seq<Byte>) {
    if |payload| < 2 then (BROADCAST, 0, []) else (payload[0], payload[1], payload[2..])
  }

  /** A report names its sender exactly when the sender's index fits a byte; two
      senders 256 apart would be taken for one. */
  lemma ControlRoundTrip(index: nat, extra: seq<Byte>, flag: nat)
    ensures UnpackControl(PackControl(index, extra, flag)) == (LowByte(index), LowByte(flag), extra)
    ensures UnpackControl(PackControl(index, extra, flag)) == (index, flag, extra) <==> index < 256 && flag < 256
    ensures PackControl(index, extra, flag) == PackControl(index + 256, extra, flag)
  {
    assert PackControl(index, extra, flag)[2..] == extra;
  }

  // ------------------------------------------------------------------
  // Adapter commands
  // ------------------------------------------------------------------

  /** `sorted(set(targets))`. */
  function SortedSet(s: seq<int>): seq<int> {
    if s == [] then [] else InsertInto(s[0], SortedSet(s[1..]))
  }

  function InsertInto(x: int, s: seq<int>): seq<int> {
    if s == [] || x < s[0] then [x] + s
    else if x == s[0] then s
    else [s[0]] + InsertInto(x, s[1..])
  }

  ghost predicate Increasing(s: seq<int>) {
    forall i, j :: 0 <= i < j < |s| ==> s[i] < s[j]
  }

  predicate NoDuplicates(s: seq<int>) {
    forall i, j :: 0 <= i < j < |s| ==> s[i] != s[j]
  }

  lemma {:induction false} InsertIntoFacts(x: int, s: seq<int>)
    requires Increasing(s)
    ensures Increasing(InsertInto(x, s))
    ensures forall y :: y in InsertInto(x, s) <==> y == x || y in s
    ensures |InsertInto(x, s)| == if x in s then |s| else |s| + 1
  {
    if s == [] || x < s[0] {
    } else if x > s[0] {
      InsertIntoFacts(x, s[1..]);
      assert s == [s[0]] + s[1..];
      IncreasingCons(s[0], InsertInto(x, s[1..]));
    }
  }

  lemma IncreasingCons(x: int, s: seq<int>)
    requires Increasing(s) && forall y :: y in s ==> x < y
    ensures Increasing([x] + s)
  {
    var r := [x] + s;
    forall i, j | 0 <= i < j < |r| ensures r[i] < r[j] {
      assert r[j] == s[j - 1] && s[j - 1] in s;
      if i > 0 { assert r[i] == s[i - 1]; }
    }
  }

  lemma {:induction false} SortedSetFacts(s: seq<int>)
    ensures Increasing(SortedSet(s))
    ensures forall y :: y in SortedSet(s) <==> y in s
    ensures |SortedSet(s)| <= |s|
    ensures |SortedSet(s)| == |s| <==> NoDuplicates(s)
  {
    if s != [] {
      SortedSetFacts(s[1..]);
      InsertIntoFacts(s[0], SortedSet(s[1..]));
      assert s == [s[0]] + s[1..];
      assert NoDuplicates(s) <==> s[0] !in s[1..] && NoDuplicates(s[1..]) by { NoDuplicatesCons(s); }
    }
  }

  lemma NoDuplicatesCons(s: seq<int>)
    requires s != []
    ensures NoDuplicates(s) <==> s[0] !in s[1..] && NoDuplicates(s[1..])
  {
    if s[0] !in s[1..] && NoDuplicates(s[1..]) {
      forall i, j | 0 <= i < j < |s| ensures s[i] != s[j] {
        assert s[j] == s[1..][j - 1];
        if i > 0 { assert s[i] == s[1..][i - 1]; }
      }
    }
    if NoDuplicates(s) {
      forall y | y in s[1..] ensures y != s[0] {
        var j :| 0 <= j < |s[1..]| && s[1..][j] == y;
        assert s[j + 1] == y;
      }
      forall i, j | 0 <= i < j < |s[1..]| ensures s[1..][i] != s[1..][j] { assert s[i + 1] != s[j + 1]; }
    }
  }

  predicate AllBytes(s: seq<int>) { forall i :: 0 <= i < |s| ==> 0 <= s[i] < 256 }

  function AsBytes(s: seq<int>): (r: seq<Byte>)
    requires AllBytes(s)
    ensures |r| == |s|
  {
    if s == [] then []
    else
      var b: Byte := s[0];
      [b] + AsBytes(s[1..])
  }

  function AsInts(s: seq<Byte>): (r: seq<int>)
    ensures |r| == |s|
  {
    if s == [] then [] else [s[0]] + AsInts(s[1..])
  }

  lemma {:induction false} BytesAndInts(s: seq<int>)
    requires AllBytes(s)
    ensures AsInts(AsBytes(s)) == s
  {
    if s != [] {
      BytesAndInts(s[1..]);
      assert s == [s[0]] + s[1..];
    }
  }

  datatype Command = Command(request: seq<Byte>, targets: seq<int>, body: seq<Byte>)

  predicate CommandPackable(c: Command) {
    && |c.request| == 16
    && |c.targets| <= 255 && (forall t :: t in c.targets ==> 0 <= t <= 254)
    && |SortedSet(c.targets)| == |c.targets|
    && |c.body| <= MAX_MESSAGE - 17 - |SortedSet(c.targets)|
  }

  lemma SortedTargets(targets: seq<int>)
    requires forall t :: t in targets ==> 0 <= t <= 254
    ensures AllBytes(SortedSet(targets))
  {
    SortedSetFacts(targets);
    forall i | 0 <= i < |SortedSet(targets)| ensures 0 <= SortedSet(targets)[i] < 256 {
      assert SortedSet(targets)[i] in SortedSet(targets);
    }
  }

  /** `pack_adapter_command`; `None` is its `ValueError`. */
  function PackCommand(c: Command): Option<seq<Byte>> {
    if !CommandPackable(c) then None
    else
      var unique := SortedSet(c.targets);
      SortedTargets(c.targets);
      Some(c.request + [|unique|] + AsBytes(unique) + c.body)
  }

  /** `unpack_adapter_command`. */
  function UnpackCommand(payload: seq<Byte>): Option<Command> {
    if |payload| < 17 then None
    else
      var end: nat := 17 + payload[16] as int;
      if |payload| < end then None
      else
        var targets := AsInts(payload[17..end]);
        if NoDuplicates(targets) then Some(Command(payload[..16], targets, payload[end..])) else None
  }

  /** A packed command fits the channel and comes back with its targets in order. */
  lemma CommandRoundTrip(c: Command)
    requires CommandPackable(c)
    ensures |PackCommand(c).value| <= MAX_MESSAGE
    ensures UnpackCommand(PackCommand(c).value) == Some(c.(targets := SortedSet(c.targets)))
    ensures forall t :: t in SortedSet(c.targets) <==> t in c.targets
  {
    hide SortedSet, NoDuplicates;
    SortedSetFacts(c.targets);
    SortedTargets(c.targets);
    var unique := SortedSet(c.targets);
    BytesAndInts(unique);
    IncreasingIsDistinct(unique);
    var p := PackCommand(c).value;
    assert p[..16] == c.request && p[16] == |unique|;
    assert p[17..17 + |unique|] == AsBytes(unique);
    assert p[17 + |unique|..] == c.body;
  }

  lemma IncreasingIsDistinct(s: seq<int>)
    requires Increasing(s)
    ensures NoDuplicates(s)
  {}

  // ------------------------------------------------------------------
  // Acknowledgements
  // ------------------------------------------------------------------

  datatype Ack = Ack(request: seq<Byte>, index: int, result: seq<Byte>)

  predicate AckPackable(a: Ack) { |a.request| == 16 && 0 <= a.index <= 254 && |a.result| <= MAX_MESSAGE - 17 }

  function PackAck(a: Ack): Option<seq<Byte>> {
    if AckPackable(a) then Some(a.request + [a.index] + a.result) else None
  }

  function UnpackAck(payload: seq<Byte>): Option<Ack> {
    if |payload| < 17 then None else Some(Ack(payload[..16], payload[16], payload[17..]))
  }

  lemma AckRoundTrip(a: Ack)
    requires AckPackable(a)
    ensures |PackAck(a).value| <= MAX_MESSAGE && UnpackAck(PackAck(a).value) == Some(a)
  {
    var p := PackAck(a).value;
    assert p[..16] == a.request && p[16] == a.index && p[17..] == a.result;
  }

  /** What is unpacked is what was packed: no two messages mean the same, and a
      broadcast index cannot come from the packer. */
  lemma AckIsPacked(payload: seq<Byte>)
    requires UnpackAck(payload).Some? && |payload| <= MAX_MESSAGE
    ensures UnpackAck(payload).value.index != BROADCAST ==> PackAck(UnpackAck(payload).value) == Some(payload)
    ensures UnpackAck(payload).value.index == BROADCAST ==> PackAck(UnpackAck(payload).value) == None
  {
    assert payload == payload[..16] + [payload[16]] + payload[17..];
  }
}
