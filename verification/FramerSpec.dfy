/** What `NativeFramer` means, one byte at a time. The real framer works on
    whole chunks and forwards early; `NativeFraming` refines this machine. */
module FramerSpec {
  import opened Wrappers
  import opened LogPatterns

  datatype Config = Config(limit: nat, quiet: bool)

  datatype State = State(pending: Bytes, forwarded: nat, active: Bytes, discard: bool)

  /** The callbacks, in order. `Forward` is split into single bytes; `Hide` is no
      callback: it records the line the framer chose not to forward. */
  datatype Event =
    | Byte(b: char)
    | Hide(line: Bytes)
    | Record(record: Bytes)
    | Count(name: string)
    | Drained

  datatype Step = Step(st: State, out: seq<Event>)

  const FRESH := State([], 0, [], false)

  ghost predicate Inv(cfg: Config, st: State) {
    && |st.pending| <= cfg.limit
    && |st.active| <= cfg.limit
    && '\n' !in st.pending
    && st.forwarded == (if st.pending == [] || PossiblePrefix(st.pending) then 0 else |st.pending|)
    && (st.discard ==> st.pending == [] && st.active == [])
    && (st.active != [] ==> HandshakerPayload(st.active).Some?)
  }

  /** `line[forwarded:]`. */
  function Rest(line: Bytes, forwarded: nat): Bytes {
    if forwarded <= |line| then line[forwarded..] else []
  }

  function Forward(bs: Bytes): seq<Event> {
    seq(|bs|, i requires 0 <= i < |bs| => Byte(bs[i]))
  }

  lemma ForwardConcat(a: Bytes, b: Bytes)
    ensures Forward(a + b) == Forward(a) + Forward(b)
  {}

  // ------------------------------------------------------------------
  // A complete line
  // ------------------------------------------------------------------

  /** Is this complete line withheld from the original stderr? */
  predicate Hides(cfg: Config, line: Bytes) {
    var p := MatchPrefix(line);
    p.Some? && cfg.quiet && IsManaged(p.value.source) && !IsSerious(line[0])
  }

  /** A handshaker line too irregular to parse, which is only counted. */
  predicate LooksLikeFailure(line: Bytes, body: nat)
    requires body <= |line|
  {
    || StartsAt(line, body, "CallNextHandshakerLocked:")
    || (StartsAt(line, body, "handshake_manager ")
        && Contains(line[body..], "args={") && Contains(line[body..], "error="))
  }

  function Emit(cfg: Config, line: Bytes, forwarded: nat): seq<Event> {
    if Hides(cfg, line) then [Hide(Rest(line, forwarded))] else Forward(Rest(line, forwarded))
  }

  /** The record being assembled after `line`, and what is counted on the way. */
  function Assemble(active: Bytes, line: Bytes): (Bytes, seq<Event>) {
    var p := MatchPrefix(line);
    if HandshakerPayload(line).Some? then (line, [])
    else if p.Some? then
      ([], if IsHandshaker(p.value.source) && LooksLikeFailure(line, p.value.end)
           then [Count("unparsed")] else [])
    else if active != [] then (active + line, [])
    else ([], if Contains(line, "CallNextHandshakerLocked: error=") then [Count("unparsed")] else [])
  }

  /** An oversized record is dropped; a finished one is delivered. */
  function Close(cfg: Config, active: Bytes): (Bytes, seq<Event>) {
    if |active| > cfg.limit then ([], [Count("truncated")])
    else if active != [] && HasEnd(active) then ([], [Record(active)])
    else (active, [])
  }

  function Line(cfg: Config, active: Bytes, line: Bytes, forwarded: nat): (Bytes, seq<Event>) {
    var interrupted := if MatchPrefix(line).Some? && active != [] then [Count("unparsed")] else [];
    var (assembled, counted) := Assemble(active, line);
    var (kept, closed) := Close(cfg, assembled);
    (kept, interrupted + Emit(cfg, line, forwarded) + counted + closed)
  }

  // ------------------------------------------------------------------
  // One piece of a line
  // ------------------------------------------------------------------

  /** A piece of input with no newline except possibly at its end. */
  predicate IsPart(part: Bytes) {
    && part != []
    && '\n' !in part[..|part| - 1]
  }

  predicate Terminated(part: Bytes)
    requires part != []
  {
    part[|part| - 1] == '\n'
  }

  function StepPart(cfg: Config, st: State, part: Bytes): Step
    requires part != []
  {
    var line := st.pending + part;
    if st.discard then
      Step(st.(discard := !Terminated(part)), Forward(part))
    else if |line| > cfg.limit then
      Step(State([], 0, [], !Terminated(part)), Forward(Rest(line, st.forwarded)) + [Count("truncated")])
    else if Terminated(part) then
      var (active, out) := Line(cfg, st.active, line, st.forwarded);
      Step(State([], 0, active, false), out)
    else if !PossiblePrefix(line) then
      Step(st.(pending := line, forwarded := |line|), Forward(Rest(line, st.forwarded)))
    else
      Step(st.(pending := line), [])
  }

  /** The machine itself: one byte after another. */
  function Run(cfg: Config, st: State, data: Bytes): Step
    decreases |data|
  {
    if data == [] then Step(st, []) else
    var head := StepPart(cfg, st, data[..1]);
    var tail := Run(cfg, head.st, data[1..]);
    Step(tail.st, head.out + tail.out)
  }

  /** End of input for the current line and record. A discarded line stays one. */
  function Flush(st: State): Step {
    Step(State([], 0, [], st.discard),
         Forward(Rest(st.pending, st.forwarded))
         + (if st.active != [] then [Count("unparsed")] else []))
  }

  lemma LineKeepsInv(cfg: Config, active: Bytes, line: Bytes, forwarded: nat)
    requires active != [] ==> HandshakerPayload(active).Some?
    ensures var kept := Line(cfg, active, line, forwarded).0;
            |kept| <= cfg.limit && (kept != [] ==> HandshakerPayload(kept).Some?)
  {
    hide HandshakerPayload, MatchPrefix, LooksLikeFailure, Contains, HasEnd;
    if active != [] { PayloadExtend(active, line); }
  }

  lemma StepKeepsInv(cfg: Config, st: State, part: Bytes)
    requires Inv(cfg, st) && IsPart(part)
    ensures Inv(cfg, StepPart(cfg, st, part).st)
  {
    hide Line, HandshakerPayload, Forward;
    var line := st.pending + part;
    if !st.discard && |line| <= cfg.limit {
      if Terminated(part) {
        LineKeepsInv(cfg, st.active, line, st.forwarded);
      } else {
        assert part == part[..|part| - 1] + [part[|part| - 1]];
        if st.pending != [] && PossiblePrefix(line) { ImpossibleIsPermanent(st.pending, part); }
      }
    }
  }

  lemma {:induction false} RunKeepsInv(cfg: Config, st: State, data: Bytes)
    requires Inv(cfg, st)
    ensures Inv(cfg, Run(cfg, st, data).st)
    decreases |data|
  {
    hide StepPart, Inv;
    if data != [] {
      StepKeepsInv(cfg, st, data[..1]);
      RunKeepsInv(cfg, StepPart(cfg, st, data[..1]).st, data[1..]);
    }
  }

  lemma {:induction false} RunConcat(cfg: Config, st: State, a: Bytes, b: Bytes)
    ensures Run(cfg, st, a + b).st == Run(cfg, Run(cfg, st, a).st, b).st
    ensures Run(cfg, st, a + b).out == Run(cfg, st, a).out + Run(cfg, Run(cfg, st, a).st, b).out
    decreases |a|
  {
    hide StepPart;
    if a == [] {
      assert a + b == b;
    } else {
      RunConcat(cfg, StepPart(cfg, st, a[..1]).st, a[1..], b);
      assert (a + b)[..1] == a[..1] && (a + b)[1..] == a[1..] + b;
    }
  }

  // ------------------------------------------------------------------
  // Two views of the callbacks
  // ------------------------------------------------------------------

  /** Everything but the counters: bytes, hidden lines, records, drains, in order. */
  function Stream(out: seq<Event>): seq<Event> {
    if out == [] then []
    else (if out[0].Count? then [] else [out[0]]) + Stream(out[1..])
  }

  /** Everything but the bytes: counters, records, drains, in order. */
  function Tally(out: seq<Event>): seq<Event> {
    if out == [] then []
    else (if out[0].Byte? || out[0].Hide? then [] else [out[0]]) + Tally(out[1..])
  }

  /** Equal up to how counters and forwarded bytes interleave: the framer counts a
      truncated line after the chunk that holds it, so that one order is not fixed. */
  ghost predicate Same(a: seq<Event>, b: seq<Event>) {
    Stream(a) == Stream(b) && Tally(a) == Tally(b)
  }

  lemma SameRefl(a: seq<Event>)
    ensures Same(a, a)
  {}

  lemma SameTrans(a: seq<Event>, b: seq<Event>, c: seq<Event>)
    requires Same(a, b) && Same(b, c)
    ensures Same(a, c)
  {}

  lemma {:induction false} StreamConcat(a: seq<Event>, b: seq<Event>)
    ensures Stream(a + b) == Stream(a) + Stream(b)
    decreases |a|
  {
    if a == [] {
      assert a + b == b;
    } else {
      var head := if a[0].Count? then [] else [a[0]];
      assert (a + b)[0] == a[0] && (a + b)[1..] == a[1..] + b;
      StreamConcat(a[1..], b);
      assert Stream(a + b) == head + Stream(a[1..] + b);
      Associate(head, Stream(a[1..]), Stream(b));
    }
  }

  lemma {:induction false} TallyConcat(a: seq<Event>, b: seq<Event>)
    ensures Tally(a + b) == Tally(a) + Tally(b)
    decreases |a|
  {
    if a == [] {
      assert a + b == b;
    } else {
      var head := if a[0].Byte? || a[0].Hide? then [] else [a[0]];
      assert (a + b)[0] == a[0] && (a + b)[1..] == a[1..] + b;
      TallyConcat(a[1..], b);
      assert Tally(a + b) == head + Tally(a[1..] + b);
      Associate(head, Tally(a[1..]), Tally(b));
    }
  }

  lemma ViewsConcat(a: seq<Event>, b: seq<Event>)
    ensures Stream(a + b) == Stream(a) + Stream(b)
    ensures Tally(a + b) == Tally(a) + Tally(b)
  {
    StreamConcat(a, b);
    TallyConcat(a, b);
  }

  lemma SameConcat(a: seq<Event>, b: seq<Event>, c: seq<Event>, d: seq<Event>)
    requires Same(a, b) && Same(c, d)
    ensures Same(a + c, b + d)
  {
    ViewsConcat(a, c);
    ViewsConcat(b, d);
  }

  lemma {:induction false} ForwardViews(bs: Bytes)
    ensures Stream(Forward(bs)) == Forward(bs) && Tally(Forward(bs)) == []
    decreases |bs|
  {
    if bs != [] {
      assert Forward(bs)[1..] == Forward(bs[1..]);
      ForwardViews(bs[1..]);
    }
  }

  /** Logs that agree still agree after the same callbacks. */
  lemma SameAppend(log: seq<Event>, log1: seq<Event>, log0: seq<Event>, done: seq<Event>, out: seq<Event>)
    requires Same(log1, log0 + done) && Same(log, log1 + out)
    ensures Same(log, log0 + (done + out))
  {
    hide Stream, Tally;
    SameRefl(out);
    SameConcat(log1, log0 + done, out, out);
    SameTrans(log, log1 + out, (log0 + done) + out);
    Associate(log0, done, out);
  }

  lemma CountViews(name: string)
    ensures Stream([Count(name)]) == [] && Tally([Count(name)]) == [Count(name)]
  {
    assert [Count(name)][1..] == [];
  }

  lemma CountCommutes(bs: Bytes, more: Bytes, name: string)
    ensures Same(Forward(bs + more) + [Count(name)], (Forward(bs) + [Count(name)]) + Forward(more))
  {
    hide Stream, Tally, Forward;
    CountViews(name);
    ForwardConcat(bs, more);
    ForwardViews(bs); ForwardViews(more); ForwardViews(bs + more);
    ViewsConcat(Forward(bs + more), [Count(name)]);
    ViewsConcat(Forward(bs), [Count(name)]);
    ViewsConcat(Forward(bs) + [Count(name)], Forward(more));
  }

  // ------------------------------------------------------------------
  // A whole part is its bytes, one at a time
  // ------------------------------------------------------------------

  /** Forwarding some bytes of an unrecognised line early changes nothing. */
  lemma EarlyForwarding(cfg: Config, active: Bytes, line: Bytes, fw: nat, fw': nat)
    requires fw < fw' <= |line| && MatchPrefix(line).None?
    ensures Line(cfg, active, line, fw).0 == Line(cfg, active, line, fw').0
    ensures Line(cfg, active, line, fw).1 == Forward(line[fw..fw']) + Line(cfg, active, line, fw').1
  {
    assert line[fw..] == line[fw..fw'] + line[fw'..];
    ForwardConcat(line[fw..fw'], line[fw'..]);
    hide MatchPrefix, Forward, Assemble, Close;
    var (assembled, counted) := Assemble(active, line);
    var (kept, closed) := Close(cfg, assembled);
    var head, tail := Forward(line[fw..fw']), Forward(line[fw'..]);
    assert Emit(cfg, line, fw) == head + tail && Emit(cfg, line, fw') == tail;
    Associate(head, tail, counted);
    Associate(head, tail + counted, closed);
    assert [] + (head + tail) == head + tail && [] + tail == tail;
  }

  /** The three steps compared below: the first byte, the rest, and both at once. */
  ghost predicate Peels(cfg: Config, st: State, part: Bytes)
    requires Inv(cfg, st) && IsPart(part) && |part| > 1
  {
    var head := StepPart(cfg, st, part[..1]);
    && Inv(cfg, head.st)
    && var tail := StepPart(cfg, head.st, part[1..]);
       var whole := StepPart(cfg, st, part);
       whole.st == tail.st && Same(whole.out, head.out + tail.out)
  }

  lemma RestIsPart(part: Bytes)
    requires IsPart(part) && |part| > 1
    ensures IsPart(part[..1]) && !Terminated(part[..1])
    ensures IsPart(part[1..]) && Terminated(part[1..]) == Terminated(part)
  {
    assert part[1..][..|part| - 2] == part[..|part| - 1][1..];
    assert part[0] in part[..|part| - 1];
  }

  lemma PeelDiscarded(cfg: Config, st: State, part: Bytes)
    requires Inv(cfg, st) && IsPart(part) && |part| > 1 && st.discard
    ensures Peels(cfg, st, part)
  {
    hide Line, Stream, Tally, Forward;
    RestIsPart(part);
    ForwardConcat(part[..1], part[1..]);
    assert part[..1] + part[1..] == part;
  }

  lemma PeelOverflow(cfg: Config, st: State, part: Bytes)
    requires Inv(cfg, st) && IsPart(part) && |part| > 1
    requires !st.discard && |st.pending| + 1 > cfg.limit
    ensures Peels(cfg, st, part)
  {
    assert st.forwarded <= |st.pending|;
    RestIsPart(part);
    StepKeepsInv(cfg, st, part[..1]);
    hide Inv, IsPart, Line, Same, Forward, PossiblePrefix;
    var begun := st.pending + part[..1];
    var line := st.pending + part;
    assert Rest(line, st.forwarded) == Rest(begun, st.forwarded) + part[1..];
    CountCommutes(Rest(begun, st.forwarded), part[1..], "truncated");
    var head := StepPart(cfg, st, part[..1]);
    assert head == Step(State([], 0, [], true), Forward(Rest(begun, st.forwarded)) + [Count("truncated")]);
    assert StepPart(cfg, st, part)
        == Step(State([], 0, [], !Terminated(part)), Forward(Rest(line, st.forwarded)) + [Count("truncated")]);
    assert StepPart(cfg, head.st, part[1..]) == Step(State([], 0, [], !Terminated(part)), Forward(part[1..]));
  }

  /** The bytes of `begun` forwarded early, ahead of the rest of the line. */
  lemma PeelSplits(cfg: Config, st: State, part: Bytes)
    requires Inv(cfg, st) && IsPart(part) && |part| > 1
    requires !st.discard && |st.pending| + 1 <= cfg.limit
    ensures var line := st.pending + part;
            var head := StepPart(cfg, st, part[..1]);
            var (fw, fw') := (st.forwarded, head.st.forwarded);
            && Inv(cfg, head.st)
            && head.st == st.(pending := st.pending + part[..1], forwarded := fw')
            && head.st.pending + part[1..] == line
            && fw <= fw' <= |line|
            && head.out == Forward(line[fw..fw'])
            && line[fw..] == line[fw..fw'] + line[fw'..]
            && Forward(line[fw..]) == head.out + Forward(line[fw'..])
            && (fw < fw' ==> !PossiblePrefix(line) && MatchPrefix(line).None?)
            && (fw == fw' ==> head.out == [] && PossiblePrefix(head.st.pending))
  {
    hide Line, Stream, Tally, MatchPrefix, IsPart, Forward;
    RestIsPart(part);
    StepKeepsInv(cfg, st, part[..1]);
    PeelHead(cfg, st, part);
    var line := st.pending + part;
    var begun := st.pending + part[..1];
    var fw, fw' := st.forwarded, StepPart(cfg, st, part[..1]).st.forwarded;
    hide StepPart, PossiblePrefix, Inv;
    assert begun + part[1..] == line && line[..|begun|] == begun;
    assert begun[fw..fw'] == line[fw..fw'];
    SplitRest(line, fw, fw');
    ForwardConcat(line[fw..fw'], line[fw'..]);
    if fw < fw' { PeelIsNoPrefix(begun, part[1..], line); }
  }

  lemma SplitRest(line: Bytes, fw: nat, fw': nat)
    requires fw <= fw' <= |line|
    ensures line[fw..] == line[fw..fw'] + line[fw'..]
  {}

  lemma PeelIsNoPrefix(begun: Bytes, rest: Bytes, line: Bytes)
    requires begun + rest == line && begun != [] && !PossiblePrefix(begun)
    ensures !PossiblePrefix(line) && MatchPrefix(line).None?
  {
    hide MatchPrefix, PossiblePrefix;
    assert line[..|begun|] == begun;
    if PossiblePrefix(line) { ImpossibleIsPermanent(begun, rest); }
    if MatchPrefix(line).Some? { PrefixImpliesPossible(line, |begun|); }
  }

  /** What the first byte of an open line does. */
  lemma PeelHead(cfg: Config, st: State, part: Bytes)
    requires Inv(cfg, st) && IsPart(part) && |part| > 1
    requires !st.discard && |st.pending| + 1 <= cfg.limit
    ensures var begun := st.pending + part[..1];
            var head := StepPart(cfg, st, part[..1]);
            var (fw, fw') := (st.forwarded, head.st.forwarded);
            && head.st == st.(pending := begun, forwarded := fw')
            && fw <= fw' <= |begun|
            && head.out == Forward(begun[fw..fw'])
            && (fw < fw' ==> !PossiblePrefix(begun))
            && (fw == fw' ==> head.out == [] && PossiblePrefix(begun))
  {
    hide Line, Stream, Tally, MatchPrefix, HandshakerPayload;
  }

  /** What a part does to an open line depends on the whole line only. */
  function LineStep(cfg: Config, active: Bytes, line: Bytes, forwarded: nat, terminated: bool): Step {
    if |line| > cfg.limit then Step(State([], 0, [], !terminated), Forward(Rest(line, forwarded)) + [Count("truncated")])
    else if terminated then
      var (kept, out) := Line(cfg, active, line, forwarded);
      Step(State([], 0, kept, false), out)
    else if !PossiblePrefix(line) then Step(State(line, |line|, active, false), Forward(Rest(line, forwarded)))
    else Step(State(line, forwarded, active, false), [])
  }

  lemma StepIsLineStep(cfg: Config, st: State, part: Bytes)
    requires part != [] && !st.discard
    ensures StepPart(cfg, st, part) == LineStep(cfg, st.active, st.pending + part, st.forwarded, Terminated(part))
  {
    hide Line, Forward, PossiblePrefix;
  }

  /** Bytes forwarded early are the only difference they make. */
  lemma LineStepSplits(cfg: Config, active: Bytes, line: Bytes, fw: nat, fw': nat, terminated: bool)
    requires fw < fw' <= |line| && !PossiblePrefix(line) && MatchPrefix(line).None?
    ensures LineStep(cfg, active, line, fw, terminated).st == LineStep(cfg, active, line, fw', terminated).st
    ensures LineStep(cfg, active, line, fw, terminated).out
         == Forward(line[fw..fw']) + LineStep(cfg, active, line, fw', terminated).out
  {
    hide Line, MatchPrefix, PossiblePrefix;
    EarlyForwarding(cfg, active, line, fw, fw');
    SplitRest(line, fw, fw');
    ForwardConcat(line[fw..fw'], line[fw'..]);
    hide Forward;
    Associate(Forward(line[fw..fw']), Forward(line[fw'..]), [Count("truncated")]);
  }

  lemma PeelOpenLine(cfg: Config, st: State, part: Bytes)
    requires Inv(cfg, st) && IsPart(part) && |part| > 1
    requires !st.discard && |st.pending| + 1 <= cfg.limit
    ensures Peels(cfg, st, part)
  {
    hide StepPart, Inv, IsPart, LineStep, Forward, MatchPrefix, PossiblePrefix;
    PeelSplits(cfg, st, part);
    RestIsPart(part);
    var line := st.pending + part;
    var head := StepPart(cfg, st, part[..1]);
    var tail := StepPart(cfg, head.st, part[1..]);
    var whole := StepPart(cfg, st, part);
    var fw, fw' := st.forwarded, head.st.forwarded;
    StepIsLineStep(cfg, st, part);
    StepIsLineStep(cfg, head.st, part[1..]);
    if fw < fw' {
      LineStepSplits(cfg, st.active, line, fw, fw', Terminated(part));
    } else {
      assert [] + tail.out == tail.out;
    }
    SameRefl(whole.out);
  }

  /** Handing over the first byte of a part separately is not observable. */
  lemma PeelByte(cfg: Config, st: State, part: Bytes)
    requires Inv(cfg, st) && IsPart(part) && |part| > 1
    ensures IsPart(part[1..]) && Peels(cfg, st, part)
  {
    RestIsPart(part);
    if st.discard {
      PeelDiscarded(cfg, st, part);
    } else if |st.pending| + 1 > cfg.limit {
      PeelOverflow(cfg, st, part);
    } else {
      PeelOpenLine(cfg, st, part);
    }
  }

  /** `_feed_plain` on one part of any length agrees with the byte machine. */
  lemma {:induction false} PartIsBytes(cfg: Config, st: State, part: Bytes)
    requires Inv(cfg, st) && IsPart(part)
    ensures StepPart(cfg, st, part).st == Run(cfg, st, part).st
    ensures Same(StepPart(cfg, st, part).out, Run(cfg, st, part).out)
    decreases |part|
  {
    if |part| == 1 {
      assert part[..1] == part && part[1..] == [];
      var head := StepPart(cfg, st, part);
      StepKeepsInv(cfg, st, part);
      assert Run(cfg, head.st, part[1..]).out == [];
      assert head.out + [] == head.out;
    } else {
      PeelByte(cfg, st, part);
      var head := StepPart(cfg, st, part[..1]);
      PartIsBytes(cfg, head.st, part[1..]);
      var tail := StepPart(cfg, head.st, part[1..]);
      SameConcat(head.out, head.out, tail.out, Run(cfg, head.st, part[1..]).out);
    }
  }

  lemma RunNothing(cfg: Config, st: State, log: seq<Event>)
    ensures Run(cfg, st, []).st == st && Same(log, log + Run(cfg, st, []).out)
  {
    assert log + [] == log;
  }

  /** One more part fed whole, after any number of parts. */
  lemma PartAfterRun(cfg: Config, st: State, a: Bytes, part: Bytes, log: seq<Event>, log0: seq<Event>)
    requires Inv(cfg, st) && IsPart(part)
    requires Same(log, log0 + Run(cfg, st, a).out)
    ensures var step := StepPart(cfg, Run(cfg, st, a).st, part);
            && Inv(cfg, step.st)
            && step.st == Run(cfg, st, a + part).st
            && Same(log + step.out, log0 + Run(cfg, st, a + part).out)
  {
    hide Run, StepPart, Same, Inv;
    RunKeepsInv(cfg, st, a);
    var before := Run(cfg, st, a);
    StepKeepsInv(cfg, before.st, part);
    PartIsBytes(cfg, before.st, part);
    RunConcat(cfg, st, a, part);
    var bytes := Run(cfg, before.st, part).out;
    SameConcat(log, log0 + before.out, StepPart(cfg, before.st, part).out, bytes);
    assert (log0 + before.out) + bytes == log0 + (before.out + bytes);
  }
}
