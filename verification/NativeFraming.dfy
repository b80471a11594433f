/** `NativeFramer` itself: whole chunks, early forwarding, an in-band drain marker.
    Every method is proved against the byte machine of `FramerSpec`. */
module NativeFraming {
  import opened Wrappers
  import opened LogPatterns
  import opened FramerSpec
  import Theory = FramerTheory

  /** The end of the part of `data` that starts at `i`: `splitlines(keepends=True)`
      breaks after a newline, a carriage return, or the two together. */
  function PartEnd(data: Bytes, i: nat): (j: nat)
    requires i < |data|
    ensures i < j <= |data|
    decreases |data| - i
  {
    if i + 1 == |data| || data[i] == '\n' || (data[i] == '\r' && data[i + 1] != '\n') then i + 1
    else PartEnd(data, i + 1)
  }

  lemma {:induction false} PartsAreParts(data: Bytes, i: nat)
    requires i < |data|
    ensures var j := PartEnd(data, i);
            && IsPart(data[i..j])
            && data[..i] + data[i..j] == data[..j]
            && (j < |data| ==> data[j - 1] == '\n' || (data[j - 1] == '\r' && data[j] != '\n'))
    decreases |data| - i
  {
    var j := PartEnd(data, i);
    assert data[..i] + data[i..j] == data[..j];
    if j > i + 1 {
      PartsAreParts(data, i + 1);
      assert data[i + 1..j][..j - i - 2] == data[i + 1..j - 1];
      assert data[i..j][..j - i - 1] == [data[i]] + data[i + 1..j - 1];
    } else {
      assert data[i..j][..0] == [];
    }
  }

  /** What one `os.read` gives; no bytes are the end of the stream. */
  datatype Read = Data(bytes: Bytes) | Failed

  /** The bytes read before the reader loop ends. */
  function Received(inputs: seq<Read>): Bytes {
    if inputs == [] || inputs[0].Failed? || inputs[0].bytes == [] then [] else inputs[0].bytes + Received(inputs[1..])
  }

  /** The read that ends the loop, if there is one. */
  function Ends(inputs: seq<Read>): Option<Read> {
    if inputs == [] then None
    else if inputs[0].Failed? || inputs[0].bytes == [] then Some(inputs[0])
    else Ends(inputs[1..])
  }

  lemma FlushFacts(cfg: Config, st: State)
    requires Inv(cfg, st)
    ensures st.forwarded <= |st.pending| && (st.pending == [] ==> st.forwarded == 0)
    ensures Inv(cfg, Flush(st).st) && Forward([]) == []
  {
    hide PossiblePrefix, HandshakerPayload;
  }

  class NativeFramer {
    const limit: nat
    const quiet: bool
    const drainMarker: Bytes
    var pending: Bytes
    var forwarded: nat
    var active: Bytes
    var discardLine: bool
    var controlTail: Bytes
    /** The callbacks made so far. */
    ghost var log: seq<Event>

    constructor (limit: nat, quiet: bool, drainMarker: Bytes)
      ensures this.limit == limit && this.quiet == quiet && this.drainMarker == drainMarker
      ensures St() == FRESH && controlTail == [] && log == [] && Valid()
    {
      this.limit, this.quiet, this.drainMarker := limit, quiet, drainMarker;
      pending, forwarded, active, discardLine := [], 0, [], false;
      controlTail, log := [], [];
    }

    ghost function Cfg(): Config { Config(limit, quiet) }

    ghost function St(): State
      reads this
    {
      State(pending, forwarded, active, discardLine)
    }

    ghost predicate Valid()
      reads this
    {
      Inv(Cfg(), St())
    }

    /** `_line`: forward or withhold a complete line, then assemble the record. */
    method HandleLine(line: Bytes, forwarded: nat)
      requires forwarded <= |line| && line != []
      modifies this`active, this`log
      ensures active == Line(Cfg(), old(active), line, forwarded).0
      ensures log == old(log) + Line(Cfg(), old(active), line, forwarded).1
    {
      hide HasEnd, Contains, LooksLikeFailure, IsHandshaker, IsManaged, Forward, MatchStatusHead;
      ghost var interrupted, emitted, counted, closed: seq<Event> := [], [], [], [];
      var prefix := MatchPrefix(line);
      if prefix.Some? {
        if active != [] {
          active, interrupted := [], [Count("unparsed")];
        }
        var source := prefix.value.source;
        if !quiet || !IsManaged(source) || IsSerious(line[0]) {
          emitted := Forward(line[forwarded..]);
        } else {
          emitted := [Hide(line[forwarded..])];
        }
        if IsHandshaker(source) && MatchStatusHead(line, prefix.value.end).Some? {
          active := line;
        } else if IsHandshaker(source) && LooksLikeFailure(line, prefix.value.end) {
          counted := [Count("unparsed")];
        }
      } else {
        emitted := Forward(line[forwarded..]);
        if active != [] {
          active := active + line;
        } else if Contains(line, "CallNextHandshakerLocked: error=") {
          counted := [Count("unparsed")];
        }
      }
      if |active| > limit {
        active, closed := [], [Count("truncated")];
      } else if active != [] && HasEnd(active) {
        closed := [Record(active)];
        active := [];
      }
      log := log + (interrupted + emitted + counted + closed);
    }

    /** One part of `_feed_plain`. */
    method FeedPart(part: Bytes)
      requires Valid() && part != []
      modifies this`pending, this`forwarded, this`active, this`discardLine, this`log
      ensures St() == StepPart(Cfg(), old(St()), part).st
      ensures log == old(log) + StepPart(Cfg(), old(St()), part).out
    {
      assert forwarded <= |pending|;
      hide Inv, Line, Forward, PossiblePrefix;
      if discardLine {
        log := log + Forward(part);
        if Terminated(part) { discardLine := false; }
        return;
      }
      pending := pending + part;
      if |pending| > limit {
        log := log + (Forward(pending[forwarded..]) + [Count("truncated")]);
        pending, forwarded, active := [], 0, [];
        discardLine := !Terminated(part);
        return;
      }
      if Terminated(part) {
        HandleLine(pending, forwarded);
        pending, forwarded := [], 0;
      } else if !PossiblePrefix(pending) {
        log := log + Forward(pending[forwarded..]);
        forwarded := |pending|;
      } else {
        assert log + [] == log;
      }
    }

    /** `_feed_plain`: whole parts, yet indistinguishable from single bytes. */
    method FeedPlain(data: Bytes)
      requires Valid()
      modifies this`pending, this`forwarded, this`active, this`discardLine, this`log
      ensures Valid()
      ensures St() == Run(Cfg(), old(St()), data).st
      ensures Same(log, old(log) + Run(Cfg(), old(St()), data).out)
    {
      hide Run, StepPart, Same, Inv, PartEnd, IsPart;
      ghost var st0, log0 := St(), log;
      var i := 0;
      RunNothing(Cfg(), st0, log0);
      assert data[..0] == [];
      while i < |data|
        invariant 0 <= i <= |data| && Valid()
        invariant St() == Run(Cfg(), st0, data[..i]).st
        invariant Same(log, log0 + Run(Cfg(), st0, data[..i]).out)
      {
        var j := PartEnd(data, i);
        PartsAreParts(data, i);
        ghost var log1 := log;
        FeedPart(data[i..j]);
        PartAfterRun(Cfg(), st0, data[..i], data[i..j], log1, log0);
        i := j;
      }
      assert data[..i] == data;
    }

    /** `flush_partial`. */
    method FlushPartial()
      requires Valid()
      modifies this`pending, this`forwarded, this`active, this`log
      ensures Valid()
      ensures St() == Flush(old(St())).st
      ensures log == old(log) + Flush(old(St())).out
    {
      FlushFacts(Cfg(), St());
      hide Inv, Forward;
      ghost var rest, counted: seq<Event> := [], [];
      if pending != [] {
        rest := Forward(pending[forwarded..]);
        pending, forwarded := [], 0;
      }
      if active != [] {
        active, counted := [], [Count("unparsed")];
      }
      log := log + (rest + counted);
    }

    /** How many final bytes may begin a marker: tried from the longest down. */
    method HoldBack(data: Bytes) returns (size: nat)
      requires drainMarker != []
      ensures size == Theory.Hold(drainMarker, data)
    {
      size := if |data| < |drainMarker| - 1 then |data| else |drainMarker| - 1;
      while size > 0 && !Theory.EndsWith(data, drainMarker[..size])
        invariant size <= |data| && size < |drainMarker|
        invariant Theory.HoldUpTo(drainMarker, data, size) == Theory.Hold(drainMarker, data)
      {
        size := size - 1;
      }
    }

    ghost predicate Feeds(st: State, tail: Bytes, log0: seq<Event>, data: Bytes)
      reads this
    {
      var r := Theory.Feed(Cfg(), drainMarker, Theory.Feeding(st, tail, []), data);
      St() == r.st && controlTail == r.tail && Same(log, log0 + r.out)
    }

    /** The bytes before a marker, then the drain the marker asks for. */
    method FeedAndDrain(plain: Bytes)
      requires Valid()
      modifies this`pending, this`forwarded, this`active, this`discardLine, this`log
      ensures Valid()
      ensures St() == Theory.Drain(Cfg(), old(St()), plain).st
      ensures Same(log, old(log) + Theory.Drain(Cfg(), old(St()), plain).out)
    {
      hide Run, Inv, Same, Flush;
      ghost var log0, fed := log, Run(Cfg(), St(), plain);
      ghost var flushed := Flush(fed.st).out;
      FeedPlain(plain);
      ghost var log1 := log;
      FlushPartial();
      log := log + [Drained];
      SameRefl(flushed);
      SameRefl([Drained]);
      SameConcat(log1, log0 + fed.out, flushed, flushed);
      SameConcat(log1 + flushed, (log0 + fed.out) + flushed, [Drained], [Drained]);
      Theory.Regroup(log0, fed.out, flushed, [Drained]);
    }

    /** `feed`: strip the markers, hold back what may begin one, feed the rest. */
    method Feed(data: Bytes)
      requires Valid()
      modifies this
      ensures Valid()
      ensures Feeds(old(St()), old(controlTail), old(log), data)
    {
      hide Run, Inv, Same, Theory.Drive, Theory.Drain, Theory.Behind;
      ghost var st0, log0 := St(), log;
      if drainMarker == [] {
        FeedPlain(data);
        ghost var plain := Run(Cfg(), st0, data).out;
        Theory.Units(plain, plain);
        return;
      }
      var rest := controlTail + data;
      controlTail := [];
      ghost var whole := Theory.Drive(Cfg(), drainMarker, st0, rest);
      ghost var done: seq<Event> := [];
      Theory.Units(log0, whole.out);
      SameRefl(log0);
      Theory.BehindStart(Cfg(), drainMarker, st0, rest);
      var index := Theory.Find(drainMarker, rest);
      while index.Some?
        invariant Valid() && index == Theory.Find(drainMarker, rest)
        invariant Same(log, log0 + done)
        invariant Theory.Behind(Cfg(), drainMarker, whole, done, St(), rest)
        decreases |rest|
      {
        ghost var st1, log1 := St(), log;
        FeedAndDrain(rest[..index.value]);
        Theory.BehindStep(Cfg(), drainMarker, whole, done, st1, rest, index.value);
        ghost var out := Theory.Drain(Cfg(), st1, rest[..index.value]).out;
        SameAppend(log, log1, log0, done, out);
        done := done + out;
        rest := rest[index.value + |drainMarker|..];
        index := Theory.Find(drainMarker, rest);
      }
      Theory.BehindEnd(Cfg(), drainMarker, whole, done, St(), rest);
      var size := HoldBack(rest);
      controlTail := rest[|rest| - size..];
      ghost var st1, log1 := St(), log;
      FeedPlain(rest[..|rest| - size]);
      SameAppend(log, log1, log0, done, Run(Cfg(), st1, rest[..|rest| - size]).out);
    }

    /** The reader loop of `NativeCollector`, until a read fails or finds the end:
        whatever the reads returned, the result is that of all their bytes in one
        read; every byte that is no part of a marker has been forwarded or withheld,
        or is still held, in order; and only what may be withheld was. */
    method ReadForever(inputs: seq<Read>, exiting: bool) returns (readErrors: nat)
      requires Valid() && St() == FRESH && controlTail == [] && log == []
      modifies this
      ensures Valid()
      ensures Feeds(FRESH, [], [], Received(inputs))
      ensures forwarded <= |pending|
      ensures Theory.Content(log) + (pending[forwarded..] + controlTail) == Theory.Strip(drainMarker, Received(inputs))
      ensures Theory.AllSound(Cfg(), log)
      ensures readErrors == if Ends(inputs) == Some(Failed) || (Ends(inputs) == Some(Data([])) && !exiting) then 1 else 0
    {
      hide Run, Inv, Same, Theory.Feed;
      Theory.FeedNothing(Cfg(), drainMarker, Theory.START);
      SameRefl([]);
      assert [] + Theory.START.out == [];
      ghost var whole: Bytes := [];
      readErrors := 0;
      var i := 0;
      while i < |inputs| && inputs[i].Data? && inputs[i].bytes != []
        invariant 0 <= i <= |inputs|
        invariant Valid() && whole + Received(inputs[i..]) == Received(inputs) && Ends(inputs[i..]) == Ends(inputs)
        invariant Feeds(FRESH, [], [], whole)
      {
        ghost var before := Theory.Feed(Cfg(), drainMarker, Theory.START, whole);
        ghost var log1 := log;
        var data := inputs[i].bytes;
        Feed(data);
        Continues(before, log1, whole, data);
        assert inputs[i..][1..] == inputs[i + 1..];
        Associate(whole, data, Received(inputs[i + 1..]));
        whole := whole + data;
        i := i + 1;
      }
      assert whole + [] == whole;
      Conserved(whole);
      if i < |inputs| && (inputs[i].Failed? || !exiting) {
        readErrors := 1;
      }
    }

    lemma Conserved(whole: Bytes)
      requires Valid() && Feeds(FRESH, [], [], whole)
      ensures forwarded <= |pending|
      ensures Theory.Content(log) + (pending[forwarded..] + controlTail) == Theory.Strip(drainMarker, whole)
      ensures Theory.AllSound(Cfg(), log)
    {
      assert forwarded <= |pending|;
      hide Run, Inv, Same, Theory.Feed, Theory.Content, Theory.Strip, Theory.Sound;
      var f := Theory.Feed(Cfg(), drainMarker, Theory.START, whole);
      assert [] + f.out == f.out;
      Theory.ViewsSuffice(Cfg(), drainMarker, whole, log);
    }

    /** Two feeds in a row make one feed of both. */
    lemma Continues(before: Theory.Feeding, log1: seq<Event>, whole: Bytes, chunk: Bytes)
      requires before == Theory.Feed(Cfg(), drainMarker, Theory.START, whole)
      requires Same(log1, [] + before.out)
      requires Feeds(before.st, before.tail, log1, chunk)
      ensures Feeds(FRESH, [], [], whole + chunk)
    {
      hide Run, Inv, Same, Theory.Feed;
      Theory.FeedSplit(Cfg(), drainMarker, Theory.START, whole, chunk);
      Theory.FeedAppends(Cfg(), drainMarker, before, chunk);
      var r := Theory.Feed(Cfg(), drainMarker, Theory.Feeding(before.st, before.tail, []), chunk);
      SameRefl(r.out);
      SameConcat(log1, [] + before.out, r.out, r.out);
      SameTrans(log, log1 + r.out, ([] + before.out) + r.out);
      Associate([], before.out, r.out);
    }
  }
}
