/** What the byte machine of `FramerSpec` promises: the drain marker cut at any
    byte, nothing lost, only managed information lines withheld. */
module FramerTheory {
  import opened Wrappers
  import opened LogPatterns
  import opened FramerSpec

  // ------------------------------------------------------------------
  // The drain marker
  // ------------------------------------------------------------------

  /** Do the bytes of `d` from `i` on agree with the marker as far as both go? */
  ghost predicate Compatible(m: Bytes, d: Bytes, i: nat)
    requires i <= |d|
  {
    var n := if |m| <= |d| - i then |m| else |d| - i;
    d[i..i + n] == m[..n]
  }

  /** `data.find(marker)`. */
  function Find(m: Bytes, d: Bytes): (r: Option<nat>)
    ensures r.Some? ==> r.value + |m| <= |d|
  {
    FindFrom(m, d, 0)
  }

  function FindFrom(m: Bytes, d: Bytes, from: nat): (r: Option<nat>)
    ensures r.Some? ==> from <= r.value && r.value + |m| <= |d|
    decreases |d| - from
  {
    if StartsAt(d, from, m) then Some(from)
    else if from >= |d| then None
    else FindFrom(m, d, from + 1)
  }

  lemma {:induction false} FindFromLeftmost(m: Bytes, d: Bytes, from: nat)
    ensures match FindFrom(m, d, from)
            case Some(r) => StartsAt(d, r, m) && forall i: nat :: from <= i < r ==> !StartsAt(d, i, m)
            case None => forall i: nat :: from <= i ==> !StartsAt(d, i, m) || m == []
    decreases |d| - from
  {
    if !StartsAt(d, from, m) && from < |d| { FindFromLeftmost(m, d, from + 1); }
  }

  /** `find` returns the leftmost occurrence, and misses none. */
  lemma FindLeftmost(m: Bytes, d: Bytes)
    requires m != []
    ensures match Find(m, d)
            case Some(r) => StartsAt(d, r, m) && forall i: nat :: i < r ==> !StartsAt(d, i, m)
            case None => forall i: nat :: !StartsAt(d, i, m)
  {
    FindFromLeftmost(m, d, 0);
  }

  predicate EndsWith(d: Bytes, suffix: Bytes) {
    |suffix| <= |d| && d[|d| - |suffix|..] == suffix
  }

  /** The longest proper prefix of the marker, of at most `size` bytes, that `d` ends with. */
  function HoldUpTo(m: Bytes, d: Bytes, size: nat): (h: nat)
    requires size <= |d| && size <= |m|
    ensures h <= size
  {
    if size == 0 || EndsWith(d, m[..size]) then size else HoldUpTo(m, d, size - 1)
  }

  /** The bytes held back because they may begin a marker. */
  function Hold(m: Bytes, d: Bytes): (h: nat)
    requires m != []
    ensures h <= |d| && h < |m|
  {
    HoldUpTo(m, d, if |d| < |m| - 1 then |d| else |m| - 1)
  }

  lemma {:induction false} HoldUpToLongest(m: Bytes, d: Bytes, size: nat)
    requires size <= |d| && size <= |m|
    ensures EndsWith(d, m[..HoldUpTo(m, d, size)])
    ensures forall k :: HoldUpTo(m, d, size) < k <= size ==> !EndsWith(d, m[..k])
  {
    if size > 0 && !EndsWith(d, m[..size]) { HoldUpToLongest(m, d, size - 1); }
  }

  /** The held tail is the longest suffix that is a proper prefix of the marker. */
  lemma HoldLongest(m: Bytes, d: Bytes)
    requires m != []
    ensures EndsWith(d, m[..Hold(m, d)])
    ensures forall k :: Hold(m, d) < k <= |d| && k < |m| ==> !EndsWith(d, m[..k])
  {
    HoldUpToLongest(m, d, if |d| < |m| - 1 then |d| else |m| - 1);
  }

  datatype Feeding = Feeding(st: State, tail: Bytes, out: seq<Event>)

  /** The bytes up to a marker, then the marker: the partial line is flushed. */
  function Drain(cfg: Config, st: State, plain: Bytes): Step {
    var fed := Run(cfg, st, plain);
    var flushed := Flush(fed.st);
    Step(flushed.st, fed.out + flushed.out + [Drained])
  }

  function Then(first: Step, second: Feeding): Feeding {
    Feeding(second.st, second.tail, first.out + second.out)
  }

  /** `feed` once the held tail has been put back in front of the data. */
  function Drive(cfg: Config, m: Bytes, st: State, d: Bytes): Feeding
    requires m != []
    decreases |d|
  {
    match Find(m, d)
    case Some(i) =>
      var first := Drain(cfg, st, d[..i]);
      Then(first, Drive(cfg, m, first.st, d[i + |m|..]))
    case None =>
      var keep := |d| - Hold(m, d);
      var plain := Run(cfg, st, d[..keep]);
      Feeding(plain.st, d[keep..], plain.out)
  }

  /** One `feed`. An empty marker switches the drain protocol off. */
  function Feed(cfg: Config, m: Bytes, f: Feeding, data: Bytes): Feeding {
    if m == [] then
      var r := Run(cfg, f.st, data);
      Feeding(r.st, f.tail, f.out + r.out)
    else
      var r := Drive(cfg, m, f.st, f.tail + data);
      Feeding(r.st, r.tail, f.out + r.out)
  }

  function FeedAll(cfg: Config, m: Bytes, f: Feeding, chunks: seq<Bytes>): Feeding
    decreases |chunks|
  {
    if chunks == [] then f else FeedAll(cfg, m, Feed(cfg, m, f, chunks[0]), chunks[1..])
  }

  function Concat(chunks: seq<Bytes>): Bytes {
    if chunks == [] then [] else chunks[0] + Concat(chunks[1..])
  }

  const START := Feeding(FRESH, [], [])

  lemma CompatibleMeans(m: Bytes, a: Bytes, b: Bytes, i: nat)
    requires i < |a| && Compatible(m, a + b, i)
    ensures |a| - i < |m| ==> EndsWith(a, m[..|a| - i])
    ensures |a| - i >= |m| ==> StartsAt(a, i, m)
  {
    var n := if |m| <= |a + b| - i then |m| else |a + b| - i;
    var k := if |a| - i < |m| then |a| - i else |m|;
    assert a[i..i + k] == (a + b)[i..i + k] == (a + b)[i..i + n][..k];
    assert m[..n][..k] == m[..k];
  }

  /** A marker that would start in the released bytes would have been held back. */
  lemma ReleasedIsPlain(m: Bytes, a: Bytes, b: Bytes, i: nat)
    requires m != [] && Find(m, a).None? && i < |a| - Hold(m, a)
    ensures !Compatible(m, a + b, i)
  {
    FindLeftmost(m, a);
    HoldLongest(m, a);
    if Compatible(m, a + b, i) { CompatibleMeans(m, a, b, i); }
  }

  lemma ShiftedMatch(m: Bytes, a: Bytes, d: Bytes, j: nat)
    ensures StartsAt(a + d, |a| + j, m) == StartsAt(d, j, m)
  {
    if j + |m| <= |d| { assert (a + d)[|a| + j..|a| + j + |m|] == d[j..j + |m|]; }
  }

  lemma NoMatchInside(m: Bytes, a: Bytes, d: Bytes, i: nat)
    requires i < |a| && !Compatible(m, a + d, i)
    ensures !StartsAt(a + d, i, m)
  {}

  lemma FindShift(m: Bytes, a: Bytes, d: Bytes)
    requires m != [] && forall i: nat :: i < |a| ==> !Compatible(m, a + d, i)
    ensures Find(m, a + d) == match Find(m, d) case Some(j) => Some(|a| + j) case None => None
  {
    FindLeftmost(m, d);
    FindLeftmost(m, a + d);
    hide StartsAt, Compatible, Find;
    var whole := Find(m, a + d);
    if whole.Some? {
      if whole.value < |a| { NoMatchInside(m, a, d, whole.value); }
      ShiftedMatch(m, a, d, whole.value - |a|);
    }
    if Find(m, d).Some? {
      ShiftedMatch(m, a, d, Find(m, d).value);
    }
  }

  lemma HeldIsCompatible(m: Bytes, d: Bytes, h: nat)
    requires h < |m| && EndsWith(d, m[..h])
    ensures Compatible(m, d, |d| - h)
  {}

  lemma HoldShift(m: Bytes, a: Bytes, d: Bytes)
    requires m != [] && forall i: nat :: i < |a| ==> !Compatible(m, a + d, i)
    ensures Hold(m, a + d) == Hold(m, d)
  {
    HoldLongest(m, a + d);
    HoldLongest(m, d);
    hide Hold, Compatible, EndsWith;
    var h, h' := Hold(m, a + d), Hold(m, d);
    if h > |d| { HeldIsCompatible(m, a + d, h); }
    assert h <= |d|;
    SameEnding(a, d, m[..h]);
    SameEnding(a, d, m[..h']);
  }

  lemma SameEnding(a: Bytes, d: Bytes, suffix: Bytes)
    requires |suffix| <= |d|
    ensures EndsWith(a + d, suffix) == EndsWith(d, suffix)
  {
    assert (a + d)[|a + d| - |suffix|..] == d[|d| - |suffix|..];
  }

  lemma DriveFound(cfg: Config, m: Bytes, st: State, d: Bytes, i: nat)
    requires m != [] && Find(m, d) == Some(i)
    ensures var first := Drain(cfg, st, d[..i]);
            Drive(cfg, m, st, d) == Then(first, Drive(cfg, m, first.st, d[i + |m|..]))
  {
    hide Run, Drain, Find, Hold, Then;
    var rest := d[i + |m|..];
    assert |rest| < |d|;
  }

  /** Where a `feed` stands after some markers: `done` has been called back. */
  ghost predicate Behind(cfg: Config, m: Bytes, whole: Feeding, done: seq<Event>, st: State, rest: Bytes) {
    m != [] && whole == Then(Step(st, done), Drive(cfg, m, st, rest))
  }

  lemma BehindStart(cfg: Config, m: Bytes, st: State, rest: Bytes)
    requires m != []
    ensures Behind(cfg, m, Drive(cfg, m, st, rest), [], st, rest)
  {
    hide Drive;
    var r := Drive(cfg, m, st, rest);
    assert [] + r.out == r.out;
  }

  lemma BehindStep(cfg: Config, m: Bytes, whole: Feeding, done: seq<Event>, st: State, rest: Bytes, i: nat)
    requires Behind(cfg, m, whole, done, st, rest) && Find(m, rest) == Some(i)
    ensures var drained := Drain(cfg, st, rest[..i]);
            Behind(cfg, m, whole, done + drained.out, drained.st, rest[i + |m|..])
  {
    hide Drive, Drain, Find;
    DriveFound(cfg, m, st, rest, i);
    var drained := Drain(cfg, st, rest[..i]);
    Associate(done, drained.out, Drive(cfg, m, drained.st, rest[i + |m|..]).out);
  }

  lemma BehindEnd(cfg: Config, m: Bytes, whole: Feeding, done: seq<Event>, st: State, rest: Bytes)
    requires Behind(cfg, m, whole, done, st, rest) && Find(m, rest).None?
    ensures var keep := |rest| - Hold(m, rest);
            var plain := Run(cfg, st, rest[..keep]);
            whole == Feeding(plain.st, rest[keep..], done + plain.out)
  {
    hide Drive, Run, Find, Hold;
    DriveHeld(cfg, m, st, rest);
  }

  lemma DriveHeld(cfg: Config, m: Bytes, st: State, d: Bytes)
    requires m != [] && Find(m, d).None?
    ensures var keep := |d| - Hold(m, d);
            var plain := Run(cfg, st, d[..keep]);
            Drive(cfg, m, st, d) == Feeding(plain.st, d[keep..], plain.out)
  {
    hide Run, Flush, Find, Hold;
  }

  lemma DrainAfter(cfg: Config, st: State, a: Bytes, b: Bytes)
    ensures Drain(cfg, st, a + b).st == Drain(cfg, Run(cfg, st, a).st, b).st
    ensures Drain(cfg, st, a + b).out == Run(cfg, st, a).out + Drain(cfg, Run(cfg, st, a).st, b).out
  {
    hide Run, Flush;
    RunConcat(cfg, st, a, b);
    var first := Run(cfg, st, a);
    var second := Run(cfg, first.st, b);
    var flushed := Flush(second.st);
    Regroup(first.out, second.out, flushed.out, [Drained]);
  }

  lemma Regroup<T>(a: seq<T>, b: seq<T>, c: seq<T>, d: seq<T>)
    ensures ((a + b) + c) + d == a + ((b + c) + d)
  {}

  lemma DriveAfterFound(cfg: Config, m: Bytes, st: State, a: Bytes, d: Bytes, j: nat)
    requires m != [] && Find(m, d) == Some(j) && Find(m, a + d) == Some(|a| + j)
    ensures var first := Run(cfg, st, a);
            Drive(cfg, m, st, a + d) == Then(first, Drive(cfg, m, first.st, d))
  {
    hide Run, Find, Hold, Drain, Drive;
    var first := Run(cfg, st, a);
    DriveFound(cfg, m, first.st, d, j);
    DriveFound(cfg, m, st, a + d, |a| + j);
    assert (a + d)[..|a| + j] == a + d[..j];
    assert (a + d)[|a| + j + |m|..] == d[j + |m|..];
    DrainAfter(cfg, st, a, d[..j]);
    var drained := Drain(cfg, first.st, d[..j]);
    Associate(first.out, drained.out, Drive(cfg, m, drained.st, d[j + |m|..]).out);
  }

  lemma DriveAfterHeld(cfg: Config, m: Bytes, st: State, a: Bytes, d: Bytes)
    requires m != [] && Find(m, d).None? && Find(m, a + d).None? && Hold(m, a + d) == Hold(m, d)
    ensures var first := Run(cfg, st, a);
            Drive(cfg, m, st, a + d) == Then(first, Drive(cfg, m, first.st, d))
  {
    hide Run, Find, Hold, Drain, Drive;
    DriveHeld(cfg, m, Run(cfg, st, a).st, d);
    DriveHeld(cfg, m, st, a + d);
    var keep := |d| - Hold(m, d);
    assert (a + d)[..|a| + keep] == a + d[..keep];
    assert (a + d)[|a| + keep..] == d[keep..];
    RunConcat(cfg, st, a, d[..keep]);
  }

  /** Plain bytes in front of the data are simply fed first. */
  lemma DriveAfterPlain(cfg: Config, m: Bytes, st: State, a: Bytes, d: Bytes)
    requires m != [] && forall i: nat :: i < |a| ==> !Compatible(m, a + d, i)
    ensures var first := Run(cfg, st, a);
            Drive(cfg, m, st, a + d) == Then(first, Drive(cfg, m, first.st, d))
  {
    FindShift(m, a, d);
    HoldShift(m, a, d);
    if Find(m, d).Some? {
      DriveAfterFound(cfg, m, st, a, d, Find(m, d).value);
    } else {
      DriveAfterHeld(cfg, m, st, a, d);
    }
  }

  /** Feeding `a` and then `b` is feeding `a + b`, wherever a marker is cut. */
  lemma {:induction false} DriveSplit(cfg: Config, m: Bytes, st: State, a: Bytes, b: Bytes)
    requires m != []
    ensures var first := Drive(cfg, m, st, a);
            var second := Drive(cfg, m, first.st, first.tail + b);
            Drive(cfg, m, st, a + b) == Then(Step(first.st, first.out), second)
    decreases |a|
  {
    hide Run, Drain, Drive;
    match Find(m, a) {
      case Some(i) =>
        FindInFirst(m, a, b);
        assert (a + b)[..i] == a[..i] && (a + b)[i + |m|..] == a[i + |m|..] + b;
        DriveFound(cfg, m, st, a, i);
        DriveFound(cfg, m, st, a + b, i);
        DriveSplit(cfg, m, Drain(cfg, st, a[..i]).st, a[i + |m|..], b);
      case None =>
        var keep := |a| - Hold(m, a);
        assert a[..keep] + (a[keep..] + b) == a + b;
        forall i: nat | i < keep ensures !Compatible(m, a + b, i) {
          ReleasedIsPlain(m, a, b, i);
        }
        DriveHeld(cfg, m, st, a);
        DriveAfterPlain(cfg, m, st, a[..keep], a[keep..] + b);
    }
  }

  lemma FindInFirst(m: Bytes, a: Bytes, b: Bytes)
    requires m != [] && Find(m, a).Some?
    ensures Find(m, a + b) == Find(m, a)
  {
    FindLeftmost(m, a);
    FindLeftmost(m, a + b);
    var i := Find(m, a).value;
    LiteralExtend(a, b, i, m);
    forall j: nat | j < i ensures !StartsAt(a + b, j, m) {
      assert !StartsAt(a, j, m);
      assert (a + b)[j..j + |m|] == a[j..j + |m|];
    }
  }

  lemma FeedSplit(cfg: Config, m: Bytes, f: Feeding, a: Bytes, b: Bytes)
    ensures Feed(cfg, m, Feed(cfg, m, f, a), b) == Feed(cfg, m, f, a + b)
  {
    hide Run, Drive;
    if m == [] {
      RunConcat(cfg, f.st, a, b);
    } else {
      DriveSplit(cfg, m, f.st, f.tail + a, b);
      assert f.tail + (a + b) == (f.tail + a) + b;
    }
  }

  /** The callbacks of a feed do not depend on the earlier ones. */
  lemma FeedAppends(cfg: Config, m: Bytes, f: Feeding, data: Bytes)
    ensures var r := Feed(cfg, m, Feeding(f.st, f.tail, []), data);
            Feed(cfg, m, f, data) == Feeding(r.st, r.tail, f.out + r.out)
  {
    hide Run, Drive;
    var out := if m == [] then Run(cfg, f.st, data).out else Drive(cfg, m, f.st, f.tail + data).out;
    assert [] + out == out;
  }

  lemma FeedNothing(cfg: Config, m: Bytes, f: Feeding)
    requires f.tail == [] || (m != [] && Find(m, f.tail).None? && Hold(m, f.tail) == |f.tail|)
    ensures Feed(cfg, m, f, []) == f
  {
    assert f.tail + [] == f.tail;
    assert f.out + [] == f.out;
    if m != [] && f.tail == [] { assert Find(m, []).None? && Hold(m, []) == 0; }
  }

  /** Chunking is unobservable: however a stream is cut into reads, the callbacks,
      the framer state and the held tail are those of one read of the whole stream. */
  lemma {:induction false} ChunkingUnobservable(cfg: Config, m: Bytes, f: Feeding, chunks: seq<Bytes>)
    requires chunks != []
    ensures FeedAll(cfg, m, f, chunks) == Feed(cfg, m, f, Concat(chunks))
    decreases |chunks|
  {
    hide Feed;
    var next := Feed(cfg, m, f, chunks[0]);
    if |chunks| == 1 {
      assert chunks[1..] == [] && Concat(chunks) == chunks[0] + [] == chunks[0];
      assert FeedAll(cfg, m, next, chunks[1..]) == next;
    } else {
      ChunkingUnobservable(cfg, m, next, chunks[1..]);
      FeedSplit(cfg, m, f, chunks[0], Concat(chunks[1..]));
    }
  }

  // ------------------------------------------------------------------
  // Conservation
  // ------------------------------------------------------------------

  /** The input without its drain markers. */
  function Strip(m: Bytes, d: Bytes): Bytes
    decreases |d|
  {
    if m == [] then d else
    match Find(m, d)
    case Some(i) => d[..i] + Strip(m, d[i + |m|..])
    case None => d
  }

  /** What was forwarded or withheld, in order. */
  function Content(out: seq<Event>): Bytes {
    if out == [] then [] else
    (match out[0]
     case Byte(b) => [b]
     case Hide(line) => line
     case _ => []) + Content(out[1..])
  }

  /** Input accepted but neither forwarded nor withheld yet. */
  function Held(st: State): Bytes { Rest(st.pending, st.forwarded) }

  lemma {:induction false} ContentConcat(a: seq<Event>, b: seq<Event>)
    ensures Content(a + b) == Content(a) + Content(b)
    decreases |a|
  {
    if a == [] {
      assert a + b == b;
    } else {
      var head := Content([a[0]]);
      ContentOne(a[0]);
      assert (a + b)[0] == a[0] && (a + b)[1..] == a[1..] + b;
      ContentConcat(a[1..], b);
      assert Content(a + b) == head + Content(a[1..] + b);
      Associate(head, Content(a[1..]), Content(b));
    }
  }

  lemma {:induction false} ContentForward(bs: Bytes)
    ensures Content(Forward(bs)) == bs
    decreases |bs|
  {
    if bs != [] {
      assert Forward(bs)[1..] == Forward(bs[1..]);
      ContentForward(bs[1..]);
    }
  }

  lemma ContentOne(e: Event)
    ensures Content([e]) == match e case Byte(b) => [b] case Hide(l) => l case _ => []
  {
    assert [e][1..] == [];
  }

  lemma ContentLine(cfg: Config, active: Bytes, line: Bytes, forwarded: nat)
    ensures Content(Line(cfg, active, line, forwarded).1) == Rest(line, forwarded)
  {
    hide MatchPrefix, HandshakerPayload, LooksLikeFailure, HasEnd, Contains, IsHandshaker, Hides;
    var interrupted := if MatchPrefix(line).Some? && active != [] then [Count("unparsed")] else [];
    var (assembled, counted) := Assemble(active, line);
    var closed := Close(cfg, assembled).1;
    SilentParts(cfg, active, line, assembled);
    ContentOne(Count("unparsed"));
    ContentEmit(cfg, line, forwarded);
    assert Content(interrupted) == [];
    hide Content, Assemble, Close, Emit;
    ContentConcat(interrupted, Emit(cfg, line, forwarded));
    ContentConcat(interrupted + Emit(cfg, line, forwarded), counted);
    ContentConcat(interrupted + Emit(cfg, line, forwarded) + counted, closed);
  }

  lemma ContentEmit(cfg: Config, line: Bytes, forwarded: nat)
    ensures Content(Emit(cfg, line, forwarded)) == Rest(line, forwarded)
  {
    hide Hides;
    ContentForward(Rest(line, forwarded));
    ContentOne(Hide(Rest(line, forwarded)));
  }

  lemma SilentParts(cfg: Config, active: Bytes, line: Bytes, assembled: Bytes)
    ensures Content(Assemble(active, line).1) == [] && Content(Close(cfg, assembled).1) == []
  {
    hide MatchPrefix, HandshakerPayload, LooksLikeFailure, HasEnd, Contains, IsHandshaker;
    ContentOne(Count("unparsed"));
    ContentOne(Count("truncated"));
    ContentOne(Record(assembled));
  }

  /** Two steps that each conserve bytes conserve them together. */
  lemma Chain<T>(a: seq<T>, h: seq<T>, s: seq<T>, x: seq<T>, b: seq<T>, t: seq<T>, y: seq<T>)
    requires a + h == s + x && b + t == h + y
    ensures (a + b) + t == s + (x + y)
  {
    assert (a + b) + t == a + (b + t) == (a + h) + y == (s + x) + y;
  }

  lemma ContentStep(cfg: Config, st: State, part: Bytes)
    requires Inv(cfg, st) && part != []
    ensures var r := StepPart(cfg, st, part);
            Content(r.out) + Held(r.st) == Held(st) + part
  {
    hide Content, Line, PossiblePrefix, Inv, Forward;
    var line := st.pending + part;
    HeldGrows(cfg, st, part);
    var unsent := Rest(line, st.forwarded);
    Units(part, unsent);
    if st.discard {
      ContentForward(part);
      assert Held(StepPart(cfg, st, part).st) == [];
    } else if |line| > cfg.limit {
      ContentForward(unsent);
      ContentOne(Count("truncated"));
      ContentConcat(Forward(unsent), [Count("truncated")]);
    } else if Terminated(part) {
      ContentLine(cfg, st.active, line, st.forwarded);
    } else {
      ContentForward(unsent);
      ContentNothing();
    }
  }

  lemma Units<T>(a: seq<T>, b: seq<T>)
    ensures a + [] == a && [] + a == a && b + [] == b && [] + b == b
  {}

  lemma HeldGrows(cfg: Config, st: State, part: Bytes)
    requires Inv(cfg, st)
    ensures Rest(st.pending + part, st.forwarded) == Held(st) + part
    ensures st.discard ==> Held(st) == []
  {
    hide PossiblePrefix, HandshakerPayload;
  }

  lemma {:induction false} ContentRun(cfg: Config, st: State, data: Bytes)
    requires Inv(cfg, st)
    ensures var r := Run(cfg, st, data);
            Content(r.out) + Held(r.st) == Held(st) + data
    decreases |data|
  {
    hide StepPart, Inv, Held, Content;
    if data == [] {
      ContentNothing();
    } else {
      StepKeepsInv(cfg, st, data[..1]);
      ContentStep(cfg, st, data[..1]);
      var head := StepPart(cfg, st, data[..1]);
      ContentRun(cfg, head.st, data[1..]);
      var tail := Run(cfg, head.st, data[1..]);
      ContentConcat(head.out, tail.out);
      Chain(Content(head.out), Held(head.st), Held(st), data[..1], Content(tail.out), Held(tail.st), data[1..]);
      assert data == data[..1] + data[1..];
    }
  }

  lemma ContentNothing()
    ensures Content([]) == []
  {}

  lemma FlushKeepsInv(cfg: Config, st: State)
    requires Inv(cfg, st)
    ensures Inv(cfg, Flush(st).st)
  {}

  lemma ContentDrain(cfg: Config, st: State, plain: Bytes)
    requires Inv(cfg, st)
    ensures var r := Drain(cfg, st, plain);
            Inv(cfg, r.st) && Held(r.st) == [] && Content(r.out) == Held(st) + plain
  {
    ContentRun(cfg, st, plain);
    RunKeepsInv(cfg, st, plain);
    var fed := Run(cfg, st, plain);
    FlushKeepsInv(cfg, fed.st);
    var flushed := Flush(fed.st);
    ContentFlush(fed.st);
    ContentOne(Drained);
    hide Run, Content, Forward, Inv, Held, Flush;
    ContentConcat(fed.out, flushed.out);
    ContentConcat(fed.out + flushed.out, [Drained]);
    var nothing: Bytes := [];
    assert Content(fed.out) + Held(fed.st) + nothing == Content(fed.out) + Held(fed.st);
    FlushHoldsNothing(fed.st);
  }

  lemma FlushHoldsNothing(st: State)
    ensures Held(Flush(st).st) == []
  {}

  lemma ContentFlush(st: State)
    ensures Content(Flush(st).out) == Held(st)
  {
    ContentForward(Held(st));
    ContentOne(Count("unparsed"));
    ContentNothing();
    hide Content, Forward;
    ContentConcat(Forward(Held(st)), if st.active != [] then [Count("unparsed")] else []);
    var nothing: Bytes := [];
    assert Held(st) + nothing == Held(st);
  }

  lemma {:induction false} ContentDrive(cfg: Config, m: Bytes, st: State, d: Bytes)
    requires Inv(cfg, st) && m != []
    ensures Inv(cfg, Drive(cfg, m, st, d).st)
    ensures var r := Drive(cfg, m, st, d);
            Content(r.out) + (Held(r.st) + r.tail) == Held(st) + Strip(m, d)
    decreases |d|
  {
    hide Run, Drain, Content, Inv, Held, Find, Hold;
    match Find(m, d) {
      case Some(i) =>
        ContentDrain(cfg, st, d[..i]);
        var first := Drain(cfg, st, d[..i]);
        var more := d[i + |m|..];
        ContentDrive(cfg, m, first.st, more);
        var rest := Drive(cfg, m, first.st, more);
        ContentConcat(first.out, rest.out);
        assert Content(first.out) + Held(first.st) == Content(first.out);
        Chain(Content(first.out), Held(first.st), Held(st), d[..i],
              Content(rest.out), Held(rest.st) + rest.tail, Strip(m, more));
      case None =>
        var keep := |d| - Hold(m, d);
        ContentRun(cfg, st, d[..keep]);
        RunKeepsInv(cfg, st, d[..keep]);
        var plain := Run(cfg, st, d[..keep]);
        Chain(Content(plain.out), Held(plain.st), Held(st), d[..keep], [], Held(plain.st) + d[keep..], d[keep..]);
        assert Content(plain.out) + [] == Content(plain.out);
        assert d[..keep] + d[keep..] == d;
    }
  }

  /** Byte conservation: what was forwarded or withheld, then the part of the open
      line not yet forwarded, then the held marker tail, is the input without its
      markers: every byte once and in order, however the input was cut. */
  lemma BytesConserved(cfg: Config, m: Bytes, chunks: seq<Bytes>)
    ensures var f := FeedAll(cfg, m, START, chunks);
            && Inv(cfg, f.st)
            && Content(f.out) + (Held(f.st) + f.tail) == Strip(m, Concat(chunks))
  {
    if chunks == [] {
      NothingFed(m);
    } else {
      ChunkingUnobservable(cfg, m, START, chunks);
      hide Feed, Content, Strip, Inv, Held;
      if m == [] { PlainConserved(cfg, Concat(chunks)); } else { MarkedConserved(cfg, m, Concat(chunks)); }
    }
  }

  lemma NothingFed(m: Bytes)
    ensures Strip(m, []) == [] && Content([]) == [] && Held(FRESH) == []
  {
    assert m != [] ==> Find(m, []).None?;
  }

  lemma PlainFeed(cfg: Config, whole: Bytes)
    ensures var r := Run(cfg, FRESH, whole);
            Feed(cfg, [], START, whole) == Feeding(r.st, [], r.out) && Strip([], whole) == whole && Held(FRESH) == []
  {
    hide Run, Drive, Find;
    assert [] + Run(cfg, FRESH, whole).out == Run(cfg, FRESH, whole).out;
  }

  lemma PlainConserved(cfg: Config, whole: Bytes)
    ensures var f := Feed(cfg, [], START, whole);
            Inv(cfg, f.st) && Content(f.out) + (Held(f.st) + f.tail) == Strip([], whole)
  {
    PlainFeed(cfg, whole);
    FreshInv(cfg);
    ContentRun(cfg, FRESH, whole);
    RunKeepsInv(cfg, FRESH, whole);
    hide Run, Content, Inv, Feed, Strip, Held;
    var r := Run(cfg, FRESH, whole);
    assert [] + whole == whole && Held(r.st) + [] == Held(r.st);
  }

  lemma FreshInv(cfg: Config)
    ensures Inv(cfg, FRESH)
  {}

  lemma MarkedConserved(cfg: Config, m: Bytes, whole: Bytes)
    requires m != []
    ensures var f := Feed(cfg, m, START, whole);
            Inv(cfg, f.st) && Content(f.out) + (Held(f.st) + f.tail) == Strip(m, whole)
  {
    ContentDrive(cfg, m, FRESH, whole);
    hide Drive, Content, Strip, Inv;
    var r := Drive(cfg, m, FRESH, whole);
    assert [] + whole == whole && [] + r.out == r.out;
    assert Held(FRESH) + Strip(m, whole) == Strip(m, whole);
  }

  // ------------------------------------------------------------------
  // What is withheld, and what is recorded
  // ------------------------------------------------------------------

  /** The only lines kept from the original stderr: complete, within the limit,
      informational, from a managed source, and only when asked to be quiet. */
  ghost predicate Suppressible(cfg: Config, line: Bytes) {
    && cfg.quiet
    && IsPart(line) && Terminated(line)
    && |line| <= cfg.limit
    && MatchPrefix(line).Some?
    && IsManaged(MatchPrefix(line).value.source)
    && line[0] == 'I'
  }

  ghost predicate Sound(cfg: Config, e: Event) {
    match e
    case Hide(line) => Suppressible(cfg, line)
    case Record(r) => |r| <= cfg.limit && HasEnd(r) && HandshakerPayload(r).Some?
    case _ => true
  }

  ghost predicate AllSound(cfg: Config, out: seq<Event>) {
    forall i :: 0 <= i < |out| ==> Sound(cfg, out[i])
  }

  /** No byte of a line with a trace prefix leaves before the line is complete. */
  lemma PrefixedLineIsWhole(cfg: Config, st: State, part: Bytes)
    requires Inv(cfg, st) && MatchPrefix(st.pending + part).Some?
    ensures st.forwarded == 0 && IsSeverity((st.pending + part)[0])
  {
    hide HandshakerPayload;
    var line := st.pending + part;
    if st.pending != [] {
      assert line[..|st.pending|] == st.pending;
      PrefixImpliesPossible(line, |st.pending|);
    }
  }

  lemma WholeLine(cfg: Config, st: State, part: Bytes)
    requires Inv(cfg, st) && IsPart(part) && Terminated(part)
    ensures IsPart(st.pending + part) && Terminated(st.pending + part)
  {
    hide HandshakerPayload, PossiblePrefix;
    var line := st.pending + part;
    assert line[..|line| - 1] == st.pending + part[..|part| - 1];
  }

  /** Exactly the suppressible lines are withheld, whole. */
  lemma EmitSound(cfg: Config, st: State, part: Bytes)
    requires Inv(cfg, st) && IsPart(part) && Terminated(part) && |st.pending + part| <= cfg.limit
    ensures var line := st.pending + part;
            Emit(cfg, line, st.forwarded)
              == if Suppressible(cfg, line) then [Hide(line)] else Forward(Held(st) + part)
  {
    var line := st.pending + part;
    HeldGrows(cfg, st, part);
    WholeLine(cfg, st, part);
    if MatchPrefix(line).Some? { PrefixedLineIsWhole(cfg, st, part); }
    hide IsManaged, MatchPrefix, Inv, Forward, IsPart, Held;
    assert Hides(cfg, line) == Suppressible(cfg, line);
    if Hides(cfg, line) { assert line[0..] == line; }
  }

  lemma CloseSound(cfg: Config, st: State, line: Bytes)
    requires Inv(cfg, st)
    ensures AllSound(cfg, Assemble(st.active, line).1)
    ensures AllSound(cfg, Close(cfg, Assemble(st.active, line).0).1)
  {
    hide HandshakerPayload, MatchPrefix, LooksLikeFailure, Contains, HasEnd, IsHandshaker, PossiblePrefix;
    if st.active != [] { PayloadExtend(st.active, line); }
  }

  lemma AllSoundConcat(cfg: Config, a: seq<Event>, b: seq<Event>)
    requires AllSound(cfg, a) && AllSound(cfg, b)
    ensures AllSound(cfg, a + b)
  {
    hide Sound;
  }

  lemma EmitAllSound(cfg: Config, st: State, part: Bytes)
    requires Inv(cfg, st) && IsPart(part) && Terminated(part) && |st.pending + part| <= cfg.limit
    ensures AllSound(cfg, Emit(cfg, st.pending + part, st.forwarded))
  {
    EmitSound(cfg, st, part);
    ForwardSound(cfg, Held(st) + part);
    hide Inv, IsPart, Forward, Held, Emit, Suppressible;
  }

  lemma {:induction false} ForwardSound(cfg: Config, bytes: Bytes)
    ensures AllSound(cfg, Forward(bytes))
  {}

  lemma CountSound(cfg: Config, out: seq<Event>, name: string)
    requires out == [] || out == [Count(name)]
    ensures AllSound(cfg, out)
  {}

  lemma LineSound(cfg: Config, st: State, part: Bytes)
    requires Inv(cfg, st) && IsPart(part) && Terminated(part) && |st.pending + part| <= cfg.limit
    ensures AllSound(cfg, Line(cfg, st.active, st.pending + part, st.forwarded).1)
  {
    var line := st.pending + part;
    EmitAllSound(cfg, st, part);
    CloseSound(cfg, st, line);
    hide MatchPrefix, Inv, IsPart, Emit, Assemble, Close, AllSound, Terminated;
    var interrupted := if MatchPrefix(line).Some? && st.active != [] then [Count("unparsed")] else [];
    CountSound(cfg, interrupted, "unparsed");
    var emitted := Emit(cfg, line, st.forwarded);
    var (assembled, counted) := Assemble(st.active, line);
    AllSoundConcat(cfg, interrupted, emitted);
    AllSoundConcat(cfg, interrupted + emitted, counted);
    AllSoundConcat(cfg, interrupted + emitted + counted, Close(cfg, assembled).1);
  }

  lemma StepSound(cfg: Config, st: State, part: Bytes)
    requires Inv(cfg, st) && IsPart(part)
    ensures AllSound(cfg, StepPart(cfg, st, part).out)
  {
    var line := st.pending + part;
    if !st.discard && |line| <= cfg.limit && Terminated(part) { LineSound(cfg, st, part); }
    hide Line, Suppressible, HasEnd, HandshakerPayload, PossiblePrefix;
  }

  lemma {:induction false} RunSound(cfg: Config, st: State, data: Bytes)
    requires Inv(cfg, st)
    ensures AllSound(cfg, Run(cfg, st, data).out)
    decreases |data|
  {
    if data != [] {
      hide StepPart, Inv, Sound;
      StepKeepsInv(cfg, st, data[..1]);
      StepSound(cfg, st, data[..1]);
      RunSound(cfg, StepPart(cfg, st, data[..1]).st, data[1..]);
    }
  }

  lemma DrainSound(cfg: Config, st: State, plain: Bytes)
    requires Inv(cfg, st)
    ensures AllSound(cfg, Drain(cfg, st, plain).out)
  {
    RunSound(cfg, st, plain);
    var fed := Run(cfg, st, plain);
    FlushSound(cfg, fed.st);
    DrainedSound(cfg);
    hide Run, Inv, AllSound, Flush;
    AllSoundConcat(cfg, fed.out, Flush(fed.st).out);
    AllSoundConcat(cfg, fed.out + Flush(fed.st).out, [Drained]);
  }

  lemma DrainedSound(cfg: Config)
    ensures AllSound(cfg, [Drained])
  {}

  lemma FlushSound(cfg: Config, st: State)
    ensures AllSound(cfg, Flush(st).out)
  {
    ForwardSound(cfg, Held(st));
    var counted := if st.active != [] then [Count("unparsed")] else [];
    CountSound(cfg, counted, "unparsed");
    hide AllSound, Forward;
    AllSoundConcat(cfg, Forward(Held(st)), counted);
  }

  lemma {:induction false} DriveSound(cfg: Config, m: Bytes, st: State, d: Bytes)
    requires Inv(cfg, st) && m != []
    ensures AllSound(cfg, Drive(cfg, m, st, d).out)
    decreases |d|
  {
    hide Run, Inv, Find, Hold, Forward, Sound;
    match Find(m, d) {
      case Some(i) =>
        DrainSound(cfg, st, d[..i]);
        ContentDrain(cfg, st, d[..i]);
        hide Drain;
        DriveSound(cfg, m, Drain(cfg, st, d[..i]).st, d[i + |m|..]);
      case None =>
        RunSound(cfg, st, d[..|d| - Hold(m, d)]);
    }
  }

  /** Only suppressible lines are ever withheld, and every delivered record is a
      finished handshaker record within the limit, so its payload can be read. */
  lemma OutputSound(cfg: Config, m: Bytes, chunks: seq<Bytes>)
    ensures AllSound(cfg, FeedAll(cfg, m, START, chunks).out)
  {
    if chunks != [] {
      var whole := Concat(chunks);
      ChunkingUnobservable(cfg, m, START, chunks);
      hide FeedAll, Run, Drive, Sound;
      assert [] + whole == whole;
      if m == [] {
        RunSound(cfg, FRESH, whole);
        var r := Run(cfg, FRESH, whole);
        assert [] + r.out == r.out;
      } else {
        DriveSound(cfg, m, FRESH, whole);
        var r := Drive(cfg, m, FRESH, whole);
        assert [] + r.out == r.out;
      }
    }
  }

  // ------------------------------------------------------------------
  // The same of any callbacks that are the same in both views
  // ------------------------------------------------------------------

  lemma {:induction false} ContentOfStream(out: seq<Event>)
    ensures Content(Stream(out)) == Content(out)
  {
    if out != [] {
      ContentOfStream(out[1..]);
      if !out[0].Count? {
        var seen := Stream(out);
        assert seen[0] == out[0] && seen[1..] == Stream(out[1..]);
      } else {
        assert [] + Stream(out[1..]) == Stream(out[1..]);
      }
    }
  }

  lemma {:induction false} StreamKeepsAll(out: seq<Event>)
    ensures forall e :: e in Stream(out) <==> e in out && !e.Count?
  {
    if out != [] {
      StreamKeepsAll(out[1..]);
      assert out == [out[0]] + out[1..];
    }
  }

  lemma SoundInStream(cfg: Config, a: seq<Event>, b: seq<Event>)
    requires Same(a, b) && AllSound(cfg, a)
    ensures AllSound(cfg, b)
  {
    hide Suppressible, HasEnd, HandshakerPayload;
    StreamKeepsAll(a);
    StreamKeepsAll(b);
    forall i | 0 <= i < |b| ensures Sound(cfg, b[i]) {
      if !b[i].Count? {
        assert b[i] in Stream(a);
        var j :| 0 <= j < |a| && a[j] == b[i];
      }
    }
  }

  lemma WholeIsOneRead(cfg: Config, m: Bytes, whole: Bytes)
    ensures FeedAll(cfg, m, START, [whole]) == Feed(cfg, m, START, whole) && Concat([whole]) == whole
  {
    hide Feed;
    assert [whole][1..] == [] && whole + [] == whole;
  }

  /** Whoever shows the callbacks of one read of `whole` has conserved its bytes and
      withheld and recorded soundly. */
  lemma ViewsSuffice(cfg: Config, m: Bytes, whole: Bytes, log: seq<Event>)
    requires Same(log, Feed(cfg, m, START, whole).out)
    ensures var f := Feed(cfg, m, START, whole);
            && Content(log) + (Held(f.st) + f.tail) == Strip(m, whole)
            && AllSound(cfg, log)
  {
    hide Feed, FeedAll, Content, Strip, Held, Sound;
    var f := Feed(cfg, m, START, whole);
    WholeIsOneRead(cfg, m, whole);
    BytesConserved(cfg, m, [whole]);
    OutputSound(cfg, m, [whole]);
    ContentOfStream(log);
    ContentOfStream(f.out);
    hide AllSound;
    SameBack(log, f.out);
    SoundInStream(cfg, f.out, log);
  }

  lemma SameBack(a: seq<Event>, b: seq<Event>)
    requires Same(a, b)
    ensures Same(b, a) && Stream(a) == Stream(b)
  {}
}
