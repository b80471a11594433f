/** `ConnectionWriter`: many senders, one connection, one lock (`_session.py`). The
    transport may take a frame in pieces; the lock is held until all are taken. */
module SocketWriter {
  import opened Wrappers
  import opened Bytes
  import opened SocketProtocol

  /** The sender inside the lock and how much of its frame the transport has. */
  datatype Holding = Holding(sender: nat, frame: Frame, pushed: nat)

  /** `queues[i]` are the frames sender `i` has yet to send, in its order; `sent`
      are the frames written, oldest first. */
  datatype Line = Line(wire: seq<Byte>, lock: Option<Holding>, queues: seq<seq<Frame>>, sent: seq<(nat, Frame)>)

  datatype Action = Acquire(sender: nat) | Push(n: nat) | Release | Reject(sender: nat)

  ghost predicate Enabled(l: Line, a: Action) {
    match a
    case Acquire(i) => l.lock.None? && i < |l.queues| && l.queues[i] != [] && Packable(l.queues[i][0])
    case Push(n) => l.lock.Some? && l.lock.value.pushed + n <= |Encoded(l.lock.value.frame)|
    case Release => l.lock.Some? && l.lock.value.pushed == |Encoded(l.lock.value.frame)|
    case Reject(i) => i < |l.queues| && l.queues[i] != [] && !Packable(l.queues[i][0])
  }

  /** A frame that cannot be packed fails before the lock is asked for. */
  function Next(l: Line, a: Action): Line
    requires Enabled(l, a)
  {
    match a
    case Acquire(i) => l.(lock := Some(Holding(i, l.queues[i][0], 0)), queues := l.queues[i := l.queues[i][1..]])
    case Push(n) =>
      var h := l.lock.value;
      l.(wire := l.wire + Encoded(h.frame)[h.pushed..h.pushed + n], lock := Some(h.(pushed := h.pushed + n)))
    case Release => l.(lock := None, sent := l.sent + [(l.lock.value.sender, l.lock.value.frame)])
    case Reject(i) => l.(queues := l.queues[i := l.queues[i][1..]])
  }

  ghost predicate Run(l: Line, acts: seq<Action>, l': Line)
    decreases |acts|
  {
    if acts == [] then l == l' else Enabled(l, acts[0]) && Run(Next(l, acts[0]), acts[1..], l')
  }

  function Init(queues: seq<seq<Frame>>): Line { Line([], None, queues, []) }

  function Frames(sent: seq<(nat, Frame)>): (fs: seq<Frame>)
    ensures |fs| == |sent|
  {
    if sent == [] then [] else [sent[0].1] + Frames(sent[1..])
  }

  /** The frames of one sender. */
  function By(i: nat, sent: seq<(nat, Frame)>): seq<Frame> {
    if sent == [] then []
    else if sent[0].0 == i then [sent[0].1] + By(i, sent[1..])
    else By(i, sent[1..])
  }

  function Packed(fs: seq<Frame>): seq<Frame> {
    if fs == [] then []
    else if Packable(fs[0]) then [fs[0]] + Packed(fs[1..])
    else Packed(fs[1..])
  }

  function Partial(l: Line): seq<Byte>
    requires l.lock.Some? ==> l.lock.value.pushed <= |Encoded(l.lock.value.frame)|
  {
    if l.lock.Some? then Encoded(l.lock.value.frame)[..l.lock.value.pushed] else []
  }

  function InHand(l: Line, i: nat): seq<Frame> {
    if l.lock.Some? && l.lock.value.sender == i then [l.lock.value.frame] else []
  }

  /** What sender `i` set out to send and could: written, in hand, and to come. */
  function Account(l: Line, i: nat): seq<Frame>
    requires i < |l.queues|
  {
    By(i, l.sent) + (InHand(l, i) + Packed(l.queues[i]))
  }

  ghost predicate Whole(l: Line) {
    && (l.lock.Some? ==> l.lock.value.pushed <= |Encoded(l.lock.value.frame)| && Packable(l.lock.value.frame))
    && (forall f :: f in Frames(l.sent) ==> Packable(f))
    && l.wire == Wire(Frames(l.sent)) + Partial(l)
  }

  lemma {:induction false} FramesSnoc(sent: seq<(nat, Frame)>, p: (nat, Frame))
    ensures Frames(sent + [p]) == Frames(sent) + [p.1]
  {
    if sent == [] {
      assert sent + [p] == [p] && [p][1..] == [];
    } else {
      FramesSnoc(sent[1..], p);
      assert (sent + [p])[1..] == sent[1..] + [p];
    }
  }

  lemma {:induction false} BySnoc(i: nat, sent: seq<(nat, Frame)>, p: (nat, Frame))
    ensures By(i, sent + [p]) == By(i, sent) + if p.0 == i then [p.1] else []
  {
    if sent == [] {
      assert sent + [p] == [p] && [p][1..] == [];
    } else {
      BySnoc(i, sent[1..], p);
      assert (sent + [p])[1..] == sent[1..] + [p];
    }
  }

  lemma StepKeepsWhole(l: Line, a: Action)
    requires Whole(l) && Enabled(l, a)
    ensures Whole(Next(l, a)) && |Next(l, a).queues| == |l.queues|
  {
    hide Encoded, Wire, Packable;
    var l' := Next(l, a);
    match a
    case Push(n) =>
      var h := l.lock.value;
      var e := Encoded(h.frame);
      assert e[..h.pushed] + e[h.pushed..h.pushed + n] == e[..h.pushed + n];
      assert l'.wire == Wire(Frames(l.sent)) + (e[..h.pushed] + e[h.pushed..h.pushed + n]);
    case Release =>
      var h := l.lock.value;
      FramesSnoc(l.sent, (h.sender, h.frame));
      WireSnoc(Frames(l.sent), h.frame);
      assert Encoded(h.frame)[..h.pushed] == Encoded(h.frame);
      assert l'.wire + [] == l'.wire;
    case Acquire(i) =>
    case Reject(i) =>
  }

  lemma StepKeepsAccount(l: Line, a: Action, i: nat)
    requires Enabled(l, a) && i < |l.queues|
    ensures i < |Next(l, a).queues| && Account(Next(l, a), i) == Account(l, i)
  {
    hide Encoded, Packable;
    match a
    case Release =>
      var h := l.lock.value;
      BySnoc(i, l.sent, (h.sender, h.frame));
      assert By(i, l.sent) + (InHand(l, i) + Packed(l.queues[i])) == (By(i, l.sent) + InHand(l, i)) + Packed(l.queues[i]);
    case Acquire(j) =>
    case Push(n) =>
    case Reject(j) =>
  }

  lemma {:induction false} RunKeeps(l: Line, acts: seq<Action>, l': Line)
    requires Whole(l) && Run(l, acts, l')
    ensures Whole(l')
    ensures |l'.queues| == |l.queues| && forall i: nat :: i < |l.queues| ==> Account(l', i) == Account(l, i)
    decreases |acts|
  {
    hide Whole, Account, Enabled;
    if acts != [] {
      StepKeepsWhole(l, acts[0]);
      var m := Next(l, acts[0]);
      forall i: nat | i < |l.queues|
        ensures i < |m.queues| && Account(m, i) == Account(l, i)
      {
        StepKeepsAccount(l, acts[0], i);
      }
      RunKeeps(m, acts[1..], l');
    }
  }

  /** The frame under way, once all of it is pushed. */
  function Complete(l: Line): seq<Frame> {
    if l.lock.Some? && l.lock.value.pushed == |Encoded(l.lock.value.frame)| then [l.lock.value.frame] else []
  }

  lemma PartialFrame(l: Line)
    requires Whole(l) && (l.lock.Some? ==> Sendable(l.lock.value.frame))
    ensures ParseAll(Partial(l)) == (Complete(l), Incomplete)
  {
    hide Encoded, Packable;
    if l.lock.Some? {
      var h := l.lock.value;
      if h.pushed < |Encoded(h.frame)| {
        CutFrameIsIncomplete(h.frame, h.pushed);
      } else {
        OneFrame(h.frame);
        assert Encoded(h.frame)[..h.pushed] == Encoded(h.frame);
      }
    }
  }

  lemma OneFrame(f: Frame)
    requires Sendable(f)
    ensures ParseAll(Encoded(f)) == ([f], Incomplete)
  {
    hide Encoded, Packable, Parse;
    WireRoundTrip([f], []);
    assert [f][1..] == [] && Wire([f]) + [] == Encoded(f);
    assert ParseAll([]) == ([], Incomplete) by { NothingToRead(); }
    assert [f] + [] == [f];
  }

  lemma NothingToRead()
    ensures ParseAll([]) == ([], Incomplete)
  {}

  /** However the senders interleave, the peer reads the frames written, whole and
      in order, and of the one under way nothing until all of it is there; each
      sender's frames come in the order it sent them, and none is lost or repeated. */
  lemma WireIsWholeFrames(queues: seq<seq<Frame>>, acts: seq<Action>, l: Line)
    requires Run(Init(queues), acts, l)
    requires forall f :: f in Frames(l.sent) ==> |f.payload| <= MAX_PAYLOAD_SIZE
    requires l.lock.Some? ==> |l.lock.value.frame.payload| <= MAX_PAYLOAD_SIZE
    ensures ParseAll(l.wire) == (Frames(l.sent) + Complete(l), Incomplete)
    ensures |l.queues| == |queues|
    ensures forall i: nat :: i < |queues| ==> By(i, l.sent) + (InHand(l, i) + Packed(l.queues[i])) == Packed(queues[i])
  {
    hide Encoded, Packable, Parse;
    var start := Init(queues);
    RunKeeps(start, acts, l);
    PartialFrame(l);
    WireRoundTrip(Frames(l.sent), Partial(l));
    forall i: nat | i < |queues| ensures Account(l, i) == Packed(queues[i]) {
      assert Account(start, i) == Packed(queues[i]);
    }
  }

  /** The writer accepts payloads the reader refuses: after such a frame the peer
      reads nothing more, whoever sent it. */
  lemma OversizeFrameEndsReading(before: seq<Frame>, big: Frame, after: seq<Byte>)
    requires forall f :: f in before ==> Sendable(f)
    requires Packable(big) && |big.payload| > MAX_PAYLOAD_SIZE
    ensures ParseAll(Wire(before) + (Encoded(big) + after)) == (before, TooLarge(|big.payload|))
  {
    hide Encoded, Packable;
    FrameRoundTrip(big, after);
    WireRoundTrip(before, Encoded(big) + after);
    assert before + [] == before;
  }

  /** The object itself, when nobody else holds the lock. */
  class ConnectionWriter {
    var wire: seq<Byte>

    constructor ()
      ensures wire == []
    {
      wire := [];
    }

    method Send(f: Frame) returns (ok: bool)
      modifies this
      ensures ok == Packable(f)
      ensures wire == old(wire) + if ok then Encoded(f) else []
    {
      var frame := EncodeFrame(f);
      if frame.None? { return false; }
      wire := wire + frame.value;
      return true;
    }
  }
}
