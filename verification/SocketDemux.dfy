/** Every run of one socket client: which frame settles which call, what a download
    yields, and who is left waiting when the read loop ends. */
module SocketDemux {
  import opened Wrappers
  import opened Bytes
  import opened SocketProtocol
  import opened SocketCalls

  /** `Reserve` and `Enter` are the two halves of opening an upload, `Leave` its
      block ending in an error; `GiveUp` cancels the task awaiting a call; `Exit` is
      any other end of the read loop. */
  datatype Action =
    | Command | Reserve | Enter(sid: nat) | Leave(sid: nat) | GiveUp(sid: nat)
    | Open | Take(sid: nat) | Abandon(sid: nat)
    | Read(f: Frame, readable: bool) | Exit

  ghost predicate Enabled(c: Client, a: Action) {
    match a
    case Command | Reserve | Open => true
    case Enter(sid) => sid in c.reserved
    case Leave(sid) => sid in c.pending
    case GiveUp(sid) => sid in c.futures && c.futures[sid].Waiting?
    case Take(sid) => sid in c.inbound && c.inbound[sid] != []
    case Abandon(sid) => sid in c.inbound
    case Read(_, _) => c.running && c.pending <= c.futures.Keys
    case Exit => c.running
  }

  function Next(c: Client, a: Action): Client
    requires Enabled(c, a)
  {
    match a
    case Command => Registered(c.(next := c.next + 1), c.next)
    case Reserve => c.(next := c.next + 1, reserved := c.reserved + {c.next})
    case Enter(sid) => Registered(c.(reserved := c.reserved - {sid}), sid)
    case Leave(sid) => c.(pending := c.pending - {sid}, left := c.left + {sid})
    case GiveUp(sid) => c.(futures := c.futures[sid := Abandoned])
    case Open => OpenedDownload(c)
    case Take(sid) => Taken(c, sid)
    case Abandon(sid) => c.(inbound := c.inbound - {sid})
    case Read(f, readable) => Handled(c, f, readable)
    case Exit => Ended(c)
  }

  /** The consumer's next item; anything but a chunk ends the download. */
  function Taken(c: Client, sid: nat): Client
    requires sid in c.inbound && c.inbound[sid] != []
  {
    var item := c.inbound[sid][0];
    c.(taken := c.taken[sid := (if sid in c.taken then c.taken[sid] else []) + [item]],
       inbound := if item.Chunk? then c.inbound[sid := c.inbound[sid][1..]] else c.inbound - {sid})
  }

  ghost predicate Run(c: Client, acts: seq<Action>, c': Client)
    decreases |acts|
  {
    if acts == [] then c == c' else Enabled(c, acts[0]) && Run(Next(c, acts[0]), acts[1..], c')
  }

  // ------------------------------------------------------------------
  // Calls
  // ------------------------------------------------------------------

  /** Session ids come from one counter and serve one purpose. */
  ghost predicate Ids(c: Client) {
    && (forall s :: s in c.reserved || s in c.futures || s in c.taken || s in c.late ==> s < c.next)
    && c.pending <= c.futures.Keys && c.inbound.Keys <= c.taken.Keys && c.began.Keys == c.taken.Keys
    && c.futures.Keys !! c.taken.Keys && c.reserved !! c.futures.Keys && c.reserved !! c.taken.Keys
    && (forall s :: s in c.began ==> c.began[s] <= |c.log|)
    && c.left <= c.futures.Keys
    && (c.running ==> c.late == {} && c.lost == None)
    && (c.lost.Some? ==> c.lost.value in c.futures)
    && c.late !! c.reserved
  }

  /** Whoever still waits is registered, or was left, or lost its answer. */
  ghost predicate Calls(c: Client) {
    && (forall s :: s in c.futures && c.futures[s].Waiting? ==> s in c.pending || s in c.left || c.lost == Some(s))
    && (!c.running ==> c.pending <= c.late)
  }

  ghost predicate Wired(c: Client) { Ids(c) && Calls(c) }

  /** No id is given out, and nothing but table entries disappears. */
  lemma QuietIds(c: Client, c': Client)
    requires Ids(c) && c'.next == c.next && c'.reserved == c.reserved && c'.late == c.late && c'.left <= c'.futures.Keys
    requires c'.futures.Keys == c.futures.Keys && c'.pending <= c.pending && c'.inbound.Keys <= c.inbound.Keys
    requires c'.taken.Keys == c.taken.Keys && c'.began == c.began && |c'.log| >= |c.log|
    requires c'.running ==> c.running && c'.lost == None
    requires c'.lost == c.lost || (c'.lost.Some? && c'.lost.value in c'.futures)
    ensures Ids(c')
  {}

  lemma EndKeepsCalls(c: Client, popped: Client)
    requires Wired(c) && c.running
    requires popped == c || exists s :: s in c.pending && popped == c.(pending := c.pending - {s}, lost := Some(s))
    ensures Wired(Ended(popped))
  {
    QuietIds(c, Ended(popped));
  }

  lemma FailKeepsCalls(c: Client, f: Frame)
    requires Wired(c) && c.running
    ensures Wired(Failing(c.(log := c.log + [f]), f.sid, f.payload))
  {
    QuietIds(c, Failing(c.(log := c.log + [f]), f.sid, f.payload));
  }

  lemma ReadKeepsCalls(c: Client, f: Frame, readable: bool)
    requires Wired(c) && c.running
    ensures Wired(Handled(c, f, readable))
  {
    hide Ended, Failing, Ids;
    assert c.pending <= c.futures.Keys by { PendingKnown(c); }
    if Decodes(c, f) && !readable {
      EndKeepsCalls(c, if f.kind == ERROR then c else c.(pending := c.pending - {f.sid}, lost := Some(f.sid)));
    } else if f.kind == ERROR {
      FailKeepsCalls(c, f);
    } else {
      QuietIds(c, Handled(c, f, readable)) by { PendingKnown(c); }
    }
  }

  lemma PendingKnown(c: Client)
    requires Ids(c)
    ensures c.pending <= c.futures.Keys && c.left <= c.futures.Keys && (c.running ==> c.lost == None)
  {}

  lemma RegisterKeepsCalls(c: Client, d: Client, sid: nat)
    requires Wired(c)
    requires (d == c.(next := c.next + 1) && sid == c.next) || (sid in c.reserved && d == c.(reserved := c.reserved - {sid}))
    ensures Wired(Registered(d, sid))
  {}

  lemma OpenKeepsCalls(c: Client)
    requires Wired(c)
    ensures Wired(OpenedDownload(c))
  {}

  lemma StepKeepsCalls(c: Client, a: Action)
    requires Wired(c) && Enabled(c, a)
    ensures Wired(Next(c, a))
  {
    hide Handled, Registered, OpenedDownload, Ended;
    match a
    case Read(f, readable) => ReadKeepsCalls(c, f, readable);
    case Command => RegisterKeepsCalls(c, c.(next := c.next + 1), c.next);
    case Enter(sid) => RegisterKeepsCalls(c, c.(reserved := c.reserved - {sid}), sid);
    case Open => OpenKeepsCalls(c);
    case Exit => EndKeepsCalls(c, c);
    case Reserve =>
    case _ => QuietIds(c, Next(c, a));
  }

  /** A future is completed at most once. */
  lemma SettledStays(c: Client, a: Action, s: nat)
    requires Wired(c) && Enabled(c, a) && s in c.futures && !c.futures[s].Waiting?
    ensures s in Next(c, a).futures && Next(c, a).futures[s] == c.futures[s]
  {
    hide Handled, Calls;
    if a.Read? { ReadSettles(c, a.f, a.readable, s); }
  }

  /** What one frame does to one call. */
  lemma ReadSettles(c: Client, f: Frame, readable: bool, s: nat)
    requires c.pending <= c.futures.Keys && s in c.futures
    ensures s in Handled(c, f, readable).futures
    ensures !c.futures[s].Waiting? ==> Handled(c, f, readable).futures[s] == c.futures[s]
    ensures match Handled(c, f, readable).futures[s]
            case Answered(p) =>
              c.futures[s].Waiting? ==>
                f.sid == s && f.payload == p && f.kind in {COMMAND_RESPONSE, STREAM_RESPONSE} && readable
            case Failed(e) => c.futures[s].Waiting? ==> f.sid == s && f.payload == e && f.kind == ERROR && readable
            case Dropped => c.futures[s].Waiting? ==> !Handled(c, f, readable).running && s in c.pending
            case Abandoned => !c.futures[s].Waiting?
            case Waiting => true
  {
    hide Ended, Failing;
    EndSettles(c, s);
    EndSettles(c.(pending := c.pending - {f.sid}, lost := Some(f.sid)), s);
    FailSettles(c.(log := c.log + [f]), f.sid, f.payload, s);
  }

  lemma EndSettles(c: Client, s: nat)
    requires s in c.futures
    ensures s in Ended(c).futures && !Ended(c).running
    ensures Ended(c).futures[s] == if s in c.pending && c.futures[s].Waiting? then Dropped else c.futures[s]
  {}

  lemma FailSettles(c: Client, sid: nat, error: seq<Byte>, s: nat)
    requires c.pending <= c.futures.Keys && s in c.futures
    ensures s in Failing(c, sid, error).futures
    ensures Failing(c, sid, error).futures[s]
         == if s == sid && sid in c.pending && c.futures[s].Waiting? then Failed(error) else c.futures[s]
  {}

  lemma {:induction false} CompletedAtMostOnce(c: Client, acts: seq<Action>, c': Client, s: nat)
    requires Wired(c) && Run(c, acts, c') && s in c.futures && !c.futures[s].Waiting?
    ensures s in c'.futures && c'.futures[s] == c.futures[s]
    decreases |acts|
  {
    hide Wired, Next, Enabled;
    if acts != [] {
      StepKeepsCalls(c, acts[0]);
      SettledStays(c, acts[0], s);
      CompletedAtMostOnce(Next(c, acts[0]), acts[1..], c', s);
    }
  }

  /** What can complete a call: its answer or its error, in a frame of its own
      session id; the end of the read loop; or its own waiter giving up. */
  lemma CompletedByItsOwnFrame(c: Client, a: Action, s: nat)
    requires Wired(c) && Enabled(c, a) && s in c.futures && c.futures[s].Waiting?
    ensures s in Next(c, a).futures
    ensures match Next(c, a).futures[s]
            case Waiting => true
            case Answered(p) =>
              && a.Read? && a.f.sid == s && a.f.payload == p && a.f.kind in {COMMAND_RESPONSE, STREAM_RESPONSE} && a.readable
            case Failed(e) => a.Read? && a.f.sid == s && a.f.payload == e && a.f.kind == ERROR && a.readable
            case Dropped => !Next(c, a).running && s in c.pending
            case Abandoned => a == GiveUp(s)
  {
    hide Handled, Calls;
    if a.Read? { ReadSettles(c, a.f, a.readable, s); }
  }

  /** Nobody looks for the call any more: its upload block left it, it was
      registered after the read loop ended, or its answer was lost. */
  predicate Gone(c: Client, s: nat) { s in c.left || s in c.late || c.lost == Some(s) }

  /** A call that is registered or gone has not been completed. */
  ghost predicate Unsettled(c: Client) {
    && c.pending !! c.left
    && forall s :: s in c.futures && (s in c.pending || Gone(c, s)) ==> c.futures[s] in {Waiting, Abandoned}
  }

  lemma EndKeepsUnsettled(c: Client, popped: Client)
    requires Wired(c) && Unsettled(c) && c.running
    requires popped == c
             || exists s :: s in c.pending && c.futures[s].Waiting? && popped == c.(pending := c.pending - {s}, lost := Some(s))
    ensures Unsettled(Ended(popped))
  {
    var d := Ended(popped);
    forall s | s in d.futures && Gone(d, s) ensures d.futures[s] in {Waiting, Abandoned} {
      EndSettles(popped, s);
    }
  }

  lemma FailKeepsUnsettled(c: Client, sid: nat, error: seq<Byte>)
    requires Wired(c) && Unsettled(c) && c.running
    ensures Unsettled(Failing(c, sid, error))
  {}

  lemma ReadKeepsUnsettled(c: Client, f: Frame, readable: bool)
    requires Wired(c) && Unsettled(c) && c.running
    ensures Unsettled(Next(c, Read(f, readable)))
  {
    hide Calls, Ended, Failing, Unsettled;
    PendingKnown(c);
    if Decodes(c, f) && !readable {
      EndKeepsUnsettled(c, if f.kind == ERROR then c else c.(pending := c.pending - {f.sid}, lost := Some(f.sid)));
    } else if f.kind == ERROR {
      LogKeepsUnsettled(c, f);
      FailKeepsUnsettled(c.(log := c.log + [f]), f.sid, f.payload);
    } else {
      AnswerKeepsUnsettled(c, f);
    }
  }

  lemma LogKeepsUnsettled(c: Client, f: Frame)
    requires Wired(c) && Unsettled(c)
    ensures Wired(c.(log := c.log + [f])) && Unsettled(c.(log := c.log + [f]))
  {}

  lemma AnswerKeepsUnsettled(c: Client, f: Frame)
    requires Wired(c) && Unsettled(c) && c.running && f.kind != ERROR
    ensures Unsettled(Handled(c, f, true))
  {}

  lemma StepKeepsUnsettled(c: Client, a: Action)
    requires Wired(c) && Unsettled(c) && Enabled(c, a)
    ensures Unsettled(Next(c, a))
  {
    hide Calls, Handled;
    if a.Read? { ReadKeepsUnsettled(c, a.f, a.readable); }
  }

  lemma {:induction false} RunKeepsUnsettled(c: Client, acts: seq<Action>, c': Client)
    requires Wired(c) && Unsettled(c) && Run(c, acts, c')
    ensures Wired(c') && Unsettled(c')
    decreases |acts|
  {
    hide Wired, Unsettled, Next, Enabled;
    if acts != [] {
      StepKeepsCalls(c, acts[0]);
      StepKeepsUnsettled(c, acts[0]);
      RunKeepsUnsettled(Next(c, acts[0]), acts[1..], c');
    }
  }

  /** A call that is gone is never completed. When the read loop has ended, those
      are the calls still waiting, all of them but the ones given up. */
  lemma StillWaitingExactlyWhenGone(acts: seq<Action>, c: Client, s: nat)
    requires Run(INIT, acts, c) && s in c.futures
    ensures Gone(c, s) ==> c.futures[s] in {Waiting, Abandoned}
    ensures !c.running ==> (c.futures[s] == Waiting <==> Gone(c, s) && c.futures[s] != Abandoned)
  {
    RunKeepsUnsettled(INIT, acts, c);
  }

  /** An answer that does not decode ends the loop and leaves its own caller out:
      the entry is gone before `_fail_all` looks. */
  lemma UnreadableAnswerIsLost(c: Client, f: Frame)
    requires Wired(c) && c.running && f.sid in c.pending && c.futures[f.sid].Waiting?
    requires f.kind == COMMAND_RESPONSE || f.kind == STREAM_RESPONSE
    ensures var d := Next(c, Read(f, false)); !d.running && d.lost == Some(f.sid) && d.futures[f.sid].Waiting?
    ensures var d := Next(c, Read(f, false)); forall s :: s in c.pending && s != f.sid ==> !d.futures[s].Waiting?
  {}

  lemma DeadStep(c: Client, a: Action, s: nat)
    requires Wired(c) && Enabled(c, a) && !c.running && s in c.futures && c.futures[s].Waiting?
    ensures !Next(c, a).running && s in Next(c, a).futures
    ensures Next(c, a).futures[s] in {Waiting, Abandoned}
  {}

  /** After the read loop has ended nothing completes a call any more, whether it
      was registered before or after. */
  lemma {:induction false} NothingIsSettledLater(c: Client, acts: seq<Action>, c': Client, s: nat)
    requires Wired(c) && Run(c, acts, c') && !c.running && s in c.futures && c.futures[s].Waiting?
    ensures s in c'.futures && c'.futures[s] in {Waiting, Abandoned}
    decreases |acts|
  {
    hide Wired, Next, Enabled;
    if acts != [] {
      StepKeepsCalls(c, acts[0]);
      DeadStep(c, acts[0], s);
      var d := Next(c, acts[0]);
      if d.futures[s].Waiting? {
        NothingIsSettledLater(d, acts[1..], c', s);
      } else {
        CompletedAtMostOnce(d, acts[1..], c', s);
      }
    }
  }

  // ------------------------------------------------------------------
  // Downloads
  // ------------------------------------------------------------------

  function PieceOf(f: Frame): seq<Piece> {
    if f.kind == STREAM_CHUNK then [Chunk(f.payload)]
    else if f.kind == STREAM_END then [End]
    else if f.kind == ERROR then [Failure(f.payload)]
    else []
  }

  /** The download pieces of session `sid` among `frames`. */
  function Pieces(sid: nat, frames: seq<Frame>): seq<Piece> {
    if frames == [] then []
    else (if frames[0].sid == sid then PieceOf(frames[0]) else []) + Pieces(sid, frames[1..])
  }

  /** All a download is given, the end of the connection included. */
  function Feed(c: Client, s: nat): seq<Piece>
    requires s in c.began && c.began[s] <= |c.log|
  {
    Pieces(s, c.log[c.began[s]..]) + if !c.running && s !in c.late then [Closed] else []
  }

  ghost predicate AllChunks(ps: seq<Piece>) { forall i :: 0 <= i < |ps| ==> ps[i].Chunk? }

  /** An open download has taken chunks only, and with its queue accounts for all it
      was given; a finished one took a beginning of that. */
  ghost predicate DownloadExact(c: Client, s: nat)
    requires s in c.taken && s in c.began && c.began[s] <= |c.log|
  {
    if s in c.inbound then c.taken[s] + c.inbound[s] == Feed(c, s) && AllChunks(c.taken[s])
    else c.taken[s] <= Feed(c, s) && (c.taken[s] == [] || AllChunks(c.taken[s][..|c.taken[s]| - 1]))
  }

  ghost predicate Downloads(c: Client) {
    Wired(c) && forall s :: s in c.taken ==> DownloadExact(c, s)
  }

  lemma {:induction false} PiecesConcat(sid: nat, a: seq<Frame>, b: seq<Frame>)
    ensures Pieces(sid, a + b) == Pieces(sid, a) + Pieces(sid, b)
  {
    if a == [] {
      assert a + b == b;
    } else {
      assert (a + b)[1..] == a[1..] + b;
      PiecesConcat(sid, a[1..], b);
    }
  }

  lemma OneMorePiece(sid: nat, log: seq<Frame>, start: nat, f: Frame)
    requires start <= |log|
    ensures Pieces(sid, (log + [f])[start..]) == Pieces(sid, log[start..]) + if f.sid == sid then PieceOf(f) else []
  {
    assert (log + [f])[start..] == log[start..] + [f];
    PiecesConcat(sid, log[start..], [f]);
    assert [f][1..] == [];
  }

  /** A frame is handled: the queue it is for gets its piece. */
  lemma FrameKeepsDownload(c: Client, c': Client, f: Frame, s: nat)
    requires Wired(c) && Wired(c') && c.running && c'.running && s in c.taken && DownloadExact(c, s)
    requires c'.log == c.log + [f] && c'.taken == c.taken && c'.began == c.began && c'.inbound.Keys == c.inbound.Keys
    requires s in c.inbound ==> c'.inbound[s] == c.inbound[s] + if f.sid == s then PieceOf(f) else []
    ensures DownloadExact(c', s)
  {
    hide Pieces;
    OneMorePiece(s, c.log, c.began[s], f);
    var more := if f.sid == s then PieceOf(f) else [];
    var fed := Pieces(s, c.log[c.began[s]..]);
    assert Feed(c, s) == fed && Feed(c', s) == fed + more;
    if s in c.inbound {
      assert c.taken[s] + (c.inbound[s] + more) == (c.taken[s] + c.inbound[s]) + more;
    }
  }

  /** The loop ends: every queue is closed. */
  lemma EndKeepsDownload(c: Client, c': Client, s: nat)
    requires Wired(c) && Wired(c') && c.running && !c'.running && s in c.taken && DownloadExact(c, s)
    requires c'.log == c.log && c'.taken == c.taken && c'.began == c.began && c'.late == c.late
    requires c'.inbound == AllClosed(c.inbound)
    ensures DownloadExact(c', s)
  {
    hide Pieces;
    assert Feed(c', s) == Feed(c, s) + [Closed];
    if s in c.inbound {
      assert c.taken[s] + (c.inbound[s] + [Closed]) == (c.taken[s] + c.inbound[s]) + [Closed];
    }
  }

  lemma ReadKeepsDownloads(c: Client, f: Frame, readable: bool)
    requires Downloads(c) && Enabled(c, Read(f, readable))
    ensures Downloads(Handled(c, f, readable))
  {
    hide DownloadExact, Calls;
    ReadKeepsCalls(c, f, readable);
    var c' := Handled(c, f, readable);
    forall s | s in c'.taken ensures DownloadExact(c', s) {
      if c'.running { FrameKeepsDownload(c, c', f, s); } else { EndKeepsDownload(c, c', s); }
    }
  }

  lemma TakeKeepsDownloads(c: Client, sid: nat)
    requires Downloads(c) && Enabled(c, Take(sid))
    ensures Downloads(Taken(c, sid))
  {
    hide Pieces, Calls;
    StepKeepsCalls(c, Take(sid));
    var c' := Taken(c, sid);
    forall s | s in c'.taken ensures DownloadExact(c', s) {
      assert DownloadExact(c, s);
      assert Feed(c', s) == Feed(c, s);
      if s == sid {
        TookFirst(c.taken[s], c.inbound[s], Feed(c, s));
      }
    }
  }

  lemma TookFirst(taken: seq<Piece>, queue: seq<Piece>, feed: seq<Piece>)
    requires queue != [] && taken + queue == feed && AllChunks(taken)
    ensures (taken + [queue[0]]) + queue[1..] == feed
    ensures taken + [queue[0]] <= feed
    ensures (taken + [queue[0]])[..|taken|] == taken
    ensures queue[0].Chunk? ==> AllChunks(taken + [queue[0]])
  {}

  lemma SameDownload(c: Client, c': Client, s: nat)
    requires Wired(c) && Wired(c') && s in c.taken && s in c'.taken && DownloadExact(c, s)
    requires c'.log == c.log && c'.running == c.running && c'.taken[s] == c.taken[s] && c'.began[s] == c.began[s]
    requires (s in c'.late) == (s in c.late)
    requires s in c'.inbound ==> s in c.inbound && c'.inbound[s] == c.inbound[s]
    ensures DownloadExact(c', s)
  {
    hide Pieces;
    assert Feed(c', s) == Feed(c, s);
    if s in c.inbound && s !in c'.inbound {
      assert c.taken[s] <= c.taken[s] + c.inbound[s];
    }
  }

  lemma NewDownload(c: Client, s: nat)
    requires Wired(c) && s in c.taken && s in c.inbound && c.began[s] == |c.log|
    requires c.taken[s] == [] == c.inbound[s] && (c.running || s in c.late)
    ensures DownloadExact(c, s)
  {
    assert c.log[|c.log|..] == [];
    var nothing: seq<Piece> := [];
    assert nothing + nothing == nothing;
  }

  lemma StepKeepsDownloads(c: Client, a: Action)
    requires Downloads(c) && Enabled(c, a)
    ensures Downloads(Next(c, a))
  {
    hide DownloadExact, Calls, Handled, Taken;
    StepKeepsCalls(c, a);
    var c' := Next(c, a);
    match a
    case Read(f, readable) => ReadKeepsDownloads(c, f, readable);
    case Take(sid) => TakeKeepsDownloads(c, sid);
    case Exit =>
      forall s | s in c'.taken ensures DownloadExact(c', s) { EndKeepsDownload(c, c', s); }
    case Open =>
      forall s | s in c'.taken ensures DownloadExact(c', s) {
        if s == c.next { NewDownload(c', s); } else { SameDownload(c, c', s); }
      }
    case _ =>
      forall s | s in c'.taken ensures DownloadExact(c', s) { SameDownload(c, c', s); }
  }

  lemma {:induction false} RunKeepsDownloads(c: Client, acts: seq<Action>, c': Client)
    requires Downloads(c) && Run(c, acts, c')
    ensures Downloads(c')
    decreases |acts|
  {
    hide Downloads, Next, Enabled;
    if acts != [] {
      StepKeepsDownloads(c, acts[0]);
      RunKeepsDownloads(Next(c, acts[0]), acts[1..], c');
    }
  }

  /** Each download yields exactly the chunks of its own session, in order, up to
      its end or its error. */
  lemma DownloadsAreExact(acts: seq<Action>, c: Client, s: nat)
    requires Run(INIT, acts, c) && s in c.taken
    ensures s in c.began && c.began[s] <= |c.log| && DownloadExact(c, s)
  {
    RunKeepsDownloads(INIT, acts, c);
  }

  /** A download open when the read loop ends always has something to take. */
  lemma NoOpenDownloadHangs(acts: seq<Action>, c: Client, s: nat)
    requires Run(INIT, acts, c) && !c.running && s in c.inbound && s !in c.late
    ensures c.inbound[s] != []
  {
    RunKeepsDownloads(INIT, acts, c);
    assert DownloadExact(c, s);
    var feed := Feed(c, s);
    assert feed[|feed| - 1] == Closed;
  }
}
