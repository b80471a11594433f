/** Every run of one server connection: which chunks reach which handler, and when
    the read loop stops for good. */
module SocketMultiplex {
  import opened SocketProtocol
  import opened SocketSessions

  /** `Unblock` and `Refuse` finish an await of the read loop; `Take` and `Finish`
      are a handler's. A handler that has been cancelled takes no more, unless it does
      not heed cancellations. */
  datatype Action =
    | Receive(f: Frame, shape: Shape, now: real)
    | Unblock
    | Refuse
    | Take(stream: nat)
    | Finish(stream: nat)
    | Reap(sid: nat, now: real)
    | Close

  predicate CanTake(s: Stream) { s.handler.Takes? && !s.done && !(s.cancelled && s.handler.heeds) }

  ghost predicate Enabled(cfg: Config, c: Conn, a: Action) {
    match a
    case Receive(f, shape, now) => c.reader == Reading
    case Unblock => c.reader.Putting? && c.reader.stream < |c.streams| && !Full(cfg, c.streams[c.reader.stream])
    case Refuse => c.reader.Refusing?
    case Take(u) => u < |c.streams| && CanTake(c.streams[u]) && c.streams[u].queue != []
    case Finish(u) => u < |c.streams| && !c.streams[u].done
    case Reap(sid, now) => sid in c.sessions && c.sessions[sid] < |c.streams| && Idle(cfg, c.streams[c.sessions[sid]], now)
    case Close => c.reader == Reading
  }

  function Next(cfg: Config, c: Conn, a: Action): Conn
    requires Valid(c) && Enabled(cfg, c, a)
  {
    match a
    case Receive(f, shape, now) => Dispatched(cfg, c, f, shape, now)
    case Unblock =>
      var u := c.reader.stream;
      c.(reader := Reading, streams := c.streams[u := c.streams[u].(queue := c.streams[u].queue + [c.reader.item])])
    case Refuse => Destroyed(c, c.reader.sid).(reader := Reading)
    case Take(u) => c.(streams := c.streams[u := Took(c.streams[u])])
    case Finish(u) => Destroyed(c.(streams := c.streams[u := c.streams[u].(done := true)]), c.streams[u].sid)
    case Reap(sid, now) => Reaped(cfg, c, sid)
    case Close => c.(reader := Closed, sessions := map[], streams := AllCancelled(c, |c.streams|))
  }

  function Took(s: Stream): Stream
    requires s.queue != []
  {
    s.(queue := s.queue[1..], taken := s.taken + [s.queue[0]])
  }

  /** `destroy_all`. */
  function AllCancelled(c: Conn, n: nat): (r: seq<Stream>)
    requires n <= |c.streams|
    ensures |r| == n && forall u :: 0 <= u < n ==> r[u] == AfterCancel(c, u, {})
  {
    if n == 0 then [] else AllCancelled(c, n - 1) + [AfterCancel(c, n - 1, {})]
  }

  ghost predicate Run(cfg: Config, c: Conn, acts: seq<Action>, c': Conn)
    requires Valid(c)
    decreases |acts|
  {
    if acts == [] then c == c'
    else Enabled(cfg, c, acts[0]) && (ValidStays(cfg, c, acts[0]); Run(cfg, Next(cfg, c, acts[0]), acts[1..], c'))
  }

  lemma DestroyedValid(c: Conn, sid: nat)
    requires Valid(c)
    ensures Valid(Destroyed(c, sid)) && |Destroyed(c, sid).streams| == |c.streams|
    ensures Destroyed(c, sid).reader == c.reader && Destroyed(c, sid).log == c.log
    ensures forall v :: 0 <= v < |c.streams| ==> Destroyed(c, sid).streams[v] in {c.streams[v], Cancel(c.streams[v])}
    ensures Destroyed(c, sid).sessions == c.sessions - {sid}
  {}

  lemma CreatedValid(c: Conn, sid: nat, handler: Handler, now: real)
    requires Valid(c)
    ensures Valid(Created(c, sid, handler, now))
  {}

  lemma DispatchedValid(cfg: Config, c: Conn, f: Frame, shape: Shape, now: real)
    requires Valid(c) && c.reader == Reading
    ensures Valid(Dispatched(cfg, c, f, shape, now))
  {
    hide Started, Offered, Touched, Destroyed, Valid;
    var r := c.(log := c.log + [f]);
    LoggedValid(c, f);
    StartedValid(r, f.sid, shape, now);
    DestroyedValid(r, f.sid);
    if f.sid in c.sessions {
      OfferedValid(cfg, r, f.sid, now, Chunk(f.payload));
      OfferedValid(cfg, r, f.sid, now, End);
      RefusingValid(r, f.sid, now);
    }
  }

  lemma LoggedValid(c: Conn, f: Frame)
    requires Valid(c)
    ensures Valid(c.(log := c.log + [f]))
  {}

  lemma StartedValid(c: Conn, sid: nat, shape: Shape, now: real)
    requires Valid(c)
    ensures Valid(Started(c, sid, shape, now))
  {
    hide Created, Destroyed;
    if shape.Upload? { CreatedValid(c, sid, Takes(shape.heeds), now); }
    CreatedValid(c, sid, Sends, now);
    DestroyedValid(Created(c, sid, Sends, now), sid);
  }

  lemma OfferedValid(cfg: Config, c: Conn, sid: nat, now: real, item: Item)
    requires Valid(c) && sid in c.sessions
    ensures c.sessions[sid] < |Touched(c, c.sessions[sid], now).streams|
    ensures Valid(Offered(cfg, Touched(c, c.sessions[sid], now), c.sessions[sid], item))
  {
    hide Full;
  }

  lemma RefusingValid(c: Conn, sid: nat, now: real)
    requires Valid(c) && sid in c.sessions
    ensures Valid(Touched(c, c.sessions[sid], now).(reader := Refusing(sid)))
  {}

  lemma ValidStays(cfg: Config, c: Conn, a: Action)
    requires Valid(c) && Enabled(cfg, c, a)
    ensures Valid(Next(cfg, c, a))
  {
    hide Full, Idle, Dispatched, Destroyed;
    match a
    case Receive(f, shape, now) => DispatchedValid(cfg, c, f, shape, now);
    case Refuse => DestroyedValid(c, c.reader.sid);
    case Finish(u) => DestroyedValid(c.(streams := c.streams[u := c.streams[u].(done := true)]), c.streams[u].sid);
    case Reap(sid, now) =>
      var u := c.sessions[sid];
      SignalShape(cfg, c.streams[u]);
      DestroyedValid(c.(streams := c.streams[u := Signalled(cfg, c.streams[u])]), sid);
    case _ =>
  }

  // ------------------------------------------------------------------
  // What was sent to a session, and what became of it
  // ------------------------------------------------------------------

  /** The chunks and ends of session `sid` among `frames`. */
  function ItemsOf(sid: nat, frames: seq<Frame>): seq<Item> {
    if frames == [] then []
    else
      var f := frames[0];
      (if f.sid == sid && f.kind == STREAM_CHUNK then [Chunk(f.payload)]
       else if f.sid == sid && f.kind == STREAM_END then [End]
       else []) + ItemsOf(sid, frames[1..])
  }

  /** Without the time-outs the reaper puts in. */
  function Sent(items: seq<Item>): seq<Item> {
    if items == [] then []
    else (if items[0].Expired? then [] else [items[0]]) + Sent(items[1..])
  }

  function InHand(c: Conn, u: nat): seq<Item> {
    if c.reader.Putting? && c.reader.stream == u then [c.reader.item] else []
  }

  /** All that stream `u` was given: taken by its handler, queued, and awaiting room. */
  function Flow(c: Conn, u: nat): seq<Item>
    requires u < |c.streams|
  {
    Sent(c.streams[u].taken + c.streams[u].queue) + InHand(c, u)
  }

  predicate Live(c: Conn, u: nat) {
    InTable(c, u) && c.reader != Refusing(c.streams[u].sid)
  }

  /** All a live stream was sent has been given to it; a dead one got a prefix. */
  ghost predicate Exact(c: Conn, u: nat)
    requires u < |c.streams|
  {
    && c.streams[u].start <= |c.log|
    && Flow(c, u) <= ItemsOf(c.streams[u].sid, c.log[c.streams[u].start..])
    && (Live(c, u) ==> Flow(c, u) == ItemsOf(c.streams[u].sid, c.log[c.streams[u].start..]))
    && (c.reader.Putting? ==> !c.reader.item.Expired?)
  }

  ghost predicate Bounded(cfg: Config, s: Stream) { cfg.queueSize > 0 ==> |s.queue| <= cfg.queueSize }

  ghost predicate Inv(cfg: Config, c: Conn) {
    && Valid(c)
    && forall u: nat :: u < |c.streams| ==> Exact(c, u) && Bounded(cfg, c.streams[u])
  }

  lemma {:induction false} SentConcat(a: seq<Item>, b: seq<Item>)
    ensures Sent(a + b) == Sent(a) + Sent(b)
  {
    if a == [] {
      assert a + b == b;
    } else {
      assert (a + b)[1..] == a[1..] + b;
      SentConcat(a[1..], b);
    }
  }

  lemma {:induction false} ItemsConcat(sid: nat, a: seq<Frame>, b: seq<Frame>)
    ensures ItemsOf(sid, a + b) == ItemsOf(sid, a) + ItemsOf(sid, b)
  {
    if a == [] {
      assert a + b == b;
    } else {
      assert (a + b)[1..] == a[1..] + b;
      ItemsConcat(sid, a[1..], b);
    }
  }

  function ItemOf(f: Frame): seq<Item> {
    if f.kind == STREAM_CHUNK then [Chunk(f.payload)] else if f.kind == STREAM_END then [End] else []
  }

  lemma OneMoreFrame(sid: nat, log: seq<Frame>, start: nat, f: Frame)
    requires start <= |log|
    ensures ItemsOf(sid, (log + [f])[start..]) == ItemsOf(sid, log[start..]) + if f.sid == sid then ItemOf(f) else []
  {
    assert (log + [f])[start..] == log[start..] + [f];
    ItemsConcat(sid, log[start..], [f]);
    assert [f][1..] == [];
  }

  /** A change that leaves the frames, the taking order and the table's claims alone. */
  ghost predicate SameFlow(c: Conn, c': Conn, u: nat)
    requires u < |c.streams| && u < |c'.streams|
  {
    && c'.streams[u].sid == c.streams[u].sid && c'.streams[u].start == c.streams[u].start && c'.log == c.log
    && Flow(c', u) == Flow(c, u)
    && (Live(c', u) ==> Live(c, u))
    && (c'.reader.Putting? ==> c.reader.Putting? && c'.reader.item == c.reader.item)
  }

  lemma SameFlowKeeps(c: Conn, c': Conn, u: nat)
    requires u < |c.streams| && u < |c'.streams| && Exact(c, u) && SameFlow(c, c', u)
    ensures Exact(c', u)
  {
    hide Flow, ItemsOf, Live;
  }

  lemma TakeKeeps(cfg: Config, c: Conn, u: nat)
    requires Inv(cfg, c) && Enabled(cfg, c, Take(u))
    ensures Inv(cfg, Next(cfg, c, Take(u)))
  {
    hide Sent, ItemsOf;
    var c' := Next(cfg, c, Take(u));
    var s := c.streams[u];
    assert s.taken + s.queue == (s.taken + [s.queue[0]]) + s.queue[1..];
    forall v: nat | v < |c.streams| ensures Exact(c', v) && Bounded(cfg, c'.streams[v]) {
      SameFlowKeeps(c, c', v);
    }
  }

  lemma UnblockFlow(s: Stream, item: Item)
    requires !item.Expired?
    ensures Sent(s.taken + (s.queue + [item])) + [] == Sent(s.taken + s.queue) + [item]
  {
    assert s.taken + (s.queue + [item]) == (s.taken + s.queue) + [item];
    SentConcat(s.taken + s.queue, [item]);
    assert Sent([item]) == [item];
  }

  lemma UnblockKeeps(cfg: Config, c: Conn)
    requires Inv(cfg, c) && Enabled(cfg, c, Unblock)
    ensures Inv(cfg, Next(cfg, c, Unblock))
  {
    hide ItemsOf, Sent, Exact;
    ValidStays(cfg, c, Unblock);
    var c' := Next(cfg, c, Unblock);
    var u := c.reader.stream;
    assert !c.reader.item.Expired? by { NeverPutsExpired(c, u); }
    UnblockFlow(c.streams[u], c.reader.item);
    forall v: nat | v < |c.streams| ensures Exact(c', v) && Bounded(cfg, c'.streams[v]) {
      assert SameFlow(c, c', v);
      SameFlowKeeps(c, c', v);
    }
  }

  lemma NeverPutsExpired(c: Conn, u: nat)
    requires u < |c.streams| && Exact(c, u) && c.reader.Putting?
    ensures !c.reader.item.Expired?
  {}

  lemma SignalKeepsSent(cfg: Config, s: Stream)
    ensures Sent(Signalled(cfg, s).taken + Signalled(cfg, s).queue) == Sent(s.taken + s.queue)
    ensures Bounded(cfg, s) ==> Bounded(cfg, Signalled(cfg, s))
  {
    assert s.taken + (s.queue + [Expired]) == (s.taken + s.queue) + [Expired];
    SentConcat(s.taken + s.queue, [Expired]);
    assert Sent([Expired]) == [];
  }

  lemma ReapKeeps(cfg: Config, c: Conn, sid: nat, now: real)
    requires Inv(cfg, c) && Enabled(cfg, c, Action.Reap(sid, now))
    ensures Inv(cfg, Next(cfg, c, Action.Reap(sid, now)))
  {
    hide ItemsOf, Sent, Full, Signalled, Bounded;
    var c' := Next(cfg, c, Action.Reap(sid, now));
    var u := c.sessions[sid];
    SignalKeepsSent(cfg, c.streams[u]);
    SignalShape(cfg, c.streams[u]);
    forall v: nat | v < |c.streams| ensures Exact(c', v) && Bounded(cfg, c'.streams[v]) {
      SameQueueBound(cfg, Signalled(cfg, c.streams[u]), Cancel(Signalled(cfg, c.streams[u])));
      SameFlowKeeps(c, c', v);
    }
  }

  lemma SignalShape(cfg: Config, s: Stream)
    ensures Signalled(cfg, s).sid == s.sid && Signalled(cfg, s).start == s.start && Signalled(cfg, s).taken == s.taken
  {}

  lemma SameQueueBound(cfg: Config, s: Stream, s': Stream)
    requires s.queue == s'.queue
    ensures Bounded(cfg, s) == Bounded(cfg, s')
  {}

  /** Marks set on streams and entries dropped from the table change no flow. */
  lemma MarksKeep(cfg: Config, c: Conn, c': Conn)
    requires Inv(cfg, c) && Valid(c') && |c'.streams| == |c.streams| && c'.log == c.log
    requires c'.reader == c.reader || (!c.reader.Putting? && !c'.reader.Putting?)
    requires forall sid :: sid in c'.sessions ==>
      sid in c.sessions && c'.sessions[sid] == c.sessions[sid] && (c'.reader == c.reader || c.reader != Refusing(sid))
    requires forall v :: 0 <= v < |c.streams| ==> SameItems(c.streams[v], c'.streams[v])
    ensures Inv(cfg, c')
  {
    hide Sent, Exact, Bounded;
    forall v: nat | v < |c.streams| ensures Exact(c', v) && Bounded(cfg, c'.streams[v]) {
      SameQueueBound(cfg, c.streams[v], c'.streams[v]);
      assert SameItems(c.streams[v], c'.streams[v]);
      assert SameFlow(c, c', v);
      SameFlowKeeps(c, c', v);
    }
  }

  predicate SameItems(s: Stream, s': Stream) {
    s'.sid == s.sid && s'.start == s.start && s'.queue == s.queue && s'.taken == s.taken
  }

  lemma RefuseKeeps(cfg: Config, c: Conn)
    requires Inv(cfg, c) && Enabled(cfg, c, Refuse)
    ensures Inv(cfg, Next(cfg, c, Refuse))
  {
    hide Exact, Bounded, Destroyed;
    ValidStays(cfg, c, Refuse);
    DestroyedValid(c, c.reader.sid);
    MarksKeep(cfg, c, Next(cfg, c, Refuse));
  }

  lemma FinishKeeps(cfg: Config, c: Conn, u: nat)
    requires Inv(cfg, c) && Enabled(cfg, c, Finish(u))
    ensures Inv(cfg, Next(cfg, c, Finish(u)))
  {
    hide Exact, Bounded, Destroyed;
    ValidStays(cfg, c, Finish(u));
    var d := c.(streams := c.streams[u := c.streams[u].(done := true)]);
    DestroyedValid(d, c.streams[u].sid);
    var c' := Next(cfg, c, Finish(u));
    FinishMarks(c, d, c', u);
    MarksKeep(cfg, c, c');
  }

  lemma FinishMarks(c: Conn, d: Conn, c': Conn, u: nat)
    requires u < |c.streams| && d == c.(streams := c.streams[u := c.streams[u].(done := true)])
    requires |c'.streams| == |d.streams| && forall v :: 0 <= v < |d.streams| ==> c'.streams[v] in {d.streams[v], Cancel(d.streams[v])}
    ensures forall v :: 0 <= v < |c.streams| ==> SameItems(c.streams[v], c'.streams[v])
  {
    forall v | 0 <= v < |c.streams| ensures SameItems(c.streams[v], c'.streams[v]) {
      assert c'.streams[v] in {d.streams[v], Cancel(d.streams[v])};
    }
  }

  lemma CloseKeeps(cfg: Config, c: Conn)
    requires Inv(cfg, c) && Enabled(cfg, c, Close)
    ensures Inv(cfg, Next(cfg, c, Close))
  {
    hide Exact, Bounded;
    ValidStays(cfg, c, Close);
    MarksKeep(cfg, c, Next(cfg, c, Close));
  }

  // ------------------------------------------------------------------
  // One frame
  // ------------------------------------------------------------------

  /** A stream the frame is not for: it stays as it was, or leaves the table. */
  lemma OtherStream(c: Conn, c': Conn, f: Frame, v: nat)
    requires v < |c.streams| && v < |c'.streams| && Exact(c, v)
    requires c.reader == Reading && c'.log == c.log + [f]
    requires c'.streams[v].sid == c.streams[v].sid && c'.streams[v].start == c.streams[v].start
    requires c'.streams[v].taken == c.streams[v].taken && c'.streams[v].queue == c.streams[v].queue
    requires InHand(c', v) == []
    requires Live(c', v) ==> InTable(c, v) && (f.sid != c.streams[v].sid || ItemOf(f) == [])
    requires c'.reader.Putting? ==> !c'.reader.item.Expired?
    ensures Exact(c', v)
  {
    hide ItemsOf, Sent;
    OneMoreFrame(c.streams[v].sid, c.log, c.streams[v].start, f);
    assert Flow(c', v) == Flow(c, v);
    assert ItemsOf(c.streams[v].sid, c.log[c.streams[v].start..]) + [] == ItemsOf(c.streams[v].sid, c.log[c.streams[v].start..]);
    assert Live(c', v) ==> Live(c, v);
  }

  /** The stream the frame is for. */
  lemma OwnStream(cfg: Config, c: Conn, c': Conn, f: Frame, u: nat, item: Item)
    requires u < |c.streams| && Exact(c, u) && Live(c, u) && c.reader == Reading
    requires f.sid == c.streams[u].sid && ItemOf(f) == [item] && !item.Expired?
    requires c'.log == c.log + [f] && u < |c'.streams|
    requires c'.streams[u].sid == c.streams[u].sid && c'.streams[u].start == c.streams[u].start
    requires c'.streams[u].taken == c.streams[u].taken
    requires if c'.reader == Putting(u, item) then c'.streams[u].queue == c.streams[u].queue
             else c'.reader == Reading && c'.streams[u].queue == c.streams[u].queue + [item]
    ensures Exact(c', u)
  {
    hide ItemsOf;
    var s := c.streams[u];
    OneMoreFrame(s.sid, c.log, s.start, f);
    var before := Sent(s.taken + s.queue);
    assert Flow(c, u) == before + [] == before;
    if c'.reader == Putting(u, item) {
      assert Flow(c', u) == before + [item];
    } else {
      assert s.taken + (s.queue + [item]) == (s.taken + s.queue) + [item];
      SentConcat(s.taken + s.queue, [item]);
      assert Sent([item]) == [item];
      assert Flow(c', u) == (before + [item]) + [] == before + [item];
    }
  }

  lemma StartKeeps(cfg: Config, c: Conn, f: Frame, shape: Shape, now: real)
    requires Inv(cfg, c) && c.reader == Reading && f.kind == STREAM_START
    ensures Inv(cfg, Dispatched(cfg, c, f, shape, now))
  {
    hide Sent, Full, Bounded, Exact;
    var c' := Dispatched(cfg, c, f, shape, now);
    ValidStays(cfg, c, Receive(f, shape, now));
    assert forall s: Stream :: s.queue == [] ==> Bounded(cfg, s) by { EmptyIsBounded(cfg); }
    forall v: nat | v < |c'.streams| ensures Exact(c', v) && Bounded(cfg, c'.streams[v]) {
      if v < |c.streams| {
        SameQueueBound(cfg, c.streams[v], c'.streams[v]);
        OtherStream(c, c', f, v);
      } else {
        NewStream(c', v);
      }
    }
  }

  lemma EmptyIsBounded(cfg: Config)
    ensures forall s: Stream :: s.queue == [] ==> Bounded(cfg, s)
  {}

  lemma NewStream(c: Conn, v: nat)
    requires v < |c.streams| && c.streams[v].taken == [] && c.streams[v].queue == [] && c.streams[v].start == |c.log|
    requires c.reader == Reading
    ensures Exact(c, v)
  {
    assert c.streams[v].taken + c.streams[v].queue == [];
    assert c.log[|c.log|..] == [];
  }

  lemma CancelKeeps(cfg: Config, c: Conn, f: Frame, shape: Shape, now: real)
    requires Inv(cfg, c) && c.reader == Reading && ItemOf(f) == [] && f.kind != STREAM_START
    ensures Inv(cfg, Dispatched(cfg, c, f, shape, now))
  {
    hide Sent, Full, Bounded, Exact;
    var c' := Dispatched(cfg, c, f, shape, now);
    ValidStays(cfg, c, Receive(f, shape, now));
    forall v: nat | v < |c'.streams| ensures Exact(c', v) && Bounded(cfg, c'.streams[v]) {
      SameQueueBound(cfg, c.streams[v], c'.streams[v]);
      OtherStream(c, c', f, v);
    }
  }

  lemma OfferKeeps(cfg: Config, c: Conn, f: Frame, shape: Shape, now: real, item: Item)
    requires Inv(cfg, c) && c.reader == Reading && ItemOf(f) == [item]
    ensures Inv(cfg, Dispatched(cfg, c, f, shape, now))
  {
    hide Sent, Exact;
    var c' := Dispatched(cfg, c, f, shape, now);
    ValidStays(cfg, c, Receive(f, shape, now));
    forall v: nat | v < |c'.streams| ensures Exact(c', v) && Bounded(cfg, c'.streams[v]) {
      assert Exact(c, v) && Bounded(cfg, c.streams[v]);
      if f.sid in c.sessions && v == c.sessions[f.sid] && !c'.reader.Refusing? {
        OwnStream(cfg, c, c', f, v, item);
      } else {
        OtherStream(c, c', f, v);
      }
    }
  }

  lemma StepKeeps(cfg: Config, c: Conn, a: Action)
    requires Inv(cfg, c) && Enabled(cfg, c, a)
    ensures Inv(cfg, Next(cfg, c, a))
  {
    hide Inv, Dispatched, Reaped, Destroyed, Took;
    match a
    case Receive(f, shape, now) =>
      assert Valid(c) by { InvValid(cfg, c); }
      if f.kind == STREAM_START { StartKeeps(cfg, c, f, shape, now); }
      else if ItemOf(f) == [] { CancelKeeps(cfg, c, f, shape, now); }
      else { OfferKeeps(cfg, c, f, shape, now, ItemOf(f)[0]); }
    case Unblock => UnblockKeeps(cfg, c);
    case Take(u) => TakeKeeps(cfg, c, u);
    case Reap(sid, now) => ReapKeeps(cfg, c, sid, now);
    case Refuse => RefuseKeeps(cfg, c);
    case Finish(u) => FinishKeeps(cfg, c, u);
    case Close => CloseKeeps(cfg, c);
  }

  lemma InvValid(cfg: Config, c: Conn)
    requires Inv(cfg, c)
    ensures Valid(c)
  {}

  lemma {:induction false} RunKeeps(cfg: Config, c: Conn, acts: seq<Action>, c': Conn)
    requires Inv(cfg, c) && Run(cfg, c, acts, c')
    ensures Inv(cfg, c')
    decreases |acts|
  {
    hide Exact, Next, Valid;
    if acts != [] {
      StepKeeps(cfg, c, acts[0]);
      RunKeeps(cfg, Next(cfg, c, acts[0]), acts[1..], c');
    }
  }

  /** Whatever the interleaving: what a handler has taken, then its queue, then what
      waits for room are, in order, chunks and ends of that session's own frames
      since it began; all of them while it is live; and no queue outgrows its bound. */
  lemma MultiplexingIsExact(cfg: Config, acts: seq<Action>, c: Conn, u: nat)
    requires Run(cfg, INIT, acts, c) && u < |c.streams|
    ensures c.streams[u].start <= |c.log|
    ensures Flow(c, u) <= ItemsOf(c.streams[u].sid, c.log[c.streams[u].start..])
    ensures Live(c, u) ==> Flow(c, u) == ItemsOf(c.streams[u].sid, c.log[c.streams[u].start..])
    ensures cfg.queueSize > 0 ==> |c.streams[u].queue| <= cfg.queueSize
  {
    RunKeeps(cfg, INIT, acts, c);
    assert Exact(c, u) && Bounded(cfg, c.streams[u]);
  }

  // ------------------------------------------------------------------
  // When the read loop stops
  // ------------------------------------------------------------------

  /** The read loop waits for room in a full queue nobody will empty again: its
      handler has finished, or never takes, or was cancelled and heeds it. */
  predicate Stuck(cfg: Config, c: Conn) {
    && c.reader.Putting? && c.reader.stream < |c.streams|
    && Full(cfg, c.streams[c.reader.stream])
    && !CanTake(c.streams[c.reader.stream])
  }

  lemma StuckStays(cfg: Config, c: Conn, a: Action)
    requires Valid(c) && Enabled(cfg, c, a) && Stuck(cfg, c)
    ensures Stuck(cfg, Next(cfg, c, a)) && Next(cfg, c, a).reader == c.reader && Next(cfg, c, a).log == c.log
  {
    hide Destroyed;
    match a
    case Finish(u) =>
      var d := c.(streams := c.streams[u := c.streams[u].(done := true)]);
      DestroyedValid(d, c.streams[u].sid);
      var v := c.reader.stream;
      assert Destroyed(d, c.streams[u].sid).streams[v] in {d.streams[v], Cancel(d.streams[v])};
    case Reap(sid, now) =>
      var u := c.sessions[sid];
      var d := c.(streams := c.streams[u := Signalled(cfg, c.streams[u])]);
      DestroyedValid(d, sid);
      var v := c.reader.stream;
      assert Destroyed(d, sid).streams[v] in {d.streams[v], Cancel(d.streams[v])};
    case _ =>
  }

  /** Once that happens no further frame of any session is ever read: not another
      session's chunks, not a cancellation, not the end of the connection. */
  lemma {:induction false} StuckForever(cfg: Config, c: Conn, acts: seq<Action>, c': Conn)
    requires Valid(c) && Stuck(cfg, c) && Run(cfg, c, acts, c')
    ensures Stuck(cfg, c') && c'.reader == c.reader && c'.log == c.log
    decreases |acts|
  {
    hide Stuck, Next, Valid, Enabled;
    if acts != [] {
      ValidStays(cfg, c, acts[0]);
      StuckStays(cfg, c, acts[0]);
      StuckForever(cfg, Next(cfg, c, acts[0]), acts[1..], c');
    }
  }

  ghost predicate CanReadOn(cfg: Config, c: Conn)
    requires Valid(c)
  {
    exists acts, c' :: Run(cfg, c, acts, c') && c'.reader == Reading
  }

  lemma UnblockRun(cfg: Config, c: Conn)
    requires Valid(c) && Enabled(cfg, c, Unblock)
    ensures CanReadOn(cfg, c)
  {
    ValidStays(cfg, c, Unblock);
    var c' := Next(cfg, c, Unblock);
    assert [Unblock][1..] == [];
    assert Run(cfg, c, [Unblock], c');
  }

  lemma TakeUnblockRun(cfg: Config, c: Conn)
    requires Valid(c) && c.reader.Putting? && Bounded(cfg, c.streams[c.reader.stream]) && cfg.queueSize > 0
    requires Enabled(cfg, c, Take(c.reader.stream))
    ensures CanReadOn(cfg, c)
  {
    var u := c.reader.stream;
    ValidStays(cfg, c, Take(u));
    var d := Next(cfg, c, Take(u));
    ValidStays(cfg, d, Unblock);
    var acts := [Take(u), Unblock];
    assert acts[1..] == [Unblock] && [Unblock][1..] == [];
    assert Run(cfg, c, acts, Next(cfg, d, Unblock));
  }

  /** A waiting read loop can go on exactly when the queue it waits for has room, or
      a handler that can still take from it. */
  lemma WaitsForeverExactlyWhenStuck(cfg: Config, acts: seq<Action>, c: Conn)
    requires Run(cfg, INIT, acts, c) && c.reader.Putting? && Valid(c)
    ensures CanReadOn(cfg, c) <==> !Stuck(cfg, c)
  {
    RunKeeps(cfg, INIT, acts, c);
    var u := c.reader.stream;
    assert Exact(c, u) && Bounded(cfg, c.streams[u]);
    if Stuck(cfg, c) {
      forall more, c' | Run(cfg, c, more, c') ensures c'.reader != Reading { StuckForever(cfg, c, more, c'); }
    } else if Full(cfg, c.streams[u]) {
      TakeUnblockRun(cfg, c);
    } else {
      UnblockRun(cfg, c);
    }
  }

  // An upload handler that returns without taking its chunks gets there, and so does
  // a slow one that the reaper cancels.

  lemma {:induction false} RunSnoc(cfg: Config, c: Conn, acts: seq<Action>, c': Conn, a: Action)
    requires Valid(c) && Run(cfg, c, acts, c') && Valid(c') && Enabled(cfg, c', a)
    ensures Run(cfg, c, acts + [a], Next(cfg, c', a))
    decreases |acts|
  {
    hide Enabled, Next, Valid;
    if acts == [] {
      assert acts + [a] == [a] && [a][1..] == [];
      ValidStays(cfg, c, a);
    } else {
      ValidStays(cfg, c, acts[0]);
      RunSnoc(cfg, Next(cfg, c, acts[0]), acts[1..], c', a);
      assert (acts + [a])[0] == acts[0] && (acts + [a])[1..] == acts[1..] + [a];
    }
  }

  /** One upload, nothing taken, `n` chunks waiting. */
  predicate Idling(c: Conn, n: nat) {
    && |c.streams| == 1 && c.sessions == map[1 := 0] && c.reader == Reading
    && c.streams[0].sid == 1 && !c.streams[0].done && !c.streams[0].cancelled && |c.streams[0].queue| == n
    && c.streams[0].handler == Takes(true) && c.streams[0].lastActive == 0.0
  }

  lemma {:induction false} FillQueue(cfg: Config, n: nat) returns (acts: seq<Action>, c: Conn)
    requires cfg.maxChunk >= 0 && n <= cfg.queueSize
    ensures Run(cfg, INIT, acts, c) && Idling(c, n)
  {
    if n == 0 {
      var a := Receive(Frame(STREAM_START, 1, []), Upload(true), 0.0);
      c := Next(cfg, INIT, a);
      assert Run(cfg, INIT, [], INIT);
      RunSnoc(cfg, INIT, [], INIT, a);
      acts := [] + [a];
    } else {
      var before, d := FillQueue(cfg, n - 1);
      var a := Receive(Frame(STREAM_CHUNK, 1, []), Unknown, 0.0);
      RunSnoc(cfg, INIT, before, d, a);
      c := Next(cfg, d, a);
      acts := before + [a];
    }
  }

  /** With any bound on the queue: fill it and send one chunk more. */
  lemma WaitForRoom(cfg: Config) returns (acts: seq<Action>, c: Conn)
    requires cfg.maxChunk >= 0 && cfg.queueSize > 0
    ensures Run(cfg, INIT, acts, c) && Idling(c.(reader := Reading), cfg.queueSize)
    ensures c.reader == Putting(0, Chunk([]))
  {
    var filling, full := FillQueue(cfg, cfg.queueSize);
    var chunk := Receive(Frame(STREAM_CHUNK, 1, []), Unknown, 0.0);
    RunSnoc(cfg, INIT, filling, full, chunk);
    acts, c := filling + [chunk], Next(cfg, full, chunk);
  }

  /** Then let the handler return. */
  lemma AbandonedUploadStopsConnection(cfg: Config) returns (acts: seq<Action>, c: Conn)
    requires cfg.maxChunk >= 0 && cfg.queueSize > 0
    ensures Run(cfg, INIT, acts, c) && Stuck(cfg, c)
  {
    var before, waiting := WaitForRoom(cfg);
    RunSnoc(cfg, INIT, before, waiting, Finish(0));
    acts, c := before + [Finish(0)], Next(cfg, waiting, Finish(0));
  }

  /** Or let the reaper find it slow: the time-out that should free the connection
      is what stops it. */
  lemma ReapedUploadStopsConnection(cfg: Config) returns (acts: seq<Action>, c: Conn)
    requires cfg.maxChunk >= 0 && cfg.queueSize > 0
    ensures Run(cfg, INIT, acts, c) && Stuck(cfg, c)
    ensures c.sessions == map[] && |c.streams| == 1 && c.streams[0].cancelled && !c.streams[0].done
  {
    var before, waiting := WaitForRoom(cfg);
    var reap := Action.Reap(1, cfg.timeout + 1.0);
    RunSnoc(cfg, INIT, before, waiting, reap);
    acts, c := before + [reap], Next(cfg, waiting, reap);
  }
}
