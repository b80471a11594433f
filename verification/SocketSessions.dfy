/** One connection of the socket server: the read loop that sorts frames into the
    queues of live sessions, the handlers that empty them, and the reaper
    (`_adapter.py`, `_session.py`). */
module SocketSessions {
  import opened Wrappers
  import opened Bytes
  import opened SocketProtocol

  datatype Config = Config(timeout: real, queueSize: int, maxChunk: int)

  /** What a queue holds: chunks, the end marker, a time-out. */
  datatype Item = Chunk(data: seq<Byte>) | End | Expired

  /** What a session's handler does with its queue: nothing, or it takes from it.
      One that `heeds` ends at a cancellation; one that does not catches it and may
      take again. */
  datatype Handler = Sends | Takes(heeds: bool)

  /** What `STREAM_START` names: nothing readable, no endpoint, or one of a shape. */
  datatype Shape = Malformed | Unknown | Upload(heeds: bool) | Download | Command

  /** A session object. It outlives its entry in the table while its handler or
      the read loop still holds the queue. `start` is how many frames had arrived
      when it began. */
  datatype Stream = Stream(
    sid: nat, start: nat, handler: Handler, queue: seq<Item>, taken: seq<Item>, done: bool, cancelled: bool, lastActive: real)

  /** The read loop awaits a frame, room in a queue, or the sending of an error. */
  datatype Reader = Reading | Putting(stream: nat, item: Item) | Refusing(sid: nat) | Closed

  datatype Conn = Conn(sessions: map<nat, nat>, streams: seq<Stream>, reader: Reader, log: seq<Frame>)

  const INIT := Conn(map[], [], Reading, [])

  predicate Full(cfg: Config, s: Stream) { cfg.queueSize > 0 && |s.queue| >= cfg.queueSize }

  /** The table points at sessions of the right id. */
  ghost predicate Valid(c: Conn) {
    && (forall sid :: sid in c.sessions ==> c.sessions[sid] < |c.streams| && c.streams[c.sessions[sid]].sid == sid)
    && (c.reader.Putting? ==> c.reader.stream < |c.streams|)
  }

  // ------------------------------------------------------------------
  // What each operation does
  // ------------------------------------------------------------------

  function Created(c: Conn, sid: nat, handler: Handler, now: real): Conn {
    c.(sessions := c.sessions[sid := |c.streams|],
       streams := c.streams + [Stream(sid, |c.log|, handler, [], [], false, false, now)])
  }

  /** `task.cancel()`, unless the handler has finished. */
  function Cancel(s: Stream): Stream { s.(cancelled := s.cancelled || !s.done) }

  function Destroyed(c: Conn, sid: nat): Conn
    requires Valid(c)
  {
    if sid !in c.sessions then c
    else
      var u := c.sessions[sid];
      c.(sessions := c.sessions - {sid},
         streams := c.streams[u := Cancel(c.streams[u])])
  }

  /** `queue.put`, which waits when there is no room. */
  function Offered(cfg: Config, c: Conn, u: nat, item: Item): Conn
    requires u < |c.streams|
  {
    if Full(cfg, c.streams[u]) then c.(reader := Putting(u, item))
    else c.(streams := c.streams[u := c.streams[u].(queue := c.streams[u].queue + [item])])
  }

  function Touched(c: Conn, u: nat, now: real): Conn
    requires u < |c.streams|
  {
    c.(streams := c.streams[u := c.streams[u].(lastActive := now)])
  }

  function Started(c: Conn, sid: nat, shape: Shape, now: real): Conn
    requires Valid(c)
  {
    match shape
    case Malformed | Unknown => c
    case Upload(heeds) => Created(c, sid, Takes(heeds), now)
    case Download => Created(c, sid, Sends, now)
    case Command => Destroyed(Created(c, sid, Sends, now), sid)
  }

  /** `_dispatch`. Kinds that have no branch are ignored. */
  function Dispatched(cfg: Config, c: Conn, f: Frame, shape: Shape, now: real): Conn
    requires Valid(c) && c.reader == Reading
  {
    var r := c.(log := c.log + [f]);
    if f.kind == STREAM_START then Started(r, f.sid, shape, now)
    else if f.kind == STREAM_CHUNK then
      if f.sid !in c.sessions then r
      else
        var t := Touched(r, c.sessions[f.sid], now);
        if |f.payload| > cfg.maxChunk then t.(reader := Refusing(f.sid))
        else Offered(cfg, t, c.sessions[f.sid], Chunk(f.payload))
    else if f.kind == STREAM_END then
      if f.sid !in c.sessions then r
      else Offered(cfg, Touched(r, c.sessions[f.sid], now), c.sessions[f.sid], End)
    else if f.kind == CANCEL then Destroyed(r, f.sid)
    else r
  }

  predicate Idle(cfg: Config, s: Stream, now: real) { now - s.lastActive > cfg.timeout }

  /** One idle session: told if its queue has room, then dropped. */
  function Reaped(cfg: Config, c: Conn, sid: nat): Conn
    requires Valid(c) && sid in c.sessions
  {
    var u := c.sessions[sid];
    var s := c.streams[u];
    Destroyed(c.(streams := c.streams[u := Signalled(cfg, s)]), sid)
  }

  function Signalled(cfg: Config, s: Stream): Stream {
    if Full(cfg, s) then s else s.(queue := s.queue + [Expired])
  }

  // ------------------------------------------------------------------
  // The object
  // ------------------------------------------------------------------

  class SessionManager {
    const cfg: Config
    var sessions: map<nat, nat>
    var streams: seq<Stream>
    var reader: Reader
    /** The frames so far, kept for what is proved about them. */
    var log: seq<Frame>

    ghost function View(): Conn
      reads this
    {
      Conn(sessions, streams, reader, log)
    }

    constructor (c: Config)
      ensures cfg == c && View() == INIT
    {
      cfg := c;
      sessions, streams, reader, log := map[], [], Reading, [];
    }

    method Create(sid: nat, handler: Handler, now: real)
      modifies this
      ensures View() == Created(old(View()), sid, handler, now)
    {
      sessions := sessions[sid := |streams|];
      streams := streams + [Stream(sid, |log|, handler, [], [], false, false, now)];
    }

    method Get(sid: nat, now: real) returns (r: Option<nat>)
      requires Valid(View())
      modifies this`streams
      ensures r == if sid in sessions then Some(sessions[sid]) else None
      ensures View() == if r.Some? then Touched(old(View()), r.value, now) else old(View())
    {
      if sid !in sessions { return None; }
      var u := sessions[sid];
      streams := streams[u := streams[u].(lastActive := now)];
      return Some(u);
    }

    method Destroy(sid: nat)
      requires Valid(View())
      modifies this`sessions, this`streams
      ensures View() == Destroyed(old(View()), sid) && Valid(View())
    {
      if sid in sessions {
        var u := sessions[sid];
        sessions := sessions - {sid};
        if !streams[u].done {
          streams := streams[u := streams[u].(cancelled := true)];
        }
        assert streams == old(streams)[u := Cancel(old(streams)[u])];
      }
    }

    method Put(u: nat, item: Item)
      requires u < |streams|
      modifies this`streams, this`reader
      ensures View() == Offered(cfg, old(View()), u, item)
    {
      if Full(cfg, streams[u]) {
        reader := Putting(u, item);
      } else {
        streams := streams[u := streams[u].(queue := streams[u].queue + [item])];
      }
    }

    method StartStream(f: Frame, shape: Shape, now: real)
      requires Valid(View())
      modifies this
      ensures View() == Started(old(View()), f.sid, shape, now)
    {
      match shape
      case Malformed | Unknown =>
      case Upload(heeds) => Create(f.sid, Takes(heeds), now);
      case Download => Create(f.sid, Sends, now);
      case Command =>
        Create(f.sid, Sends, now);
        Destroy(f.sid);
    }

    /** `_dispatch`. */
    method Dispatch(f: Frame, shape: Shape, now: real)
      requires Valid(View()) && reader == Reading
      modifies this
      ensures View() == Dispatched(cfg, old(View()), f, shape, now)
    {
      hide Started, Destroyed, Offered, Full;
      log := log + [f];
      if f.kind == STREAM_START {
        StartStream(f, shape, now);
      } else if f.kind == STREAM_CHUNK {
        var session := Get(f.sid, now);
        if session.None? { return; }
        if |f.payload| > cfg.maxChunk {
          reader := Refusing(f.sid);
          return;
        }
        Put(session.value, Chunk(f.payload));
      } else if f.kind == STREAM_END {
        var session := Get(f.sid, now);
        if session.Some? {
          Put(session.value, End);
        }
      } else if f.kind == CANCEL {
        Destroy(f.sid);
      }
    }

    /** `reap_expired`: every idle session, told and dropped; nobody else. */
    method ReapExpired(now: real)
      requires Valid(View())
      modifies this`sessions, this`streams
      ensures Valid(View())
      ensures forall sid :: sid in sessions <==> sid in old(sessions) && !Idle(cfg, old(streams)[old(sessions)[sid]], now)
      ensures forall sid :: sid in sessions ==> sessions[sid] == old(sessions)[sid]
      ensures |streams| == |old(streams)|
      ensures forall u :: 0 <= u < |streams| ==> streams[u] == AfterReap(cfg, old(View()), u, {}, now)
    {
      hide Full, Idle, Destroyed, Signalled, Valid, ReapProgress;
      ghost var before := View();
      var todo := sessions.Keys;
      ReapBegins(cfg, before, now);
      while todo != {}
        invariant ReapProgress(cfg, before, View(), todo, now)
        decreases |todo|
      {
        var sid :| sid in todo;
        ReapOneMore(cfg, before, View(), todo, sid, now);
        todo := todo - {sid};
        if Idle(cfg, streams[sessions[sid]], now) {
          Reap(sid);
        }
      }
      ReapEnds(cfg, before, View(), now);
    }

    method Reap(sid: nat)
      requires Valid(View()) && sid in sessions
      modifies this`sessions, this`streams
      ensures View() == Reaped(cfg, old(View()), sid)
    {
      hide Destroyed;
      var u := sessions[sid];
      if !Full(cfg, streams[u]) {
        streams := streams[u := streams[u].(queue := streams[u].queue + [Expired])];
      }
      assert streams == old(streams)[u := Signalled(cfg, old(streams)[u])];
      Destroy(sid);
    }

    /** `destroy_all`. */
    method DestroyAll()
      requires Valid(View())
      modifies this`sessions, this`streams
      ensures Valid(View()) && sessions == map[] && |streams| == |old(streams)|
      ensures forall u :: 0 <= u < |streams| ==> streams[u] == AfterCancel(old(View()), u, {})
    {
      ghost var before := View();
      var todo := sessions.Keys;
      while todo != {}
        invariant Valid(View()) && sessions.Keys == todo <= before.sessions.Keys && |streams| == |before.streams|
        invariant forall sid :: sid in sessions ==> sessions[sid] == before.sessions[sid]
        invariant forall u :: 0 <= u < |streams| ==> streams[u] == AfterCancel(before, u, todo)
        decreases |todo|
      {
        var sid :| sid in todo;
        todo := todo - {sid};
        assert InTable(before, sessions[sid]);
        Destroy(sid);
      }
    }
  }

  /** Stream `u` is the one its session id stands for. */
  predicate InTable(c: Conn, u: nat) {
    u < |c.streams| && c.streams[u].sid in c.sessions && c.sessions[c.streams[u].sid] == u
  }

  /** Stream `u` once every idle session not in `todo` is reaped. */
  function AfterReap(cfg: Config, c: Conn, u: nat, todo: set<nat>, now: real): Stream
    requires u < |c.streams|
  {
    var s := c.streams[u];
    if InTable(c, u) && s.sid !in todo && Idle(cfg, s, now) then Cancel(Signalled(cfg, s)) else s
  }

  /** Stream `u` once every session not in `todo` is destroyed. */
  function AfterCancel(c: Conn, u: nat, todo: set<nat>): Stream
    requires u < |c.streams|
  {
    if InTable(c, u) && c.streams[u].sid !in todo then Cancel(c.streams[u]) else c.streams[u]
  }

  /** Half-way through `reap_expired`, with `todo` left to look at. */
  ghost predicate ReapProgress(cfg: Config, before: Conn, c: Conn, todo: set<nat>, now: real) {
    && Valid(before) && Valid(c) && todo <= c.sessions.Keys <= before.sessions.Keys
    && |c.streams| == |before.streams| && c.reader == before.reader && c.log == before.log
    && (forall sid :: sid in c.sessions ==> c.sessions[sid] == before.sessions[sid])
    && (forall sid :: sid in before.sessions ==>
          (sid in c.sessions <==> sid in todo || !Idle(cfg, before.streams[before.sessions[sid]], now)))
    && (forall u :: 0 <= u < |c.streams| ==> c.streams[u] == AfterReap(cfg, before, u, todo, now))
  }

  lemma ReapBegins(cfg: Config, c: Conn, now: real)
    requires Valid(c)
    ensures ReapProgress(cfg, c, c, c.sessions.Keys, now)
  {}

  lemma ReapEnds(cfg: Config, before: Conn, c: Conn, now: real)
    requires ReapProgress(cfg, before, c, {}, now)
    ensures Valid(c) && |c.streams| == |before.streams|
    ensures forall sid :: sid in c.sessions <==> sid in before.sessions && !Idle(cfg, before.streams[before.sessions[sid]], now)
    ensures forall sid :: sid in c.sessions ==> c.sessions[sid] == before.sessions[sid]
    ensures forall u :: 0 <= u < |c.streams| ==> c.streams[u] == AfterReap(cfg, before, u, {}, now)
  {}

  lemma ReapOneMore(cfg: Config, before: Conn, c: Conn, todo: set<nat>, sid: nat, now: real)
    requires ReapProgress(cfg, before, c, todo, now) && sid in todo
    ensures Valid(c) && sid in c.sessions && c.sessions[sid] < |c.streams|
    ensures ReapProgress(cfg, before,
              if Idle(cfg, c.streams[c.sessions[sid]], now) then Reaped(cfg, c, sid) else c, todo - {sid}, now)
  {
    hide Idle, Full;
    var u := c.sessions[sid];
    assert InTable(before, u) && c.streams[u] == before.streams[u];
    if Idle(cfg, c.streams[u], now) {
      var d := Reaped(cfg, c, sid);
      assert d.streams[u] == Cancel(Signalled(cfg, before.streams[u]));
      assert forall v :: 0 <= v < |c.streams| && v != u ==> d.streams[v] == c.streams[v];
      assert d.sessions == c.sessions - {sid};
    }
    forall v | 0 <= v < |c.streams| && v != u
      ensures AfterReap(cfg, before, v, todo, now) == AfterReap(cfg, before, v, todo - {sid}, now)
    {
    }
  }
}
