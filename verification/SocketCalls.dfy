/** `SocketClient`: the futures of calls and the queues of downloads, and the read
    loop that settles them (`_client.py` of the socket adapter). */
module SocketCalls {
  import opened Wrappers
  import opened Bytes
  import opened SocketProtocol

  /** A future. `Dropped` is the `ConnectionError` of a closed connection;
      `Abandoned` is a waiter that was cancelled. */
  datatype Outcome = Waiting | Answered(payload: seq<Byte>) | Failed(error: seq<Byte>) | Dropped | Abandoned

  datatype Piece = Chunk(data: seq<Byte>) | End | Failure(error: seq<Byte>) | Closed

  /** `taken` is what each download's consumer has had; `began` how many frames
      had been handled when it began. `left` are uploads abandoned by their own
      block, `lost` the call whose answer could not be decoded, and `late` what was
      registered after the read loop ended. `log` are the frames handled. */
  datatype Client = Client(
    next: nat,
    reserved: set<nat>,
    pending: set<nat>,
    futures: map<nat, Outcome>,
    inbound: map<nat, seq<Piece>>,
    taken: map<nat, seq<Piece>>,
    began: map<nat, nat>,
    running: bool,
    left: set<nat>,
    lost: Option<nat>,
    late: set<nat>,
    log: seq<Frame>)

  const INIT := Client(1, {}, {}, map[], map[], map[], map[], true, {}, None, {}, [])

  function Settle(futures: map<nat, Outcome>, sid: nat, o: Outcome): map<nat, Outcome>
    requires sid in futures
  {
    if futures[sid].Waiting? then futures[sid := o] else futures
  }

  /** `_fail`: the call if one is waiting, otherwise the download. */
  function Failing(c: Client, sid: nat, error: seq<Byte>): Client
    requires c.pending <= c.futures.Keys
  {
    var popped := c.(pending := c.pending - {sid});
    if sid in c.pending && c.futures[sid].Waiting? then popped.(futures := c.futures[sid := Failed(error)])
    else if sid in c.inbound then popped.(inbound := c.inbound[sid := c.inbound[sid] + [Failure(error)]])
    else popped
  }

  function AllDropped(c: Client): map<nat, Outcome> {
    map sid | sid in c.futures :: if sid in c.pending && c.futures[sid].Waiting? then Dropped else c.futures[sid]
  }

  function AllClosed(inbound: map<nat, seq<Piece>>): map<nat, seq<Piece>> {
    map sid | sid in inbound :: inbound[sid] + [Closed]
  }

  /** The end of the read loop, `_fail_all`. */
  function Ended(c: Client): Client {
    c.(futures := AllDropped(c), pending := {}, inbound := AllClosed(c.inbound), running := false)
  }

  /** Whether handling the frame decodes its payload. */
  predicate Decodes(c: Client, f: Frame)
    requires c.pending <= c.futures.Keys
  {
    || f.kind == ERROR
    || ((f.kind == COMMAND_RESPONSE || f.kind == STREAM_RESPONSE) && f.sid in c.pending && c.futures[f.sid].Waiting?)
  }

  /** One turn of the read loop; `readable` is whether the payload decodes. The
      entry is taken out of the table before its payload is decoded. */
  function Handled(c: Client, f: Frame, readable: bool): Client
    requires c.pending <= c.futures.Keys
  {
    if Decodes(c, f) && !readable then
      if f.kind == ERROR then Ended(c)
      else Ended(c.(pending := c.pending - {f.sid}, lost := Some(f.sid)))
    else
      var r := c.(log := c.log + [f]);
      if f.kind == COMMAND_RESPONSE || f.kind == STREAM_RESPONSE then
        if f.sid in c.pending then r.(pending := c.pending - {f.sid}, futures := Settle(c.futures, f.sid, Answered(f.payload)))
        else r
      else if f.kind == STREAM_CHUNK then
        if f.sid in c.inbound then r.(inbound := c.inbound[f.sid := c.inbound[f.sid] + [Chunk(f.payload)]]) else r
      else if f.kind == STREAM_END then
        if f.sid in c.inbound then r.(inbound := c.inbound[f.sid := c.inbound[f.sid] + [End]]) else r
      else if f.kind == ERROR then Failing(r, f.sid, f.payload)
      else r
  }

  function Late(c: Client, sid: nat): set<nat> { if c.running then c.late else c.late + {sid} }

  /** A call's future, registered under its session id. */
  function Registered(c: Client, sid: nat): Client {
    c.(pending := c.pending + {sid}, futures := c.futures[sid := Waiting], late := Late(c, sid))
  }

  function OpenedDownload(c: Client): Client {
    var sid := c.next;
    c.(next := sid + 1, inbound := c.inbound[sid := []], taken := c.taken[sid := []], began := c.began[sid := |c.log|],
       late := Late(c, sid))
  }

  // ------------------------------------------------------------------
  // The object
  // ------------------------------------------------------------------

  class SocketClient {
    var next: nat
    var reserved: set<nat>
    var pending: set<nat>
    var futures: map<nat, Outcome>
    var inbound: map<nat, seq<Piece>>
    var running: bool
    ghost var taken: map<nat, seq<Piece>>
    ghost var began: map<nat, nat>
    ghost var left: set<nat>
    ghost var lost: Option<nat>
    ghost var late: set<nat>
    ghost var log: seq<Frame>

    ghost function View(): Client
      reads this
    {
      Client(next, reserved, pending, futures, inbound, taken, began, running, left, lost, late, log)
    }

    constructor ()
      ensures View() == INIT
    {
      next, reserved, pending, futures, inbound, running := 1, {}, {}, map[], map[], true;
      taken, began, left, lost, late, log := map[], map[], {}, None, {}, [];
    }

    /** `command`, up to the await. */
    method Command() returns (sid: nat)
      modifies this
      ensures sid == old(next)
      ensures View() == Registered(old(View()).(next := old(next) + 1), sid)
    {
      sid := next;
      next := next + 1;
      futures := futures[sid := Waiting];
      pending := pending + {sid};
      late := if running then late else late + {sid};
    }

    /** `download`, up to its first await. */
    method Download() returns (sid: nat)
      modifies this
      ensures sid == old(next) && View() == OpenedDownload(old(View()))
    {
      sid := next;
      next := next + 1;
      inbound := inbound[sid := []];
      taken, began, late := taken[sid := []], began[sid := |log|], if running then late else late + {sid};
    }

    method Fail(sid: nat, error: seq<Byte>)
      requires pending <= futures.Keys
      modifies this`pending, this`futures, this`inbound
      ensures View() == Failing(old(View()), sid, error)
    {
      if sid in pending {
        pending := pending - {sid};
        if futures[sid].Waiting? {
          futures := futures[sid := Failed(error)];
          return;
        }
      }
      assert pending == old(pending) - {sid};
      if sid in inbound {
        inbound := inbound[sid := inbound[sid] + [Failure(error)]];
      }
    }

    method DropCalls()
      requires pending <= futures.Keys
      modifies this`futures
      ensures futures == AllDropped(old(View()))
    {
      ghost var c := View();
      var calls := pending;
      while calls != {}
        invariant calls <= c.pending && futures.Keys == c.futures.Keys
        invariant forall s :: s in futures ==>
          futures[s] == if s in c.pending - calls && c.futures[s].Waiting? then Dropped else c.futures[s]
        decreases |calls|
      {
        var sid :| sid in calls;
        calls := calls - {sid};
        if futures[sid].Waiting? {
          futures := futures[sid := Dropped];
        }
      }
    }

    method CloseDownloads()
      modifies this`inbound
      ensures inbound == AllClosed(old(inbound))
    {
      ghost var before := inbound;
      var queues := inbound.Keys;
      while queues != {}
        invariant queues <= before.Keys && inbound.Keys == before.Keys
        invariant forall s :: s in inbound ==> inbound[s] == if s in queues then before[s] else before[s] + [Closed]
        decreases |queues|
      {
        var sid :| sid in queues;
        queues := queues - {sid};
        inbound := inbound[sid := inbound[sid] + [Closed]];
      }
    }

    /** `_fail_all`. */
    method FailAll()
      requires pending <= futures.Keys
      modifies this`pending, this`futures, this`inbound, this`running
      ensures View() == Ended(old(View()))
    {
      DropCalls();
      pending := {};
      CloseDownloads();
      running := false;
    }

    /** The body of `_read_loop` for one frame. */
    method HandleFrame(f: Frame, readable: bool)
      requires pending <= futures.Keys
      modifies this
      ensures View() == Handled(old(View()), f, readable)
    {
      hide Failing, Ended;
      ghost var seen := log + [f];
      if f.kind == COMMAND_RESPONSE || f.kind == STREAM_RESPONSE {
        if f.sid in pending {
          pending := pending - {f.sid};
          if futures[f.sid].Waiting? {
            if !readable {
              lost := Some(f.sid);
              FailAll();
              return;
            }
            futures := futures[f.sid := Answered(f.payload)];
          }
        }
        log := seen;
      } else if f.kind == STREAM_CHUNK {
        if f.sid in inbound {
          inbound := inbound[f.sid := inbound[f.sid] + [Chunk(f.payload)]];
        }
        log := seen;
      } else if f.kind == STREAM_END {
        if f.sid in inbound {
          inbound := inbound[f.sid := inbound[f.sid] + [End]];
        }
        log := seen;
      } else if f.kind == ERROR {
        if !readable {
          FailAll();
          return;
        }
        log := seen;
        Fail(f.sid, f.payload);
      } else {
        log := seen;
      }
    }
  }
}
