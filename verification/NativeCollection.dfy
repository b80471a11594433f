/** `NativeCollector`: from handshake failures read off the log to records emitted,
    through a bounded queue between two threads, with every loss counted
    (`_grpc_native.py`). */
module NativeCollection {
  import opened Wrappers
  import opened RateLimiter

  datatype Listener = Listener(generation: nat, server: string, ips: set<string>, port: nat)

  datatype Event = Event(generation: nat, server: Option<string>)

  datatype Item = Failure(event: Event) | Barrier

  /** What the parser makes of one record: no failure, of our own server or not, or
      a failure, with the local end if the record names it. */
  datatype Record = NoFailure(unparsed: bool) | HandshakeFailure(local: Option<(string, nat)>)

  datatype Config = Config(capacity: nat, rateLimit: nat)

  /** The public counters; the last four split two of them by cause. */
  datatype Counts = Counts(
    received: nat, emitted: nat, rateLimited: nat, loggerFiltered: nat, queueDropped: nat, inactive: nat,
    unregistered: nat, unparsed: nat,
    eventsDropped: nat, otherDrops: nat, inactiveAtDispatch: nat, inactiveAtRecord: nat)

  /** `offering` is an event the reader thread has counted and not yet queued,
      `holding` an item the worker thread has taken and not yet settled. */
  datatype Collector = Collector(
    counts: Counts,
    listeners: map<nat, Listener>,
    nextToken: nat,
    generation: nat,
    active: Option<nat>,
    exiting: bool,
    queue: seq<Item>,
    limiter: Limiter,
    offering: Option<Event>,
    holding: Option<Item>)

  const ZERO := Counts(0, 0, 0, 0, 0, 0, 0, 0, 0, 0, 0, 0)

  function Init(start: real): Collector {
    Collector(ZERO, map[], 0, 0, None, false, [], Limiter(start, 0), None, None)
  }

  predicate Full(cfg: Config, c: Collector) { |c.queue| >= cfg.capacity }

  // ------------------------------------------------------------------
  // The reader thread
  // ------------------------------------------------------------------

  predicate MatchesLocal(l: Listener, generation: nat, local: (string, nat)) {
    l.generation == generation && l.port == local.1 && ("*" in l.ips || local.0 in l.ips)
  }

  function Matched(ls: map<nat, Listener>, generation: nat, local: Option<(string, nat)>): set<nat> {
    if local.None? then {} else set k | k in ls && MatchesLocal(ls[k], generation, local.value)
  }

  predicate Own(ls: map<nat, Listener>, generation: nat) { exists k :: k in ls && ls[k].generation == generation }

  /** The one listener a failure belongs to, if there is exactly one. */
  function Server(ls: map<nat, Listener>, matched: set<nat>): Option<string>
    requires matched <= ls.Keys
  {
    if |matched| != 1 then None
    else
      SingleMember(matched);
      var k :| k in matched && matched == {k};
      Some(ls[k].server)
  }

  lemma SingleMember(s: set<nat>)
    requires |s| == 1
    ensures exists k :: k in s && s == {k}
  {
    var k :| k in s;
    assert |s - {k}| == 0;
    assert s == {k};
  }

  /** `_record` up to the queue. */
  function Recorded(c: Collector, r: Record): Collector {
    match r
    case NoFailure(unparsed) => if unparsed then c.(counts := c.counts.(unparsed := c.counts.unparsed + 1)) else c
    case HandshakeFailure(local) =>
      if c.active.None? || c.exiting then
        c.(counts := c.counts.(inactive := c.counts.inactive + 1, inactiveAtRecord := c.counts.inactiveAtRecord + 1))
      else
        var g := c.active.value;
        var matched := Matched(c.listeners, g, local);
        if !Own(c.listeners, g) || (local.Some? && matched == {}) then
          c.(counts := c.counts.(unregistered := c.counts.unregistered + 1))
        else
          c.(counts := c.counts.(received := c.counts.received + 1), offering := Some(Event(g, Server(c.listeners, matched))))
  }

  /** `put_nowait`. */
  function Queued(cfg: Config, c: Collector): Collector
    requires c.offering.Some?
  {
    if Full(cfg, c) then
      c.(offering := None,
         counts := c.counts.(queueDropped := c.counts.queueDropped + 1, eventsDropped := c.counts.eventsDropped + 1))
    else c.(offering := None, queue := c.queue + [Failure(c.offering.value)])
  }

  // ------------------------------------------------------------------
  // The worker thread
  // ------------------------------------------------------------------

  function Dropped(k: Counts): Counts { k.(queueDropped := k.queueDropped + 1, eventsDropped := k.eventsDropped + 1) }

  function OtherDrop(k: Counts): Counts { k.(queueDropped := k.queueDropped + 1, otherDrops := k.otherDrops + 1) }

  /** `_emit`: the limiter first, then the logger's level; `broken` is an exception
      while the record is made or handled. */
  function Emitted(cfg: Config, c: Collector, now: real, enabled: bool, broken: bool): Collector {
    var (after, ok) := Admit(cfg.rateLimit, c.limiter, now);
    var k := c.counts;
    c.(limiter := after,
       counts := if !ok then k.(rateLimited := k.rateLimited + 1)
                 else if !enabled then k.(loggerFiltered := k.loggerFiltered + 1)
                 else if broken then Dropped(k)
                 else k.(emitted := k.emitted + 1))
  }

  /** One turn of `_dispatch_forever` for the item held. */
  function Dispatched(cfg: Config, c: Collector, now: real, enabled: bool, broken: bool): Collector
    requires c.holding.Some?
  {
    var done := c.(holding := None);
    match c.holding.value
    case Barrier => if broken then done.(counts := OtherDrop(c.counts)) else done
    case Failure(event) =>
      if Some(event.generation) == c.active && !c.exiting then Emitted(cfg, done, now, enabled, broken)
      else done.(counts := c.counts.(inactive := c.counts.inactive + 1, inactiveAtDispatch := c.counts.inactiveAtDispatch + 1))
  }

  // ------------------------------------------------------------------
  // The object
  // ------------------------------------------------------------------

  class NativeCollector {
    const cfg: Config
    var state: Collector

    constructor (c: Config, start: real)
      ensures cfg == c && state == Init(start)
    {
      cfg := c;
      state := Init(start);
    }

    /** `_record`. A failure is put down to a server only when exactly one listener
        of the running application fits. */
    method OnRecord(r: Record)
      requires state.offering.None?
      modifies this
      ensures state == if Recorded(old(state), r).offering.Some? then Queued(cfg, Recorded(old(state), r)) else Recorded(old(state), r)
    {
      match r
      case NoFailure(unparsed) =>
        if unparsed { state := state.(counts := state.counts.(unparsed := state.counts.unparsed + 1)); }
      case HandshakeFailure(local) =>
        if state.active.None? || state.exiting {
          state := state.(
            counts := state.counts.(inactive := state.counts.inactive + 1, inactiveAtRecord := state.counts.inactiveAtRecord + 1));
          return;
        }
        var generation := state.active.value;
        if !Own(state.listeners, generation) {
          state := state.(counts := state.counts.(unregistered := state.counts.unregistered + 1));
          return;
        }
        var matched := Matched(state.listeners, generation, local);
        if local.Some? && matched == {} {
          state := state.(counts := state.counts.(unregistered := state.counts.unregistered + 1));
          return;
        }
        var event := Event(generation, Server(state.listeners, matched));
        state := state.(counts := state.counts.(received := state.counts.received + 1), offering := Some(event));
        if |state.queue| >= cfg.capacity {
          state := state.(offering := None, counts := Dropped(state.counts));
        } else {
          state := state.(offering := None, queue := state.queue + [Failure(event)]);
        }
    }

    /** `_emit`. */
    method Emit(now: real, enabled: bool, broken: bool)
      modifies this
      ensures state == Emitted(cfg, old(state), now, enabled, broken)
    {
      if now - state.limiter.start >= 1.0 {
        state := state.(limiter := Limiter(now, 0));
      }
      if state.limiter.count >= cfg.rateLimit {
        state := state.(counts := state.counts.(rateLimited := state.counts.rateLimited + 1));
        return;
      }
      state := state.(limiter := state.limiter.(count := state.limiter.count + 1));
      if !enabled {
        state := state.(counts := state.counts.(loggerFiltered := state.counts.loggerFiltered + 1));
      } else if broken {
        state := state.(counts := Dropped(state.counts));
      } else {
        state := state.(counts := state.counts.(emitted := state.counts.emitted + 1));
      }
    }

    /** `_dispatch_forever` while items are there; `now`, `enabled` and `broken` are
        what the clock, the logger and its handlers do for each. */
    method DispatchAll(nows: seq<real>, enabled: seq<bool>, broken: seq<bool>)
      requires state.holding.None? && |nows| == |enabled| == |broken| == |state.queue|
      modifies this
      ensures state == DispatchedAll(cfg, old(state), nows, enabled, broken) && state.queue == []
    {
      ghost var before := state;
      assert nows[0..] == nows && enabled[0..] == enabled && broken[0..] == broken;
      for i := 0 to |nows|
        invariant |state.queue| == |nows| - i && state.holding.None?
        invariant DispatchedAll(cfg, before, nows, enabled, broken) == DispatchedAll(cfg, state, nows[i..], enabled[i..], broken[i..])
      {
        var item := state.queue[0];
        state := state.(queue := state.queue[1..], holding := Some(item));
        assert nows[i..][1..] == nows[i + 1..] && enabled[i..][1..] == enabled[i + 1..] && broken[i..][1..] == broken[i + 1..];
        if item.Barrier? {
          state := state.(holding := None);
          if broken[i] { state := state.(counts := OtherDrop(state.counts)); }
        } else if Some(item.event.generation) == state.active && !state.exiting {
          state := state.(holding := None);
          Emit(nows[i], enabled[i], broken[i]);
        } else {
          state := state.(holding := None,
            counts := state.counts.(inactive := state.counts.inactive + 1, inactiveAtDispatch := state.counts.inactiveAtDispatch + 1));
        }
      }
    }
  }

  function Took(c: Collector): Collector
    requires c.queue != []
  {
    c.(queue := c.queue[1..], holding := Some(c.queue[0]))
  }

  function DispatchedAll(cfg: Config, c: Collector, nows: seq<real>, enabled: seq<bool>, broken: seq<bool>): Collector
    requires |nows| == |enabled| == |broken| == |c.queue|
    decreases |nows|
  {
    if nows == [] then c
    else DispatchedAll(cfg, Dispatched(cfg, Took(c), nows[0], enabled[0], broken[0]), nows[1..], enabled[1..], broken[1..])
  }

  // ------------------------------------------------------------------
  // Every interleaving of the two threads
  // ------------------------------------------------------------------

  datatype Action =
    | Read(r: Record)
    | Offer
    | Take
    | Settle(now: real, enabled: bool, broken: bool)
    | PutBarrier
    | SummaryFails
    | Attach
    | Register(server: string, ips: set<string>, port: nat)
    | Unregister(token: nat)
    | Detach(last: bool)
    | AtExit

  ghost predicate Enabled(c: Collector, a: Action) {
    match a
    case Read(_) => c.offering.None?
    case Offer => c.offering.Some?
    case Take => c.holding.None? && c.queue != []
    case Settle(_, _, _) => c.holding.Some?
    case Attach => c.active.None?
    case Register(_, _, _) | Detach(_) => c.active.Some?
    case Unregister(token) => token in c.listeners
    case PutBarrier | SummaryFails | AtExit => true
  }

  function Next(cfg: Config, c: Collector, a: Action): Collector
    requires Enabled(c, a)
  {
    match a
    case Read(r) => Recorded(c, r)
    case Offer => Queued(cfg, c)
    case Take => Took(c)
    case Settle(now, enabled, broken) => Dispatched(cfg, c, now, enabled, broken)
    case PutBarrier => if Full(cfg, c) then c.(counts := OtherDrop(c.counts)) else c.(queue := c.queue + [Barrier])
    case SummaryFails => c.(counts := OtherDrop(c.counts))
    case Attach => c.(generation := c.generation + 1, active := Some(c.generation + 1))
    case Register(server, ips, port) =>
      c.(nextToken := c.nextToken + 1, listeners := c.listeners[c.nextToken + 1 := Listener(c.active.value, server, ips, port)])
    case Unregister(token) => c.(listeners := c.listeners - {token})
    case Detach(last) =>
      c.(listeners := map k | k in c.listeners && c.listeners[k].generation != c.active.value :: c.listeners[k],
         active := if last then None else c.active)
    case AtExit => c.(exiting := true, active := None)
  }

  ghost predicate Run(cfg: Config, c: Collector, acts: seq<Action>, c': Collector)
    decreases |acts|
  {
    if acts == [] then c == c' else Enabled(c, acts[0]) && Run(cfg, Next(cfg, c, acts[0]), acts[1..], c')
  }

  function Failures(queue: seq<Item>): nat {
    if queue == [] then 0 else (if queue[0].Failure? then 1 else 0) + Failures(queue[1..])
  }

  lemma {:induction false} FailuresSnoc(queue: seq<Item>, item: Item)
    ensures Failures(queue + [item]) == Failures(queue) + if item.Failure? then 1 else 0
  {
    if queue == [] {
      assert queue + [item] == [item] && [item][1..] == [];
    } else {
      FailuresSnoc(queue[1..], item);
      assert (queue + [item])[1..] == queue[1..] + [item];
    }
  }

  /** Events between the two counts: offered, queued, held. */
  function Waiting(c: Collector): nat {
    Failures(c.queue) + (if c.offering.Some? then 1 else 0) + (if c.holding.Some? && c.holding.value.Failure? then 1 else 0)
  }

  predicate Balanced(c: Collector) {
    var k := c.counts;
    && k.received == k.emitted + k.rateLimited + k.loggerFiltered + k.eventsDropped + k.inactiveAtDispatch + Waiting(c)
    && k.queueDropped == k.eventsDropped + k.otherDrops
    && k.inactive == k.inactiveAtDispatch + k.inactiveAtRecord
  }

  predicate Within(cfg: Config, c: Collector) { |c.queue| <= cfg.capacity }

  lemma ReadBalances(c: Collector, r: Record)
    requires Balanced(c) && c.offering.None?
    ensures Balanced(Recorded(c, r)) && Recorded(c, r).queue == c.queue
  {
    hide Server, Matched, Own, Failures;
  }

  lemma SettleBalances(cfg: Config, c: Collector, now: real, enabled: bool, broken: bool)
    requires Balanced(c) && c.holding.Some?
    ensures Balanced(Dispatched(cfg, c, now, enabled, broken)) && Dispatched(cfg, c, now, enabled, broken).queue == c.queue
  {
    hide Admit, Failures;
  }

  lemma OfferBalances(cfg: Config, c: Collector)
    requires Balanced(c) && c.offering.Some?
    ensures Balanced(Queued(cfg, c))
  {
    hide Failures;
    FailuresSnoc(c.queue, Failure(c.offering.value));
  }

  lemma BarrierBalances(c: Collector)
    requires Balanced(c)
    ensures Balanced(c.(queue := c.queue + [Barrier]))
  {
    hide Failures;
    FailuresSnoc(c.queue, Barrier);
  }

  lemma TakeBalances(c: Collector)
    requires Balanced(c) && c.holding.None? && c.queue != []
    ensures Balanced(Took(c))
  {
    assert Failures(c.queue) == (if c.queue[0].Failure? then 1 else 0) + Failures(c.queue[1..]);
    hide Failures;
  }

  lemma StepBalances(cfg: Config, c: Collector, a: Action)
    requires Balanced(c) && Within(cfg, c) && Enabled(c, a)
    ensures Balanced(Next(cfg, c, a)) && Within(cfg, Next(cfg, c, a))
  {
    hide Recorded, Dispatched, Failures;
    match a
    case Read(r) => ReadBalances(c, r);
    case Settle(now, enabled, broken) => SettleBalances(cfg, c, now, enabled, broken);
    case Offer => OfferBalances(cfg, c);
    case Take => TakeBalances(c);
    case PutBarrier => BarrierBalances(c);
    case _ =>
  }

  lemma {:induction false} RunBalances(cfg: Config, c: Collector, acts: seq<Action>, c': Collector)
    requires Balanced(c) && Within(cfg, c) && Run(cfg, c, acts, c')
    ensures Balanced(c') && Within(cfg, c')
    decreases |acts|
  {
    hide Balanced, Within, Next, Enabled;
    if acts != [] {
      StepBalances(cfg, c, acts[0]);
      RunBalances(cfg, Next(cfg, c, acts[0]), acts[1..], c');
    }
  }

  /** At every moment of every interleaving each event received is accounted for
      once: emitted, rate-limited, filtered, dropped, found inactive when its turn
      came, or still on its way; the public drop and inactivity counters are never
      less than the events lost that way; and the queue keeps its bound. */
  lemma NoEventIsUncounted(cfg: Config, start: real, acts: seq<Action>, c: Collector)
    requires Run(cfg, Init(start), acts, c)
    ensures var k := c.counts;
            && k.received == k.emitted + k.rateLimited + k.loggerFiltered + k.eventsDropped + k.inactiveAtDispatch + Waiting(c)
            && k.eventsDropped <= k.queueDropped && k.inactiveAtDispatch <= k.inactive
    ensures |c.queue| <= cfg.capacity
  {
    RunBalances(cfg, Init(start), acts, c);
  }

  // ------------------------------------------------------------------
  // The rate of what gets out
  // ------------------------------------------------------------------

  /** When each event that reached the limiter did so. */
  function EmitTimes(cfg: Config, c: Collector, acts: seq<Action>): seq<real>
    requires RunsFrom(cfg, c, acts)
    decreases |acts|
  {
    if acts == [] then []
    else (if ReachesLimiter(c, acts[0]) then [acts[0].now] else []) + EmitTimes(cfg, Next(cfg, c, acts[0]), acts[1..])
  }

  ghost predicate RunsFrom(cfg: Config, c: Collector, acts: seq<Action>)
    decreases |acts|
  {
    acts == [] || (Enabled(c, acts[0]) && RunsFrom(cfg, Next(cfg, c, acts[0]), acts[1..]))
  }

  predicate ReachesLimiter(c: Collector, a: Action) {
    a.Settle? && c.holding.Some? && c.holding.value.Failure? && Some(c.holding.value.event.generation) == c.active && !c.exiting
  }

  /** The records that leave, by when they left. */
  function EmittedTimes(cfg: Config, c: Collector, acts: seq<Action>): seq<real>
    requires RunsFrom(cfg, c, acts)
    decreases |acts|
  {
    if acts == [] then []
    else
      var d := Next(cfg, c, acts[0]);
      (if d.counts.emitted > c.counts.emitted then [acts[0].now] else []) + EmittedTimes(cfg, d, acts[1..])
  }

  lemma LimiterStep(cfg: Config, c: Collector, a: Action)
    requires Enabled(c, a)
    ensures var d := Next(cfg, c, a);
            if ReachesLimiter(c, a) then
              var (after, ok) := Admit(cfg.rateLimit, c.limiter, a.now);
              d.limiter == after && (d.counts.emitted > c.counts.emitted ==> ok)
            else d.limiter == c.limiter && d.counts.emitted == c.counts.emitted
  {
    hide Admit, Server, Matched, Own;
  }

  lemma WithinCons(now: real, rest: seq<real>, t: real)
    ensures RateLimiter.Within([now] + rest, t) == (if t <= now <= t + 1.0 then 1 else 0) + RateLimiter.Within(rest, t)
  {
    assert ([now] + rest)[1..] == rest;
  }

  lemma {:induction false} EmittedPassed(cfg: Config, c: Collector, acts: seq<Action>, t: real)
    requires RunsFrom(cfg, c, acts)
    ensures RateLimiter.Within(EmittedTimes(cfg, c, acts), t)
         <= RateLimiter.Within(Passed(cfg.rateLimit, c.limiter, EmitTimes(cfg, c, acts)), t)
    decreases |acts|
  {
    hide Next, Enabled, Admit, RateLimiter.Within;
    if acts == [] {
    } else {
      var a := acts[0];
      var d := Next(cfg, c, a);
      LimiterStep(cfg, c, a);
      EmittedPassed(cfg, d, acts[1..], t);
      var emitted := EmittedTimes(cfg, d, acts[1..]);
      var times := EmitTimes(cfg, d, acts[1..]);
      if ReachesLimiter(c, a) {
        var (after, ok) := Admit(cfg.rateLimit, c.limiter, a.now);
        assert ([a.now] + times)[1..] == times;
        WithinCons(a.now, emitted, t);
        WithinCons(a.now, Passed(cfg.rateLimit, after, times), t);
        assert [] + emitted == emitted && [] + Passed(cfg.rateLimit, after, times) == Passed(cfg.rateLimit, after, times);
      } else {
        assert [] + times == times && [] + emitted == emitted;
      }
    }
  }

  /** While the clock does not run backwards, no second holds more emitted records
      than twice the configured limit. */
  lemma EmissionIsBounded(cfg: Config, start: real, acts: seq<Action>, t: real)
    requires cfg.rateLimit > 0 && RunsFrom(cfg, Init(start), acts)
    requires Rising(EmitTimes(cfg, Init(start), acts))
    requires EmitTimes(cfg, Init(start), acts) != [] ==> start <= EmitTimes(cfg, Init(start), acts)[0]
    ensures RateLimiter.Within(EmittedTimes(cfg, Init(start), acts), t) <= 2 * cfg.rateLimit
  {
    EmittedPassed(cfg, Init(start), acts, t);
    AtMostTwiceTheLimit(cfg.rateLimit, start, EmitTimes(cfg, Init(start), acts), t);
  }
}
