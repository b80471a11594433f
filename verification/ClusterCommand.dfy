/** One command for several workers: asked, relayed by the supervisor, run, and
    acknowledged, over a channel that may lose, repeat and reorder (`_cluster.py`). */
module ClusterCommand {
  import opened Wrappers
  import opened Bytes
  import opened ControlCodec

  type RequestId = seq<Byte>

  /** `_CommandWaiter`, with the member that waits. */
  datatype Waiter = Waiter(owner: nat, expected: seq<int>, acks: map<int, seq<Byte>>)

  /** `_record_adapter_ack` at `member`: first answer of each expected worker. */
  function Recorded(waiters: map<RequestId, Waiter>, member: nat, a: Ack): map<RequestId, Waiter> {
    if a.request !in waiters || waiters[a.request].owner != member || a.index !in waiters[a.request].expected then waiters
    else if a.index in waiters[a.request].acks then waiters
    else waiters[a.request := waiters[a.request].(acks := waiters[a.request].acks[a.index := a.result])]
  }

  /** The targets without an answer, in order. */
  function Missing(targets: seq<int>, acks: map<int, seq<Byte>>): seq<int> {
    if targets == [] then []
    else (if targets[0] in acks then [] else [targets[0]]) + Missing(targets[1..], acks)
  }

  function Answered(targets: seq<int>, acks: map<int, seq<Byte>>): seq<int> {
    if targets == [] then []
    else (if targets[0] in acks then [targets[0]] else []) + Answered(targets[1..], acks)
  }

  /** The answers and the silences share out the targets, none in both. */
  lemma {:induction false} AnsweredOrMissing(targets: seq<int>, acks: map<int, seq<Byte>>)
    ensures forall t :: t in Answered(targets, acks) <==> t in targets && t in acks
    ensures forall t :: t in Missing(targets, acks) <==> t in targets && t !in acks
    ensures |Answered(targets, acks)| + |Missing(targets, acks)| == |targets|
  {
    if targets != [] {
      AnsweredOrMissing(targets[1..], acks);
      assert targets == [targets[0]] + targets[1..];
    }
  }

  /** One process's view. */
  class ClusterMember {
    const index: nat
    var waiters: map<RequestId, Waiter>

    constructor (i: nat)
      ensures index == i && waiters == map[]
    {
      index := i;
      waiters := map[];
    }

    /** `request_adapter_command` up to the first await; `None` is the error of a
        command that cannot be packed, which leaves no waiter behind. */
    method Ask(request: RequestId, targets: seq<int>, body: seq<Byte>) returns (payload: Option<seq<Byte>>)
      modifies this
      ensures payload == PackCommand(Command(request, SortedSet(targets), body))
      ensures waiters == if payload.Some? then old(waiters)[request := Waiter(index, SortedSet(targets), map[])]
                         else old(waiters) - {request}
    {
      waiters := waiters[request := Waiter(index, SortedSet(targets), map[])];
      payload := PackCommand(Command(request, SortedSet(targets), body));
      if payload.None? {
        waiters := waiters - {request};
      }
    }

    method RecordAck(a: Ack)
      modifies this
      ensures waiters == Recorded(old(waiters), index, a)
    {
      if a.request !in waiters || waiters[a.request].owner != index { return; }
      var w := waiters[a.request];
      if a.index !in w.expected { return; }
      if a.index !in w.acks {
        waiters := waiters[a.request := w.(acks := w.acks[a.index := a.result])];
      }
    }

    /** The end of the wait, complete or timed out. */
    method Collect(request: RequestId) returns (acks: map<int, seq<Byte>>, missing: seq<int>)
      requires request in waiters
      modifies this
      ensures acks == old(waiters)[request].acks
      ensures forall t :: t in missing <==> t in old(waiters)[request].expected && t !in acks
      ensures waiters == old(waiters) - {request}
    {
      var w := waiters[request];
      acks := w.acks;
      missing := [];
      for i := 0 to |w.expected|
        invariant waiters == old(waiters)
        invariant missing == Missing(w.expected[..i], acks)
      {
        MissingSnoc(w.expected[..i], w.expected[i], acks);
        assert w.expected[..i] + [w.expected[i]] == w.expected[..i + 1];
        if w.expected[i] !in acks {
          missing := missing + [w.expected[i]];
        }
      }
      assert w.expected[..|w.expected|] == w.expected;
      AnsweredOrMissing(w.expected, acks);
      waiters := waiters - {request};
    }
  }

  lemma {:induction false} MissingSnoc(targets: seq<int>, t: int, acks: map<int, seq<Byte>>)
    ensures Missing(targets + [t], acks) == Missing(targets, acks) + if t in acks then [] else [t]
  {
    if targets == [] {
      assert targets + [t] == [t] && [t][1..] == [];
    } else {
      MissingSnoc(targets[1..], t, acks);
      assert (targets + [t])[1..] == targets[1..] + [t];
    }
  }

  // ------------------------------------------------------------------
  // Every run of the protocol
  // ------------------------------------------------------------------

  /** That worker `index` ran `body` for `request` and got `result`. */
  datatype Execution = Execution(request: RequestId, index: int, body: seq<Byte>, result: seq<Byte>)

  /** `asked` are the commands given out under each request id; a message once
      posted may arrive any number of times, at any time, or never. */
  datatype World = World(
    slots: nat,
    waiters: map<RequestId, Waiter>,
    asked: map<RequestId, Command>,
    requests: set<seq<Byte>>,
    broadcasts: set<seq<Byte>>,
    acks: set<seq<Byte>>,
    ran: set<Execution>,
    results: map<RequestId, Waiter>)

  datatype Action =
    | Ask(owner: nat, request: RequestId, targets: seq<int>, body: seq<Byte>)
    | Relay(payload: seq<Byte>)
    | Execute(worker: nat, payload: seq<Byte>, result: seq<Byte>)
    | Deliver(member: nat, payload: seq<Byte>)
    | Collect(request: RequestId)

  /** Request ids are sixteen random bytes, taken not to repeat. */
  ghost predicate Enabled(w: World, a: Action) {
    match a
    case Ask(owner, request, targets, body) => request !in w.asked && targets != []
    case Relay(payload) => payload in w.requests
    case Execute(worker, payload, result) =>
      payload in w.broadcasts && UnpackCommand(payload).Some? && worker in UnpackCommand(payload).value.targets
    case Deliver(member, payload) => payload in w.acks
    case Collect(request) => request in w.waiters
  }

  function Asked(w: World, owner: nat, request: RequestId, targets: seq<int>, body: seq<Byte>): World {
    var c := Command(request, SortedSet(targets), body);
    match PackCommand(c)
    case None => w.(asked := w.asked[request := c])
    case Some(payload) =>
      w.(asked := w.asked[request := c], waiters := w.waiters[request := Waiter(owner, c.targets, map[])],
         requests := w.requests + {payload})
  }

  /** The supervisor passes on what it can read, to workers there are. */
  function Relayed(w: World, payload: seq<Byte>): World {
    match UnpackCommand(payload)
    case None => w
    case Some(c) => if exists t :: t in c.targets && t >= w.slots then w else w.(broadcasts := w.broadcasts + {payload})
  }

  /** `_execute_adapter_command`; an answer too long to pack is no answer. */
  function Executed(w: World, worker: nat, c: Command, result: seq<Byte>): World {
    var ran := w.(ran := w.ran + {Execution(c.request, worker, c.body, result)});
    var a := Ack(c.request, worker, result);
    match PackAck(a)
    case None => ran
    case Some(bytes) => ran.(waiters := Recorded(w.waiters, worker, a), acks := w.acks + {bytes})
  }

  function Next(w: World, a: Action): World
    requires Enabled(w, a)
  {
    match a
    case Ask(owner, request, targets, body) => Asked(w, owner, request, targets, body)
    case Relay(payload) => Relayed(w, payload)
    case Execute(worker, payload, result) => Executed(w, worker, UnpackCommand(payload).value, result)
    case Deliver(member, payload) =>
      (match UnpackAck(payload) case None => w case Some(a) => w.(waiters := Recorded(w.waiters, member, a)))
    case Collect(request) => w.(waiters := w.waiters - {request}, results := w.results[request := w.waiters[request]])
  }

  function Init(slots: nat): World { World(slots, map[], map[], {}, {}, {}, {}, map[]) }

  ghost predicate Run(w: World, acts: seq<Action>, w': World)
    decreases |acts|
  {
    if acts == [] then w == w' else Enabled(w, acts[0]) && Run(Next(w, acts[0]), acts[1..], w')
  }

  /** A command on the channel is one that was asked. */
  ghost predicate Genuine(w: World, payload: seq<Byte>) {
    && UnpackCommand(payload).Some?
    && UnpackCommand(payload).value.request in w.asked
    && UnpackCommand(payload).value == w.asked[UnpackCommand(payload).value.request]
  }

  /** Some run of the asked command by that worker gave that answer. */
  ghost predicate Earned(w: World, request: RequestId, index: int, result: seq<Byte>) {
    && request in w.asked && index in w.asked[request].targets
    && Execution(request, index, w.asked[request].body, result) in w.ran
  }

  ghost predicate Honest(w: World, request: RequestId, waiter: Waiter) {
    && request in w.asked && waiter.expected == w.asked[request].targets
    && forall i :: i in waiter.acks ==> i in waiter.expected && Earned(w, request, i, waiter.acks[i])
  }

  ghost predicate Inv(w: World) {
    && (forall p :: p in w.requests || p in w.broadcasts ==> Genuine(w, p))
    && (forall p :: p in w.acks ==>
          UnpackAck(p).Some? && Earned(w, UnpackAck(p).value.request, UnpackAck(p).value.index, UnpackAck(p).value.result))
    && (forall r :: r in w.waiters ==> Honest(w, r, w.waiters[r]))
    && (forall r :: r in w.results ==> Honest(w, r, w.results[r]))
  }

  /** Nothing already asked or run is forgotten. */
  ghost predicate Grown(w: World, w': World) {
    && (forall r :: r in w.asked ==> r in w'.asked && w'.asked[r] == w.asked[r])
    && w.ran <= w'.ran
  }

  lemma HonestGrows(w: World, w': World, r: RequestId, waiter: Waiter)
    requires Grown(w, w') && Honest(w, r, waiter)
    ensures Honest(w', r, waiter)
  {}

  lemma AskKeepsChannel(w: World, owner: nat, request: RequestId, targets: seq<int>, body: seq<Byte>)
    requires Inv(w) && request !in w.asked
    ensures var w' := Asked(w, owner, request, targets, body);
            && (forall p :: p in w'.requests || p in w'.broadcasts ==> Genuine(w', p))
            && (forall p :: p in w'.acks ==>
                  UnpackAck(p).Some? && Earned(w', UnpackAck(p).value.request, UnpackAck(p).value.index, UnpackAck(p).value.result))
  {
    hide UnpackCommand, UnpackAck, PackCommand, SortedSet, Honest;
    var c := Command(request, SortedSet(targets), body);
    if PackCommand(c).Some? {
      AskedIsGenuine(c, SortedSet(targets));
      SortTwice(targets);
    }
  }

  lemma AskKeepsHonest(w: World, owner: nat, request: RequestId, targets: seq<int>, body: seq<Byte>)
    requires Inv(w) && request !in w.asked
    ensures var w' := Asked(w, owner, request, targets, body);
            && (forall r :: r in w'.waiters ==> Honest(w', r, w'.waiters[r]))
            && (forall r :: r in w'.results ==> Honest(w', r, w'.results[r]))
  {
    hide UnpackCommand, UnpackAck, PackCommand, SortedSet, Genuine, Earned;
    var w' := Asked(w, owner, request, targets, body);
    assert Grown(w, w');
    forall r | r in w.waiters ensures Honest(w', r, w.waiters[r]) { HonestGrows(w, w', r, w.waiters[r]); }
    forall r | r in w.results ensures Honest(w', r, w.results[r]) { HonestGrows(w, w', r, w.results[r]); }
  }

  lemma AskKeeps(w: World, owner: nat, request: RequestId, targets: seq<int>, body: seq<Byte>)
    requires Inv(w) && request !in w.asked
    ensures Inv(Asked(w, owner, request, targets, body))
  {
    AskKeepsChannel(w, owner, request, targets, body);
    AskKeepsHonest(w, owner, request, targets, body);
    hide Asked, Genuine, Earned, Honest, UnpackAck;
  }

  lemma AskedIsGenuine(c: Command, sorted: seq<int>)
    requires PackCommand(c).Some?
    ensures UnpackCommand(PackCommand(c).value) == Some(c.(targets := SortedSet(c.targets)))
  {
    CommandRoundTrip(c);
  }

  lemma {:induction false} SortedStays(s: seq<int>)
    requires Increasing(s)
    ensures SortedSet(s) == s
  {
    if s != [] {
      SortedStays(s[1..]);
      assert s == [s[0]] + s[1..];
      assert |s| > 1 ==> s[0] < s[1];
    }
  }

  lemma SortTwice(s: seq<int>)
    ensures SortedSet(SortedSet(s)) == SortedSet(s)
  {
    SortedSetFacts(s);
    SortedStays(SortedSet(s));
  }

  lemma RecordKeeps(w: World, w': World, member: nat, a: Ack)
    requires Grown(w, w') && Earned(w', a.request, a.index, a.result)
    requires forall r :: r in w.waiters ==> Honest(w, r, w.waiters[r])
    requires w'.waiters == Recorded(w.waiters, member, a)
    ensures forall r :: r in w'.waiters ==> Honest(w', r, w'.waiters[r])
  {
    forall r | r in w'.waiters ensures Honest(w', r, w'.waiters[r]) {
      HonestGrows(w, w', r, w.waiters[r]);
    }
  }

  lemma ExecuteKeeps(w: World, worker: nat, payload: seq<Byte>, result: seq<Byte>)
    requires Inv(w) && Enabled(w, Execute(worker, payload, result))
    ensures Inv(Executed(w, worker, UnpackCommand(payload).value, result))
  {
    hide UnpackCommand, UnpackAck, PackAck, Recorded;
    var c := UnpackCommand(payload).value;
    var w' := Executed(w, worker, c, result);
    var a := Ack(c.request, worker, result);
    assert Genuine(w, payload);
    assert Earned(w', c.request, worker, result);
    forall r | r in w.results ensures Honest(w', r, w.results[r]) { HonestGrows(w, w', r, w.results[r]); }
    if PackAck(a).Some? {
      PackedAckReadsBack(a);
      RecordKeeps(w, w', worker, a);
    } else {
      forall r | r in w.waiters ensures Honest(w', r, w.waiters[r]) { HonestGrows(w, w', r, w.waiters[r]); }
    }
  }

  lemma PackedAckReadsBack(a: Ack)
    requires PackAck(a).Some?
    ensures UnpackAck(PackAck(a).value) == Some(a)
  {
    AckRoundTrip(a);
  }

  lemma StepKeeps(w: World, a: Action)
    requires Inv(w) && Enabled(w, a)
    ensures Inv(Next(w, a))
  {
    hide UnpackCommand, UnpackAck, Asked, Executed;
    match a
    case Ask(owner, request, targets, body) => AskKeeps(w, owner, request, targets, body);
    case Execute(worker, payload, result) => ExecuteKeeps(w, worker, payload, result);
    case Deliver(member, payload) => DeliverKeeps(w, member, payload);
    case Relay(payload) => RelayKeeps(w, payload);
    case Collect(request) => CollectKeeps(w, request);
  }

  lemma DeliverKeeps(w: World, member: nat, payload: seq<Byte>)
    requires Inv(w) && payload in w.acks
    ensures Inv(Next(w, Deliver(member, payload)))
  {
    hide UnpackCommand, UnpackAck, Recorded;
    var w' := Next(w, Deliver(member, payload));
    RecordKeeps(w, w', member, UnpackAck(payload).value);
    forall r | r in w.results ensures Honest(w', r, w.results[r]) { HonestGrows(w, w', r, w.results[r]); }
  }

  lemma RelayKeeps(w: World, payload: seq<Byte>)
    requires Inv(w) && payload in w.requests
    ensures Inv(Relayed(w, payload))
  {
    hide UnpackCommand, UnpackAck;
    var w' := Relayed(w, payload);
    forall r | r in w.waiters ensures Honest(w', r, w.waiters[r]) { HonestGrows(w, w', r, w.waiters[r]); }
    forall r | r in w.results ensures Honest(w', r, w.results[r]) { HonestGrows(w, w', r, w.results[r]); }
  }

  lemma CollectKeeps(w: World, request: RequestId)
    requires Inv(w) && request in w.waiters
    ensures Inv(Next(w, Collect(request)))
  {
    hide UnpackCommand, UnpackAck;
    var w' := Next(w, Collect(request));
    forall r | r in w.waiters ensures Honest(w', r, w.waiters[r]) { HonestGrows(w, w', r, w.waiters[r]); }
    forall r | r in w.results ensures Honest(w', r, w.results[r]) { HonestGrows(w, w', r, w.results[r]); }
  }

  lemma {:induction false} RunKeeps(w: World, acts: seq<Action>, w': World)
    requires Inv(w) && Run(w, acts, w')
    ensures Inv(w')
    decreases |acts|
  {
    hide Inv, Next, Enabled;
    if acts != [] {
      StepKeeps(w, acts[0]);
      RunKeeps(Next(w, acts[0]), acts[1..], w');
    }
  }

  /** Under any loss, repetition and reordering: the answers and silences of a
      collected command share out its targets, and every answer is one that this
      very worker gave on running this very command. */
  lemma AnswersAreEarned(slots: nat, acts: seq<Action>, w: World, r: RequestId)
    requires Run(Init(slots), acts, w) && r in w.results
    ensures r in w.asked && w.results[r].expected == w.asked[r].targets
    ensures forall t :: t in w.asked[r].targets <==>
              t in Answered(w.asked[r].targets, w.results[r].acks) || t in Missing(w.asked[r].targets, w.results[r].acks)
    ensures forall t :: t in Answered(w.asked[r].targets, w.results[r].acks) ==>
              t !in Missing(w.asked[r].targets, w.results[r].acks) && t in w.results[r].acks
              && Execution(r, t, w.asked[r].body, w.results[r].acks[t]) in w.ran
  {
    hide Inv, Run;
    InvInit(slots);
    RunKeeps(Init(slots), acts, w);
    InvResults(w, r);
    AnsweredOrMissing(w.asked[r].targets, w.results[r].acks);
  }

  lemma InvInit(slots: nat)
    ensures Inv(Init(slots))
  {}

  lemma InvResults(w: World, r: RequestId)
    requires Inv(w) && r in w.results
    ensures Honest(w, r, w.results[r])
  {}
}
