/** A reload asked of every worker that serves a listener: the verdict against what
    the workers did (`reload_tls`). */
module ClusterReload {
  import opened Wrappers
  import opened Bytes
  import opened ControlCodec
  import opened TlsMessages
  import C = ClusterCommand
  import H = TlsHandling

  /** What `reload_tls` reports for a collected command. */
  function Report(targets: seq<int>, acks: map<int, seq<Byte>>): ReloadResult {
    C.AnsweredOrMissing(targets, acks);
    Summary(C.Answered(targets, acks), C.Missing(targets, acks), acks)
  }

  /** What reloading a listener gives at a worker, at the k-th step of a run. */
  type Locals = (int, nat, string) -> WorkerResult

  function ServerOf(body: seq<Byte>): string { OrEmpty(DecodeCommand(body)) }

  ghost predicate Executes(a: C.Action, r: C.RequestId, t: int, body: seq<Byte>, reply: seq<Byte>) {
    && a.Execute? && a.worker == t && a.result == reply && UnpackCommand(a.payload).Some?
    && UnpackCommand(a.payload).value.request == r && UnpackCommand(a.payload).value.body == body
  }

  /** Every worker answers a command by what its own reload gave. */
  ghost predicate Obeying(acts: seq<C.Action>, local: Locals) {
    forall k: nat, r, t, body, reply :: k < |acts| && Executes(acts[k], r, t, body, reply) ==>
      Answers(body, local(t, k, ServerOf(body)), reply)
  }

  /** At some step of the run worker `t` ran the command, its own reload of the
      listener named in it succeeded, and `reply` says so. */
  ghost predicate ReloadedInRun(acts: seq<C.Action>, local: Locals, r: C.RequestId, t: int, body: seq<Byte>,
        reply: seq<Byte>)
  {
    exists k: nat :: k < |acts| && Executes(acts[k], r, t, body, reply) && ReloadedAt(local(t, k, ServerOf(body)), body, reply)
  }

  predicate ReloadedAt(local: WorkerResult, body: seq<Byte>, reply: seq<Byte>) {
    DecodeCommand(body).Some? && EncodeResult(local) == Some(reply) && Success(local.outcome)
  }

  /** What is on record as run was run at some step. */
  lemma {:induction false} RanAtSomeStep(w: C.World, acts: seq<C.Action>, w': C.World, e: C.Execution) returns (k: nat)
    requires C.Run(w, acts, w') && e in w'.ran && e !in w.ran
    ensures k < |acts| && Executes(acts[k], e.request, e.index, e.body, e.result)
    decreases |acts|
  {
    hide UnpackCommand;
    var next := C.Next(w, acts[0]);
    if e in next.ran {
      k := 0;
    } else {
      var before := RanAtSomeStep(next, acts[1..], w', e);
      k := before + 1;
    }
  }

  lemma {:induction false} SomebodyIsAsked(w: C.World, acts: seq<C.Action>, w': C.World, r: C.RequestId)
    requires C.Run(w, acts, w') && r in w'.asked
    requires r in w.asked ==> w.asked[r].targets != []
    ensures w'.asked[r].targets != []
    decreases |acts|
  {
    hide PackCommand, UnpackCommand, UnpackAck, PackAck;
    if acts != [] {
      if acts[0].Ask? {
        SortedSetFacts(acts[0].targets);
        assert acts[0].targets[0] in acts[0].targets;
      }
      SomebodyIsAsked(C.Next(w, acts[0]), acts[1..], w', r);
    }
  }

  /** Over every run of the channel with workers that answer by their own reload: the
      cluster's reload counts as succeeded exactly when every target's answer has
      arrived and is one that the target gave on reloading the listener asked for,
      successfully, itself. */
  lemma SuccessIsEarnedByEveryTarget(slots: nat, acts: seq<C.Action>, w: C.World, r: C.RequestId, local: Locals)
    requires C.Run(C.Init(slots), acts, w) && r in w.results && Obeying(acts, local)
    ensures r in w.asked
    ensures var c, acks := w.asked[r], w.results[r].acks;
            Report(c.targets, acks).Succeeded() <==>
              forall t :: t in c.targets ==> t in acks && ReloadedInRun(acts, local, r, t, c.body, acks[t])
  {
    hide DecodeResult, Success, C.Run, C.Answered, C.Missing, ReloadedInRun, Obeying;
    C.AnswersAreEarned(slots, acts, w, r);
    SomebodyIsAsked(C.Init(slots), acts, w, r);
    var c, acks := w.asked[r], w.results[r].acks;
    C.AnsweredOrMissing(c.targets, acks);
    SucceededMeansEveryTarget(c.targets, C.Answered(c.targets, acks), C.Missing(c.targets, acks), acks);
    forall t | t in c.targets && t in acks
      ensures Success(DecodeResult(t, acks[t]).outcome) <==> ReloadedInRun(acts, local, r, t, c.body, acks[t])
    {
      assert t in C.Answered(c.targets, acks);
      AnswerTells(slots, acts, w, r, local, t, acks[t]);
    }
  }

  lemma AnswerTells(slots: nat, acts: seq<C.Action>, w: C.World, r: C.RequestId, local: Locals, t: int,
        reply: seq<Byte>)
    requires C.Run(C.Init(slots), acts, w) && r in w.asked && Obeying(acts, local)
    requires C.Execution(r, t, w.asked[r].body, reply) in w.ran
    ensures Success(DecodeResult(t, reply).outcome) <==> ReloadedInRun(acts, local, r, t, w.asked[r].body, reply)
  {
    hide DecodeResult, C.Run, Executes, Answers;
    var body := w.asked[r].body;
    var k := RanAtSomeStep(C.Init(slots), acts, w, C.Execution(r, t, body, reply));
    SuccessIsOwn(body, local(t, k, ServerOf(body)), reply, t);
    forall j: nat | j < |acts| && Executes(acts[j], r, t, body, reply)
      ensures ReloadedAt(local(t, j, ServerOf(body)), body, reply) ==> Success(DecodeResult(t, reply).outcome)
    {
      SuccessIsOwn(body, local(t, j, ServerOf(body)), reply, t);
    }
  }

  // ------------------------------------------------------------------
  // What a success tells of the listeners
  // ------------------------------------------------------------------

  /** What each worker finds when it handles a command at the k-th step of a run. */
  type Sites = (int, nat) -> H.Site

  function LocalsOf(sites: Sites): Locals { (t: int, k: nat, serverId: string) => H.LocalResult(sites(t, k), serverId) }

  /** Every worker answers by `TlsHandling.Reply`, unless handling raised. */
  ghost predicate Handling(acts: seq<C.Action>, sites: Sites) {
    forall k: nat, r, t, body, reply :: k < |acts| && Executes(acts[k], r, t, body, reply) ==>
      OtherReply(reply) || reply == H.Reply(sites(t, k), body)
  }

  /** At some step worker `t` ran the command, its one active listener of that id
      reloaded, and `reply` is what it answered. */
  ghost predicate ListenerReloaded(
    acts: seq<C.Action>, sites: Sites, r: C.RequestId, t: int, body: seq<Byte>, reply: seq<Byte>, serverId: string)
  {
    exists k: nat :: k < |acts| && Executes(acts[k], r, t, body, reply) && ReloadedThere(sites(t, k), body, reply, serverId)
  }

  /** ... and, if no file of that worker ever comes back, the listener then serves
      what it has just read. */
  ghost predicate ReloadedThere(site: H.Site, body: seq<Byte>, reply: seq<Byte>, serverId: string) {
    && reply == H.Reply(site, body) && H.ReloadsHere(site, serverId)
    && (H.Undisputed(site, serverId) ==> H.ServesWhatItRead(site, serverId))
  }

  lemma HandlingObeys(acts: seq<C.Action>, sites: Sites)
    requires Handling(acts, sites)
    ensures Obeying(acts, LocalsOf(sites))
  {
    hide DecodeCommand, EncodeResult, H.LocalResult, H.Reply, Executes, OtherReply;
    forall k: nat, r, t, body, reply | k < |acts| && Executes(acts[k], r, t, body, reply)
      ensures Answers(body, LocalsOf(sites)(t, k, ServerOf(body)), reply)
    {
      H.ReplyMeans(sites(t, k), body, t);
    }
  }

  lemma ThereIsReloadedAt(site: H.Site, body: seq<Byte>, reply: seq<Byte>, serverId: string)
    requires DecodeCommand(body) == Some(serverId)
    ensures ReloadedAt(H.LocalResult(site, serverId), body, reply) <==> ReloadedThere(site, body, reply, serverId)
  {
    hide DecodeCommand, EncodeResult, H.LocalResult, H.ReloadsHere, H.Undisputed, H.ServesWhatItRead;
    H.LocalResultMeans(site, serverId);
  }

  /** A reload asked for `serverId` has succeeded exactly when every target's answer
      has arrived and is the one it gave when its one active listener of that id
      reloaded or found nothing new and, if no file of its worker ever comes back,
      from then on served what it had just read. */
  lemma ReloadSucceedsExactlyWhen(
    slots: nat, acts: seq<C.Action>, w: C.World, r: C.RequestId, serverId: string, sites: Sites)
    requires C.Run(C.Init(slots), acts, w) && r in w.results && Handling(acts, sites)
    requires r in w.asked && EncodeCommand(serverId) == Some(w.asked[r].body)
    ensures var c, acks := w.asked[r], w.results[r].acks;
            Report(c.targets, acks).Succeeded() <==>
              forall t :: t in c.targets ==> t in acks && ListenerReloaded(acts, sites, r, t, c.body, acks[t], serverId)
  {
    hide DecodeCommand, EncodeCommand, EncodeResult, DecodeResult;
    hide H.LocalResult, H.ReloadsHere, H.ServesWhatItRead, H.Undisputed, H.Reply;
    hide Report, C.Run, Executes, Handling, Obeying, ReloadedAt, ReloadedThere;
    var c, acks := w.asked[r], w.results[r].acks;
    HandlingObeys(acts, sites);
    SuccessIsEarnedByEveryTarget(slots, acts, w, r, LocalsOf(sites));
    CommandIsItsServer(serverId, c.body);
    forall t, reply
      ensures ReloadedInRun(acts, LocalsOf(sites), r, t, c.body, reply) <==>
              ListenerReloaded(acts, sites, r, t, c.body, reply, serverId)
    {
      forall k: nat
        ensures ReloadedAt(LocalsOf(sites)(t, k, ServerOf(c.body)), c.body, reply) <==>
                ReloadedThere(sites(t, k), c.body, reply, serverId)
      {
        ThereIsReloadedAt(sites(t, k), c.body, reply, serverId);
      }
    }
  }

  // ------------------------------------------------------------------
  // Success can be had
  // ------------------------------------------------------------------

  /** Every target's own reload succeeds and can be told. */
  predicate AllReload(targets: seq<int>, local: int -> WorkerResult) {
    forall t :: t in targets ==> EncodeResult(local(t)).Some? && Success(local(t).outcome)
  }

  /** Each execution in `acts` ran `payload` and answered by the worker's reload. */
  ghost predicate AllTold(acts: seq<C.Action>, payload: seq<Byte>, local: int -> WorkerResult) {
    forall k :: 0 <= k < |acts| && acts[k].Execute? ==>
      acts[k].payload == payload && EncodeResult(local(acts[k].worker)) == Some(acts[k].result)
  }

  /** The first `n` targets of command `c`, asked by `owner`, have answered. */
  ghost predicate Collecting(w: C.World, owner: nat, c: Command, payload: seq<Byte>, local: int -> WorkerResult,
        n: nat)
  {
    && UnpackCommand(payload) == Some(c) && payload in w.broadcasts
    && c.request in w.asked && w.asked[c.request] == c
    && c.request in w.waiters
    && var waiter := w.waiters[c.request];
       && waiter.owner == owner && waiter.expected == c.targets
       && (forall t :: t in waiter.acks ==> EncodeResult(local(t)) == Some(waiter.acks[t]))
       && forall i :: 0 <= i < n <= |c.targets| ==> c.targets[i] in waiter.acks
  }

  lemma {:induction false} RunSnoc(w: C.World, acts: seq<C.Action>, w': C.World, a: C.Action)
    requires C.Run(w, acts, w') && C.Enabled(w', a)
    ensures C.Run(w, acts + [a], C.Next(w', a))
    decreases |acts|
  {
    hide C.Next, C.Enabled;
    if acts == [] {
      assert acts + [a] == [a] && [a][1..] == [];
    } else {
      assert (acts + [a])[0] == acts[0] && (acts + [a])[1..] == acts[1..] + [a];
      RunSnoc(C.Next(w, acts[0]), acts[1..], w', a);
    }
  }

  /** A worker asked runs the command, and its answer is on the channel. */
  lemma ExecuteAnswers(
    w: C.World, owner: nat, c: Command, payload: seq<Byte>, local: int -> WorkerResult, n: nat, t: nat, reply: seq<Byte>)
    requires Collecting(w, owner, c, payload, local, n) && t in c.targets && t <= 254
    requires |c.request| == 16 && EncodeResult(local(t)) == Some(reply)
    ensures C.Enabled(w, C.Execute(t, payload, reply)) && PackAck(Ack(c.request, t, reply)).Some?
    ensures var w1 := C.Next(w, C.Execute(t, payload, reply));
            Collecting(w1, owner, c, payload, local, n) && PackAck(Ack(c.request, t, reply)).value in w1.acks
  {
    ResultRoundTrip(local(t), t);
    AckRoundTrip(Ack(c.request, t, reply));
    hide EncodeResult, UnpackCommand, PackAck, UnpackAck;
  }

  /** The answer of the next target reaches the member that asked. */
  lemma DeliverCollects(
    w: C.World, owner: nat, c: Command, payload: seq<Byte>, local: int -> WorkerResult, n: nat, reply: seq<Byte>, bytes: seq<Byte>)
    requires Collecting(w, owner, c, payload, local, n) && n < |c.targets|
    requires EncodeResult(local(c.targets[n])) == Some(reply)
    requires bytes in w.acks && UnpackAck(bytes) == Some(Ack(c.request, c.targets[n], reply))
    ensures C.Enabled(w, C.Deliver(owner, bytes))
    ensures Collecting(C.Next(w, C.Deliver(owner, bytes)), owner, c, payload, local, n + 1)
  {
    hide EncodeResult, UnpackCommand, UnpackAck;
  }

  lemma Asking(slots: nat, owner: nat, c: Command, local: int -> WorkerResult) returns (acts: seq<C.Action>, w: C.World)
    requires CommandPackable(c) && SortedSet(c.targets) == c.targets && c.targets != [] && forall t :: t in c.targets ==> t < slots
    ensures C.Run(C.Init(slots), acts, w) && AllTold(acts, PackCommand(c).value, local)
    ensures Collecting(w, owner, c, PackCommand(c).value, local, 0)
  {
    var payload := PackCommand(c).value;
    var w0 := C.Init(slots);
    CommandRoundTrip(c);
    hide EncodeResult, UnpackCommand, PackCommand, SortedSet, CommandPackable;
    var ask, relay := C.Ask(owner, c.request, c.targets, c.body), C.Relay(payload);
    assert c == Command(c.request, c.targets, c.body);
    assert C.Run(w0, [], w0);
    RunSnoc(w0, [], w0, ask);
    var w1 := C.Next(w0, ask);
    RunSnoc(w0, [] + [ask], w1, relay);
    acts, w := [] + [ask] + [relay], C.Next(w1, relay);
  }

  /** Ask, relay, and let the first `n` targets answer. */
  lemma {:induction false} Answering(slots: nat, owner: nat, c: Command, local: int -> WorkerResult, n: nat)
      returns (acts: seq<C.Action>, w: C.World)
    requires CommandPackable(c) && SortedSet(c.targets) == c.targets && c.targets != [] && n <= |c.targets|
    requires (forall t :: t in c.targets ==> t < slots) && AllReload(c.targets, local)
    ensures C.Run(C.Init(slots), acts, w) && AllTold(acts, PackCommand(c).value, local)
    ensures Collecting(w, owner, c, PackCommand(c).value, local, n)
  {
    var payload := PackCommand(c).value;
    var w0 := C.Init(slots);
    CommandRoundTrip(c);
    hide EncodeResult, UnpackCommand, PackCommand, PackAck, UnpackAck, SortedSet, CommandPackable;
    if n == 0 {
      acts, w := Asking(slots, owner, c, local);
    } else {
      var before, v := Answering(slots, owner, c, local, n - 1);
      InRange(c, n - 1);
      var t := c.targets[n - 1];
      assert t in c.targets;
      var reply := EncodeResult(local(t)).value;
      var execute := C.Execute(t, payload, reply);
      ExecuteAnswers(v, owner, c, payload, local, n - 1, t, reply);
      AckComesBack(c.request, t, reply);
      var bytes := PackAck(Ack(c.request, t, reply)).value;
      DeliverCollects(C.Next(v, execute), owner, c, payload, local, n - 1, reply, bytes);
      hide Collecting, C.Next, C.Enabled, AllReload;
      RunSnoc(w0, before, v, execute);
      var w1 := C.Next(v, execute);
      var deliver := C.Deliver(owner, bytes);
      RunSnoc(w0, before + [execute], w1, deliver);
      acts, w := before + [execute] + [deliver], C.Next(w1, deliver);
    }
  }

  lemma AckComesBack(request: C.RequestId, t: int, reply: seq<Byte>)
    requires PackAck(Ack(request, t, reply)).Some?
    ensures UnpackAck(PackAck(Ack(request, t, reply)).value) == Some(Ack(request, t, reply))
  {
    AckRoundTrip(Ack(request, t, reply));
  }

  lemma InRange(c: Command, i: nat)
    requires CommandPackable(c) && i < |c.targets|
    ensures |c.request| == 16 && 0 <= c.targets[i] <= 254
  {
    assert c.targets[i] in c.targets;
  }

  /** When every target's own reload succeeds there is a run that reports so. */
  lemma SuccessCanBeReported(slots: nat, owner: nat, c: Command,
        local: int -> WorkerResult) returns (acts: seq<C.Action>, w: C.World)
    requires CommandPackable(c) && SortedSet(c.targets) == c.targets && c.targets != []
    requires (forall t :: t in c.targets ==> t < slots) && AllReload(c.targets, local) && DecodeCommand(c.body).Some?
    ensures C.Run(C.Init(slots), acts, w) && c.request in w.results && c.request in w.asked && w.asked[c.request] == c
    ensures Obeying(acts, (t, k, s) => local(t))
    ensures Report(c.targets, w.results[c.request].acks).Succeeded()
  {
    var n := |c.targets|;
    var payload := PackCommand(c).value;
    CommandRoundTrip(c);
    hide EncodeResult, DecodeResult, DecodeCommand, UnpackCommand, PackCommand, PackAck, UnpackAck, SortedSet, CommandPackable;
    var before, v := Answering(slots, owner, c, local, n);
    var collect := C.Collect(c.request);
    RunSnoc(C.Init(slots), before, v, collect);
    acts, w := before + [collect], C.Next(v, collect);
    forall k: nat, r, t, body, reply | k < |acts| && Executes(acts[k], r, t, body, reply)
      ensures Answers(body, local(t), reply)
    {
      assert acts[k] == before[k];
    }
    var acks := w.results[c.request].acks;
    forall t | t in c.targets ensures t in acks && Success(DecodeResult(t, acks[t]).outcome) {
      var i :| 0 <= i < n && c.targets[i] == t;
      ResultRoundTrip(local(t), t);
    }
    C.AnsweredOrMissing(c.targets, acks);
    SucceededMeansEveryTarget(c.targets, C.Answered(c.targets, acks), C.Missing(c.targets, acks), acks);
  }
}
