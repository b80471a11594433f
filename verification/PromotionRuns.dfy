/** The other promises of the promotion protocol over whole runs, and the exact
    condition on the channel under which never two processes are primary. */
module PromotionRuns {
  import opened Wrappers
  import opened SupervisorSpec
  import opened Promotion

  // ------------------------------------------------------------------
  // The domino guard
  // ------------------------------------------------------------------

  /** The moments at which the role was granted, this action included. */
  function GrantsAfter(cfg: Config, w: World, a: Action, history: seq<real>): seq<real> {
    match a
    case Pump(now, _) =>
      if w.inbox != [] && w.inbox[0].kind == PromoteFailed
      then Granted(cfg.n, cfg.linked, w.parent, Alive(w), Some(w.inbox[0].index), None, now, history)
      else history
    case Reap(i, promotedAt, _, _) =>
      if w.parent.primary == Some(i) && !w.parent.stopping
      then Granted(cfg.n, cfg.linked, Buried(w.parent, i), Alive(w), Some(i), Some(i), promotedAt, history)
      else history
    case _ => history
  }

  ghost function Grants(cfg: Config, w: World, acts: seq<Action>, w': World, history: seq<real>): seq<real>
    requires Run(cfg, w, acts, w')
    decreases |acts|
  {
    if acts == [] then history
    else Grants(cfg, Next(cfg, w, acts[0]), acts[1..], w', GrantsAfter(cfg, w, acts[0], history))
  }

  lemma PumpKeepsBound(cfg: Config, w: World, now: real, delivered: bool, history: seq<real>)
    requires w.inbox != [] && w.clock <= now
    requires Recent(w.parent, history, w.clock) && Bounded(history)
    ensures var h := GrantsAfter(cfg, w, Pump(now, delivered), history);
            Recent(Pumped(cfg, w, now, delivered).parent, h, now) && Bounded(h)
    ensures Pumped(cfg, w, now, delivered).clock == now
  {
    hide Recent, Bounded, Grant, Granted, Alive, Deliver, Announcement;
    var r := w.inbox[0];
    StillRecent(w.parent, history, w.clock, now);
    GrantKeepsBound(cfg.n, cfg.linked, w.parent, Alive(w), Some(r.index), None, w.clock, now, history);
    RecentSame(w.parent, w.parent.(runOnceDone := true), history, now);
  }

  lemma RecentSame(p: Parent, p': Parent, history: seq<real>, now: real)
    requires Recent(p, history, now) && p'.promotions == p.promotions
    ensures Recent(p', history, now)
  {
    var older :| Expired(older, now) && older + p.promotions == history;
    assert older + p'.promotions == history;
  }

  lemma StepKeepsBound(cfg: Config, w: World, a: Action, history: seq<real>)
    requires Enabled(cfg, w, a) && Recent(w.parent, history, w.clock) && Bounded(history)
    ensures var h := GrantsAfter(cfg, w, a, history);
            Recent(Next(cfg, w, a).parent, h, Next(cfg, w, a).clock) && Bounded(h)
  {
    hide Bounded, Grant, Granted, Alive, Pumped;
    match a {
      case Pump(now, delivered) => PumpKeepsBound(cfg, w, now, delivered, history);
      case Reap(i, promotedAt, now, _) => ReapKeepsBound(cfg, w, i, promotedAt, now, history);
      case Launch(_, now) => StillRecent(w.parent, history, w.clock, now);
      case Respawn(now) => StillRecent(w.parent, history, w.clock, now);
      case _ =>
    }
  }

  lemma ReapKeepsBound(cfg: Config, w: World, i: nat, promotedAt: real, now: real, history: seq<real>)
    requires w.clock <= promotedAt <= now
    requires Recent(w.parent, history, w.clock) && Bounded(history)
    ensures var h := if w.parent.primary == Some(i) && !w.parent.stopping
                     then Granted(cfg.n, cfg.linked, Buried(w.parent, i), Alive(w), Some(i), Some(i), promotedAt, history)
                     else history;
            Recent(Reaped(cfg.n, cfg.linked, w.parent, Alive(w), i, promotedAt, now), h, now) && Bounded(h)
  {
    hide Bounded, Grant, Granted, Alive;
    var gone := Buried(w.parent, i);
    assert Recent(gone, history, w.clock);
    StillRecent(gone, history, w.clock, now);
    if w.parent.primary == Some(i) && !w.parent.stopping {
      GrantKeepsBound(cfg.n, cfg.linked, gone, Alive(w), Some(i), Some(i), w.clock, promotedAt, history);
      var h := Granted(cfg.n, cfg.linked, gone, Alive(w), Some(i), Some(i), promotedAt, history);
      StillRecent(Grant(cfg.n, cfg.linked, gone, Alive(w), Some(i), Some(i), promotedAt), h, promotedAt, now);
    }
  }

  lemma {:induction false} RunKeepsBound(cfg: Config, w: World, acts: seq<Action>, w': World, history: seq<real>)
    requires Run(cfg, w, acts, w') && Recent(w.parent, history, w.clock) && Bounded(history)
    ensures var h := Grants(cfg, w, acts, w', history);
            Recent(w'.parent, h, w'.clock) && Bounded(h)
    decreases |acts|
  {
    hide Recent, Bounded, Enabled, Next, GrantsAfter;
    if acts != [] {
      StepKeepsBound(cfg, w, acts[0], history);
      RunKeepsBound(cfg, Next(cfg, w, acts[0]), acts[1..], w', GrantsAfter(cfg, w, acts[0], history));
    }
  }

  /** In every run no 60 seconds hold more than three promotions, and the list the
      parent keeps is the end of the whole history. */
  lemma PromotionsAreBounded(cfg: Config, acts: seq<Action>, w: World)
    requires Run(cfg, Init(cfg), acts, w)
    ensures var h := Grants(cfg, Init(cfg), acts, w, []);
            Bounded(h) && Recent(w.parent, h, w.clock)
  {
    var none: seq<real> := [];
    assert Expired(none, 0.0) && none + none == none;
    RunKeepsBound(cfg, Init(cfg), acts, w, []);
  }

  // ------------------------------------------------------------------
  // After the guard has tripped
  // ------------------------------------------------------------------

  /** No mailbox grew, and no child was started as primary. */
  ghost predicate NoRoleGiven(w: World, w': World) {
    && |w'.mail| == |w.mail|
    && (forall i :: 0 <= i < |w.mail| ==> |w'.mail[i]| <= |w.mail[i]|)
    && |w.kids| <= |w'.kids|
    && (forall k :: |w.kids| <= k < |w'.kids| ==> w'.kids[k].role.Standby?)
  }

  ghost predicate Tripped(w: World) { w.parent.promotionStopped && w.parent.primary == None }

  /** Once stopped, always stopped: no primary, no offer, no primary start. */
  lemma TrippedStays(cfg: Config, w: World, a: Action)
    requires Tripped(w) && Enabled(cfg, w, a)
    ensures Tripped(Next(cfg, w, a)) && NoRoleGiven(w, Next(cfg, w, a))
  {
    hide Prune, FirstLive, Alive, RespawnDelay, Streak;
  }

  /** After any further run no handle names a primary, and there are no more offers
      to read than there were. */
  lemma {:induction false} TrippedForever(cfg: Config, w: World, acts: seq<Action>, w': World)
    requires Tripped(w) && Run(cfg, w, acts, w')
    ensures Tripped(w') && |w'.mail| == |w.mail|
    ensures forall i :: 0 <= i < |w.mail| ==> |w'.mail[i]| <= |w.mail[i]|
    ensures forall i: nat :: !HandleFor(w'.parent, i).primary
    decreases |acts|
  {
    hide Enabled, Next;
    if acts != [] {
      TrippedStays(cfg, w, acts[0]);
      var w1 := Next(cfg, w, acts[0]);
      TrippedForever(cfg, w1, acts[1..], w');
      forall i | 0 <= i < |w.mail| ensures |w'.mail[i]| <= |w.mail[i]| {
        assert |w'.mail[i]| <= |w1.mail[i]|;
      }
    }
  }

  /** A buried child is rebuilt, whatever became of the role, unless the parent is
      stopping or the child died more than 1024 times in a row. */
  lemma EveryChildIsRebuilt(cfg: Config, w: World, i: nat, promotedAt: real, now: real, later: real, delivered: bool)
    requires Enabled(cfg, w, Reap(i, promotedAt, now, delivered)) && now <= later
    ensures var w1 := Next(cfg, w, Reap(i, promotedAt, now, delivered));
            && (Enabled(cfg, w1, Respawn(later)) <==> !w.parent.stopping && Streak(w.parent, i, now) <= 1024)
            && (Enabled(cfg, w1, Respawn(later)) ==>
                  var w2 := Next(cfg, w1, Respawn(later));
                  && i in w2.parent.children && w2.parent.children[i] == |w.kids|
                  && w2.kids[|w.kids|].alive && w2.kids[|w.kids|].index == i)
  {
    RespawnDelayRange(Streak(w.parent, i, now));
    hide Prune, FirstLive, Alive, Grant, Announcement, Power2;
  }

  // ------------------------------------------------------------------
  // The cluster-wide job runs once
  // ------------------------------------------------------------------

  /** Offers in `w'` that ask for `run_once` were already there in `w`. */
  ghost predicate NoNewRequest(w: World, w': World) {
    |w'.mail| == |w.mail|
    && forall i, m :: 0 <= i < |w'.mail| && m in w'.mail[i] && m.runOnce ==> m in w.mail[i]
  }

  lemma DoneStays(cfg: Config, w: World, a: Action)
    requires w.parent.runOnceDone && Enabled(cfg, w, a)
    ensures Next(cfg, w, a).parent.runOnceDone && NoNewRequest(w, Next(cfg, w, a))
    ensures forall i: nat :: !HandleFor(w.parent, i).runOnceNeeded
  {
    hide Prune, FirstLive, Alive, RespawnDelay, Streak;
  }

  /** After RUN_ONCE_DONE is seen, no start and no offer asks for the job again. */
  lemma {:induction false} RunOnceIsNeverAskedAgain(cfg: Config, w: World, acts: seq<Action>, w': World)
    requires w.parent.runOnceDone && Run(cfg, w, acts, w')
    ensures w'.parent.runOnceDone && NoNewRequest(w, w')
    ensures forall i: nat :: !HandleFor(w'.parent, i).runOnceNeeded
    decreases |acts|
  {
    hide Enabled, Next;
    if acts != [] {
      DoneStays(cfg, w, acts[0]);
      RunOnceIsNeverAskedAgain(cfg, Next(cfg, w, acts[0]), acts[1..], w');
    }
  }

  // ------------------------------------------------------------------
  // The exact condition
  // ------------------------------------------------------------------

  ghost predicate AlwaysSafe(cfg: Config) {
    forall acts, w :: Run(cfg, Init(cfg), acts, w) ==> AtMostOnePrimary(w)
  }

  lemma {:induction false} RunExtend(cfg: Config, w: World, acts: seq<Action>, w': World, a: Action)
    requires Run(cfg, w, acts, w') && Enabled(cfg, w', a)
    ensures Run(cfg, w, acts + [a], Next(cfg, w', a))
    decreases |acts|
  {
    if acts == [] {
      assert acts + [a] == [a] && [a][1..] == [];
    } else {
      assert (acts + [a])[0] == acts[0] && (acts + [a])[1..] == acts[1..] + [a];
      RunExtend(cfg, Next(cfg, w, acts[0]), acts[1..], w', a);
    }
  }

  /** The first process other than `p`. */
  function Another(p: nat): nat { if p == 0 then 1 else 0 }

  ghost predicate Calm(cfg: Config, w: World) {
    && w.inbox == [] && w.respawning.None? && w.clock == 0.0
    && !w.parent.promotionStopped && !w.parent.stopping && !w.parent.runOnceDone
    && |w.mail| == cfg.n
  }

  /** Both processes are up, the primary has just died. */
  ghost predicate FirstDeath(cfg: Config, w: World, p: nat, q: nat) {
    && Calm(cfg, w)
    && w.parent.children == map[p := 0, q := 1] && w.parent.primary == Some(p)
    && w.parent.promotions == [] && w.parent.respawns == map[]
    && w.kids == [Kid(p, false, Primary), Kid(q, true, Standby)]
    && forall i :: 0 <= i < cfg.n ==> w.mail[i] == []
  }

  /** The other process was offered the role and has just died without reading. */
  ghost predicate SecondDeath(cfg: Config, w: World, p: nat, q: nat) {
    && Calm(cfg, w)
    && w.parent.children == map[p := 2, q := 1] && w.parent.primary == Some(q)
    && w.parent.promotions == [0.0] && w.parent.respawns.Keys == {p}
    && w.kids == [Kid(p, false, Primary), Kid(q, false, Standby), Kid(p, true, Standby)]
    && forall i :: 0 <= i < cfg.n ==> w.mail[i] == [Promote(q, true)]
  }

  /** Both are rebuilt; both offers are still unread. */
  ghost predicate TwoOffers(cfg: Config, w: World, p: nat, q: nat) {
    && Calm(cfg, w)
    && |w.kids| == 4 && w.kids[2] == Kid(p, true, Standby) && w.kids[3] == Kid(q, true, Standby)
    && forall i :: 0 <= i < cfg.n ==> w.mail[i] == [Promote(q, true), Promote(p, true)]
  }

  lemma OpeningRun(cfg: Config, p: nat, q: nat) returns (acts: seq<Action>, w: World)
    requires p == cfg.primary && p < cfg.n && q < cfg.n && p != q
    ensures Run(cfg, Init(cfg), acts, w) && FirstDeath(cfg, w, p, q)
  {
    var w0 := Init(cfg);
    var w1 := Next(cfg, w0, Launch(p, 0.0));
    RunExtend(cfg, w0, [], w0, Launch(p, 0.0));
    var w2 := Next(cfg, w1, Launch(q, 0.0));
    RunExtend(cfg, w0, [] + [Launch(p, 0.0)], w1, Launch(q, 0.0));
    w := Next(cfg, w2, Die(0));
    RunExtend(cfg, w0, [] + [Launch(p, 0.0)] + [Launch(q, 0.0)], w2, Die(0));
    acts := [] + [Launch(p, 0.0)] + [Launch(q, 0.0)] + [Die(0)];
  }

  /** Burying primary `i` hands the role to the only other live process, `j`. */
  lemma HandOver(cfg: Config, w: World, i: nat, j: nat)
    requires cfg.linked && !cfg.purge && Calm(cfg, w) && i < cfg.n && j < cfg.n && i != j
    requires i in w.parent.children && j in w.parent.children && w.parent.children.Keys == {i, j}
    requires Alive(w) == {j} && w.parent.primary == Some(i)
    requires w.parent.promotions == [] || w.parent.promotions == [0.0]
    requires i !in w.parent.respawns
    ensures Enabled(cfg, w, Reap(i, 0.0, 0.0, true))
    ensures var w1 := Next(cfg, w, Reap(i, 0.0, 0.0, true));
            && w1.respawning == Some(i) && w1.parent.primary == Some(j)
            && w1.parent.children == w.parent.children - {i}
            && w1.parent.promotions == w.parent.promotions + [0.0]
            && w1.parent.respawns.Keys == w.parent.respawns.Keys + {i}
            && w1 == w.(parent := w1.parent, mail := w1.mail, respawning := Some(i))
            && !w1.parent.promotionStopped && !w1.parent.stopping && !w1.parent.runOnceDone
            && |w1.mail| == cfg.n
            && forall x :: 0 <= x < cfg.n ==> w1.mail[x] == w.mail[x] + [Promote(j, true)]
  {
    FirstLiveIs(cfg.n, w.parent.children - {i}, Alive(w), Some(i), 0);
    var promotions := w.parent.promotions;
    assert Prune(promotions, 0.0) == promotions by { assert promotions != [] ==> promotions[1..] == []; }
    RespawnDelayRange(1);
    hide Alive, FirstLive, Prune, RespawnDelay;
    assert Streak(w.parent, i, 0.0) == 1;
  }

  lemma MiddleRun(cfg: Config, w: World, p: nat, q: nat)
    requires cfg.linked && !cfg.purge && p < cfg.n && q < cfg.n && p != q && FirstDeath(cfg, w, p, q)
    ensures Enabled(cfg, w, Reap(p, 0.0, 0.0, true))
    ensures var w1 := Next(cfg, w, Reap(p, 0.0, 0.0, true));
            Enabled(cfg, w1, Respawn(0.0))
            && var w2 := Next(cfg, w1, Respawn(0.0));
               Enabled(cfg, w2, Die(1)) && SecondDeath(cfg, Next(cfg, w2, Die(1)), p, q)
  {
    assert Alive(w) == {q};
    HandOver(cfg, w, p, q);
    hide Reaping, Alive;
  }

  lemma ClosingRun(cfg: Config, w: World, p: nat, q: nat)
    requires cfg.linked && !cfg.purge && p < cfg.n && q < cfg.n && p != q && SecondDeath(cfg, w, p, q)
    ensures Enabled(cfg, w, Reap(q, 0.0, 0.0, true))
    ensures var w1 := Next(cfg, w, Reap(q, 0.0, 0.0, true));
            Enabled(cfg, w1, Respawn(0.0)) && TwoOffers(cfg, Next(cfg, w1, Respawn(0.0)), p, q)
  {
    assert Alive(w) == {p};
    HandOver(cfg, w, q, p);
    hide Reaping, Alive;
  }

  lemma ReadingRun(cfg: Config, w: World, p: nat, q: nat)
    requires p < cfg.n && q < cfg.n && p != q && TwoOffers(cfg, w, p, q)
    ensures Enabled(cfg, w, Receive(3))
    ensures var w1 := Next(cfg, w, Receive(3));
            Enabled(cfg, w1, Receive(2))
            && var w2 := Next(cfg, w1, Receive(2));
               Enabled(cfg, w2, Receive(2))
               && var w3 := Next(cfg, w2, Receive(2));
                  Claims(w3, 2) && Claims(w3, 3)
  {}

  /** The primary dies; its successor is told, but dies before reading; the role
      goes back to the first process; and the next incarnation of the successor
      reads the old offer. Both take the role. */
  lemma StaleOfferMakesTwo(cfg: Config) returns (acts: seq<Action>, w: World)
    requires Wellformed(cfg) && cfg.n >= 2 && cfg.linked && !cfg.purge
    ensures Run(cfg, Init(cfg), acts, w) && Claims(w, 2) && Claims(w, 3)
  {
    var p, q := cfg.primary, Another(cfg.primary);
    acts, w := OpeningRun(cfg, p, q);
    MiddleRun(cfg, w, p, q);
    acts, w := Continue(cfg, acts, w, Reap(p, 0.0, 0.0, true));
    acts, w := Continue(cfg, acts, w, Respawn(0.0));
    acts, w := Continue(cfg, acts, w, Die(1));
    ClosingRun(cfg, w, p, q);
    acts, w := Continue(cfg, acts, w, Reap(q, 0.0, 0.0, true));
    acts, w := Continue(cfg, acts, w, Respawn(0.0));
    ReadingRun(cfg, w, p, q);
    acts, w := Continue(cfg, acts, w, Receive(3));
    acts, w := Continue(cfg, acts, w, Receive(2));
    acts, w := Continue(cfg, acts, w, Receive(2));
  }

  lemma Continue(cfg: Config, acts: seq<Action>, w: World, a: Action) returns (acts': seq<Action>, w': World)
    requires Run(cfg, Init(cfg), acts, w) && Enabled(cfg, w, a)
    ensures w' == Next(cfg, w, a) && Run(cfg, Init(cfg), acts', w')
  {
    RunExtend(cfg, Init(cfg), acts, w, a);
    acts', w' := acts + [a], Next(cfg, w, a);
  }

  // ------------------------------------------------------------------
  // A child that dies again and again
  // ------------------------------------------------------------------

  /** Process `i` has just been started, and died `n` times in a row before. */
  ghost predicate Rebuilt(w: World, i: nat, n: nat) {
    && w.inbox == [] && w.respawning.None? && !w.parent.stopping
    && i in w.parent.children && w.parent.children[i] < |w.kids|
    && w.kids[w.parent.children[i]].index == i && w.kids[w.parent.children[i]].alive
    && i in w.parent.spawnedAt && w.parent.spawnedAt[i] == w.clock
    && (if n == 0 then i !in w.parent.respawns else i in w.parent.respawns && w.parent.respawns[i] == n)
  }

  /** It dies at once and is buried: its streak grows by one, and up to 1024 it is
      rebuilt after the pause. */
  lemma DiesAgain(cfg: Config, w: World, i: nat, n: nat)
    requires i < cfg.n && Rebuilt(w, i, n)
    ensures var k := w.parent.children[i];
            && Enabled(cfg, w, Die(k))
            && var w1 := Next(cfg, w, Die(k));
               && Enabled(cfg, w1, Reap(i, w.clock, w.clock, false))
               && var w2 := Next(cfg, w1, Reap(i, w.clock, w.clock, false));
                  && i in w2.parent.respawns && w2.parent.respawns[i] == n + 1
                  && w2.inbox == [] && w2.clock == w.clock && i !in w2.parent.children
                  && (w2.parent.stopping <==> n + 1 > 1024)
                  && w2.respawning == if n + 1 > 1024 then None else Some(i)
  {
    RespawnDelayRange(n + 1);
    hide RespawnDelay, Grant, Announcement, Power2;
    var w1 := Next(cfg, w, Die(w.parent.children[i]));
    assert i !in Alive(w1);
    assert Streak(w1.parent, i, w.clock) == n + 1;
  }

  lemma StartsAgain(cfg: Config, w: World, i: nat, n: nat)
    requires i < cfg.n && w.respawning == Some(i) && w.inbox == [] && !w.parent.stopping
    requires i in w.parent.respawns && w.parent.respawns[i] == n && n > 0
    ensures Enabled(cfg, w, Respawn(w.clock + RESPAWN_DELAY_MAX))
    ensures Rebuilt(Next(cfg, w, Respawn(w.clock + RESPAWN_DELAY_MAX)), i, n)
  {}

  lemma {:induction false} DyingRun(cfg: Config, n: nat) returns (acts: seq<Action>, w: World)
    requires Wellformed(cfg) && n <= 1024
    ensures Run(cfg, Init(cfg), acts, w) && Rebuilt(w, cfg.primary, n)
  {
    var i := cfg.primary;
    if n == 0 {
      assert Run(cfg, Init(cfg), [], Init(cfg));
      acts, w := Continue(cfg, [], Init(cfg), Launch(i, 0.0));
    } else {
      acts, w := DyingRun(cfg, n - 1);
      hide Rebuilt, Next, Enabled;
      acts, w := OneDeath(cfg, acts, w, n - 1);
      StartsAgain(cfg, w, i, n);
      acts, w := Continue(cfg, acts, w, Respawn(w.clock + RESPAWN_DELAY_MAX));
    }
  }

  lemma OneDeath(cfg: Config, acts: seq<Action>, w: World, n: nat) returns (acts': seq<Action>, w': World)
    requires Wellformed(cfg) && Run(cfg, Init(cfg), acts, w) && Rebuilt(w, cfg.primary, n)
    ensures Run(cfg, Init(cfg), acts', w')
    ensures cfg.primary in w'.parent.respawns && w'.parent.respawns[cfg.primary] == n + 1 && w'.inbox == []
    ensures w'.parent.stopping <==> n + 1 > 1024
    ensures w'.respawning == if n + 1 > 1024 then None else Some(cfg.primary)
    ensures cfg.primary !in w'.parent.children
  {
    var i := cfg.primary;
    DiesAgain(cfg, w, i, n);
    hide Next, Enabled;
    acts', w' := Continue(cfg, acts, w, Die(w.parent.children[i]));
    acts', w' := Continue(cfg, acts', w', Reap(i, w.clock, w.clock, false));
  }

  /** The 1025th death in a row happens, whatever the number of processes, and is
      the end of the rebuilding and of the supervisor. */
  lemma RebuildingEnds(cfg: Config) returns (acts: seq<Action>, w: World)
    requires Wellformed(cfg)
    ensures Run(cfg, Init(cfg), acts, w) && w.parent.stopping
    ensures cfg.primary in w.parent.respawns && w.parent.respawns[cfg.primary] == 1025
    ensures cfg.primary !in w.parent.children && forall now :: !Enabled(cfg, w, Respawn(now))
  {
    acts, w := DyingRun(cfg, 1024);
    acts, w := OneDeath(cfg, acts, w, 1024);
  }

  /** Nobody was ever offered the role. */
  ghost predicate Quiet(cfg: Config, w: World) {
    && (forall i :: 0 <= i < |w.mail| ==> w.mail[i] == [])
    && (forall k :: 0 <= k < |w.kids| ==> !w.kids[k].role.Taking?)
    && (forall r :: r in w.inbox ==> r.kind != PromoteFailed)
    && (forall i :: i in w.parent.children ==> i < cfg.n)
    && (w.respawning.Some? ==> w.respawning.value < cfg.n)
  }

  /** With one process, or without a control channel, nobody ever is. */
  lemma QuietStays(cfg: Config, w: World, a: Action)
    requires !cfg.linked || cfg.n < 2
    requires Quiet(cfg, w) && Enabled(cfg, w, a)
    ensures CleanStart(cfg, w, a) && Quiet(cfg, Next(cfg, w, a))
  {
    if a.Reap? {
      QuietReap(cfg, w, a.i, a.promotedAt, a.now, a.delivered);
    } else if a.Pump? {
      assert w.inbox[0] in w.inbox;
    }
    hide Reaping, Alive, Reported;
  }

  /** Burying a child tells nobody. */
  lemma QuietReap(cfg: Config, w: World, i: nat, promotedAt: real, now: real, delivered: bool)
    requires !cfg.linked || cfg.n < 2
    requires Quiet(cfg, w) && Enabled(cfg, w, Reap(i, promotedAt, now, delivered))
    ensures Quiet(cfg, Reaping(cfg, w, i, promotedAt, now, delivered))
  {
    NobodyElse(cfg, w, i, promotedAt, delivered);
    BurialShrinks(cfg, w, i, promotedAt, now);
    hide Reaped, ReapAnnouncement, Alive, Reported;
  }

  lemma NobodyElse(cfg: Config, w: World, i: nat, promotedAt: real, delivered: bool)
    requires (!cfg.linked || cfg.n < 2) && i < cfg.n
    ensures ReapAnnouncement(cfg.n, cfg.linked, w.parent, Alive(w), i, promotedAt, delivered) == None
  {
    FirstLiveIs(cfg.n, w.parent.children - {i}, Alive(w), Some(i), 0);
    hide Prune, FirstLive, Alive;
  }

  lemma BurialShrinks(cfg: Config, w: World, i: nat, promotedAt: real, now: real)
    ensures Reaped(cfg.n, cfg.linked, w.parent, Alive(w), i, promotedAt, now).children == w.parent.children - {i}
  {
    hide Prune, FirstLive, Alive, RespawnDelay, Streak;
  }

  lemma {:induction false} QuietRun(cfg: Config, w: World, acts: seq<Action>, w': World)
    requires !cfg.linked || cfg.n < 2
    requires Quiet(cfg, w) && Run(cfg, w, acts, w')
    ensures CleanRun(cfg, w, acts)
    decreases |acts|
  {
    hide Quiet, Enabled, Next, CleanStart;
    if acts != [] {
      QuietStays(cfg, w, acts[0]);
      QuietRun(cfg, Next(cfg, w, acts[0]), acts[1..], w');
    }
  }

  /** Exactly when no run ever has two primaries: a new incarnation must not find
      the offers made to its predecessor, unless there is nobody to share with. */
  lemma NeverTwoExactlyWhenPurged(cfg: Config)
    requires Wellformed(cfg)
    ensures AlwaysSafe(cfg) <==> cfg.purge || !cfg.linked || cfg.n < 2
  {
    if cfg.purge || !cfg.linked || cfg.n < 2 {
      forall acts, w | Run(cfg, Init(cfg), acts, w) ensures AtMostOnePrimary(w) {
        if cfg.purge { PurgeIsClean(cfg, Init(cfg), acts, w); } else { QuietRun(cfg, Init(cfg), acts, w); }
        NeverTwoPrimaries(cfg, acts, w);
      }
    } else {
      var acts, w := StaleOfferMakesTwo(cfg);
      assert Run(cfg, Init(cfg), acts, w) && !AtMostOnePrimary(w);
    }
  }
}
