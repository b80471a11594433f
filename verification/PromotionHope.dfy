/** When the primary role can still be held again, in any state any run can reach:
    an exact condition, and what keeps it from coming true once it is false. */
module PromotionHope {
  import opened Wrappers
  import opened SupervisorSpec
  import opened Promotion

  // ------------------------------------------------------------------
  // The condition
  // ------------------------------------------------------------------

  predicate Holds(w: World, k: nat) { k < |w.kids| && w.kids[k].alive && w.kids[k].role.Primary? }

  /** Some run from here ends with a live child that holds the role. */
  ghost predicate Leads(cfg: Config, w: World) {
    exists acts, w', k :: Run(cfg, w, acts, w') && Holds(w', k)
  }

  /** Process `i` is about to be started, or has never been. */
  predicate Startable(cfg: Config, w: World, i: nat) {
    i < cfg.n && (w.respawning == Some(i) || (i !in w.parent.children && (!w.parent.stopping || w.kids == [])))
  }

  /** Process `i` is dead, not buried yet, and will be rebuilt. */
  predicate Rebuildable(w: World, i: nat) { i in w.parent.children && i !in Alive(w) && !w.parent.stopping }

  /** The parent believes in a process it will start as primary, or whose death it
      will answer with another grant. */
  predicate Due(cfg: Config, w: World) {
    w.parent.primary.Some? && ((cfg.linked && !w.parent.stopping) || Startable(cfg, w, w.parent.primary.value))
  }

  /** A new incarnation will find an offer made to an earlier one. */
  ghost predicate Stale(cfg: Config, w: World, i: nat) {
    !cfg.purge && Pending(w, i) && (Startable(cfg, w, i) || Rebuildable(w, i))
  }

  /** A report of the child of process `q` is read after the `j`-th. */
  ghost predicate Behind(w: World, q: nat, j: nat) {
    exists m :: j < m < |w.inbox| && q in w.parent.children && w.inbox[m].sender == w.parent.children[q]
  }

  /** The `j`-th report is a refusal, and `q` can be alive by the time it is read. */
  ghost predicate Successor(cfg: Config, w: World, j: nat, q: nat) {
    && q < cfg.n && Refusal(w, j) && q != w.inbox[j].index
    && (q in Alive(w) || Startable(cfg, w, q) || (Rebuildable(w, q) && !Behind(w, q, j)))
  }

  /** A refusal will be read while somebody else can take the role. */
  ghost predicate Answerable(cfg: Config, w: World) {
    cfg.linked && !w.parent.promotionStopped && exists j, q :: Successor(cfg, w, j, q)
  }

  ghost predicate Hope(cfg: Config, w: World) {
    || (exists k :: Claims(w, k))
    || Due(cfg, w)
    || (exists i :: Stale(cfg, w, i))
    || Answerable(cfg, w)
  }

  // ------------------------------------------------------------------
  // What every run keeps, offers cleared or not
  // ------------------------------------------------------------------

  ghost predicate Sound(cfg: Config, w: World) {
    && Wellformed(cfg) && Table(cfg, w) && Posted(w)
    && (w.parent.promotionStopped ==> w.parent.primary == None)
    && (w.parent.primary.Some? ==> w.parent.primary.value < cfg.n)
    && (w.kids == [] ==> w.respawning.None?)
  }

  lemma GrantSound(cfg: Config, p: Parent, live: set<nat>, exclude: Option<nat>, reserve: Option<nat>, now: real)
    requires p.promotionStopped ==> p.primary == None
    requires p.primary.Some? ==> p.primary.value < cfg.n
    requires reserve.Some? ==> reserve.value < cfg.n
    ensures var g := Grant(cfg.n, cfg.linked, p, live, exclude, reserve, now);
            && (g.promotionStopped ==> g.primary == None)
            && (g.primary.Some? ==> g.primary.value < cfg.n)
            && g.children == p.children && g.stopping == p.stopping
  {
    FirstLiveIs(cfg.n, p.children, live, exclude, 0);
    hide Prune, FirstLive;
  }

  lemma StartSound(cfg: Config, w: World, i: nat, now: real)
    requires Sound(cfg, w) && i < cfg.n && i !in w.parent.children
    ensures Sound(cfg, Start(cfg, w, i, now))
  {}

  lemma ReapSound(cfg: Config, w: World, i: nat, promotedAt: real, now: real, delivered: bool)
    requires Sound(cfg, w) && Enabled(cfg, w, Reap(i, promotedAt, now, delivered))
    ensures Sound(cfg, Reaping(cfg, w, i, promotedAt, now, delivered))
  {
    var gone := Buried(w.parent, i);
    GrantSound(cfg, gone, Alive(w), Some(i), Some(i), promotedAt);
    hide Grant, Streak, RespawnDelay, ReapAnnouncement;
    var w' := Reaping(cfg, w, i, promotedAt, now, delivered);
    assert w'.parent.children == w.parent.children - {i};
    assert |w'.mail| == |w.mail|;
    forall r | r in w'.inbox
      ensures r.index in w'.parent.children && w'.parent.children[r.index] == r.sender && r.sender < |w'.kids|
    {
      assert r.index != i;
    }
    forall k | 0 <= k < |w'.kids| && w'.kids[k].alive ensures w'.kids[k].index in w'.parent.children {
      assert k == w.parent.children[w.kids[k].index];
      assert w.kids[k].index == i ==> i in Alive(w);
    }
  }

  lemma PumpSound(cfg: Config, w: World, now: real, delivered: bool)
    requires Sound(cfg, w) && w.inbox != []
    ensures Sound(cfg, Pumped(cfg, w, now, delivered))
  {
    GrantSound(cfg, w.parent, Alive(w), Some(w.inbox[0].index), None, now);
    hide Grant, HeardAnnouncement;
  }

  /** Steps of the children and of the channel. */
  lemma ChildSound(cfg: Config, w: World, a: Action)
    requires Sound(cfg, w) && Enabled(cfg, w, a)
    requires !a.Launch? && !a.Respawn? && !a.Pump? && !a.Reap?
    ensures Sound(cfg, Next(cfg, w, a))
  {
    hide Alive, Reported;
  }

  lemma SoundStays(cfg: Config, w: World, a: Action)
    requires Sound(cfg, w) && Enabled(cfg, w, a)
    ensures Sound(cfg, Next(cfg, w, a))
  {
    assert w.respawning.Some? ==> w.respawning.value < cfg.n && w.respawning.value !in w.parent.children;
    hide Sound, Reaping, Pumped, Start, Alive, Reported;
    match a {
      case Launch(i, now) => StartSound(cfg, w, i, now);
      case Respawn(now) => StartSound(cfg, w, w.respawning.value, now);
      case Pump(now, delivered) => PumpSound(cfg, w, now, delivered);
      case Reap(i, promotedAt, now, delivered) => ReapSound(cfg, w, i, promotedAt, now, delivered);
      case _ => ChildSound(cfg, w, a);
    }
  }

  lemma {:induction false} SoundRun(cfg: Config, w: World, acts: seq<Action>, w': World)
    requires Sound(cfg, w) && Run(cfg, w, acts, w')
    ensures Sound(cfg, w')
    decreases |acts|
  {
    hide Sound, Enabled, Next;
    if acts != [] {
      SoundStays(cfg, w, acts[0]);
      SoundRun(cfg, Next(cfg, w, acts[0]), acts[1..], w');
    }
  }

  // ------------------------------------------------------------------
  // Without hope there is none later
  // ------------------------------------------------------------------

  lemma StartGivesNone(cfg: Config, w: World, i: nat, now: real)
    requires Sound(cfg, w) && i !in w.parent.children && Startable(cfg, w, i)
    requires w.respawning.None? || w.respawning == Some(i)
    requires Hope(cfg, Start(cfg, w, i, now))
    ensures Hope(cfg, w)
  {
    var w' := Start(cfg, w, i, now);
    assert forall q :: q != i ==> (q in Alive(w') <==> q in Alive(w));
    assert i in Alive(w');
    assert forall q :: q != i && Startable(cfg, w', q) ==> Startable(cfg, w, q);
    if k: nat :| Claims(w', k) {
      if k < |w.kids| {
        assert w.kids[k].index != i;
        assert Claims(w, k);
      } else if w'.kids[k].role.Standby? {
        assert Pending(w, i) && Stale(cfg, w, i);
      } else {
        assert Due(cfg, w);
      }
    } else if Due(cfg, w') {
      assert Due(cfg, w);
    } else if q: nat :| Stale(cfg, w', q) {
      assert q != i;
      assert Stale(cfg, w, q);
    } else {
      var j: nat, q: nat :| Successor(cfg, w', j, q);
      assert q != i ==> Behind(w, q, j) ==> Behind(w', q, j) by {
        if q != i && Behind(w, q, j) {
          var m :| j < m < |w.inbox| && q in w.parent.children && w.inbox[m].sender == w.parent.children[q];
          assert w'.inbox[m].sender == w'.parent.children[q];
        }
      }
      assert Successor(cfg, w, j, q);
    }
  }

  lemma ReapGivesNone(cfg: Config, w: World, i: nat, promotedAt: real, now: real, delivered: bool)
    requires Sound(cfg, w) && Enabled(cfg, w, Reap(i, promotedAt, now, delivered)) && !Hope(cfg, w)
    ensures !Hope(cfg, Reaping(cfg, w, i, promotedAt, now, delivered))
  {
    var w' := Reaping(cfg, w, i, promotedAt, now, delivered);
    assert w.kids != [] && w'.kids == w.kids && w'.inbox == w.inbox;
    assert !Due(cfg, w);
    UnlinkedReap(cfg, w, i, promotedAt, now, delivered);
    hide RespawnDelay, Streak, Grant, Announcement;
    assert Alive(w') == Alive(w);
    assert forall q :: Startable(cfg, w', q) ==> Startable(cfg, w, q) || (q == i && !w.parent.stopping);
    forall k: nat ensures !Claims(w', k) { assert !Claims(w, k); }
    forall q: nat ensures !Stale(cfg, w', q) {
      assert !Stale(cfg, w, q);
    }
    forall j: nat, q: nat | Answerable(cfg, w') ensures !Successor(cfg, w', j, q) {
      assert !Successor(cfg, w, j, q);
      if Successor(cfg, w', j, q) {
        assert q == i ==> !Behind(w, q, j);
        if q != i { BehindSame(w, w', q, j); }
      }
    }
  }

  lemma BehindSame(w: World, w': World, q: nat, j: nat)
    requires w'.inbox == w.inbox
    requires q in w.parent.children ==> q in w'.parent.children && w'.parent.children[q] == w.parent.children[q]
    ensures Behind(w, q, j) ==> Behind(w', q, j)
  {}

  /** Without hope nothing is granted and nothing offered when a child is buried. */
  lemma UnlinkedReap(cfg: Config, w: World, i: nat, promotedAt: real, now: real, delivered: bool)
    requires Sound(cfg, w) && Enabled(cfg, w, Reap(i, promotedAt, now, delivered)) && !Due(cfg, w)
    ensures var w' := Reaping(cfg, w, i, promotedAt, now, delivered);
            && w'.mail == w.mail && w'.parent.children == w.parent.children - {i}
            && w'.parent.promotionStopped == w.parent.promotionStopped
            && w'.parent.primary == (if w.parent.primary == Some(i) && !w.parent.stopping then None else w.parent.primary)
            && (w.parent.stopping ==> w'.parent.stopping)
            && w'.respawning == (if w'.parent.stopping then None else Some(i))
  {
    hide RespawnDelay, Streak, Prune, FirstLive;
  }

  lemma PumpGivesNone(cfg: Config, w: World, now: real, delivered: bool)
    requires Sound(cfg, w) && Enabled(cfg, w, Pump(now, delivered)) && !Hope(cfg, w)
    ensures !Hope(cfg, Pumped(cfg, w, now, delivered))
  {
    var w' := Pumped(cfg, w, now, delivered);
    NobodyGranted(cfg, w, now, delivered);
    hide Heard, HeardAnnouncement, Deliver;
    ShiftGivesNone(cfg, w, w');
  }

  lemma NobodyGranted(cfg: Config, w: World, now: real, delivered: bool)
    requires Sound(cfg, w) && w.inbox != [] && !Answerable(cfg, w)
    ensures var w' := Pumped(cfg, w, now, delivered);
            && w'.mail == w.mail && w'.parent.children == w.parent.children && w'.parent.stopping == w.parent.stopping
            && (w.parent.promotionStopped ==> w'.parent.promotionStopped)
            && (w'.parent.primary == w.parent.primary || w'.parent.primary == None)
  {
    if w.inbox[0].kind.PromoteFailed? && cfg.linked && !w.parent.promotionStopped { LiveAnswers(cfg, w); }
    hide Prune, FirstLive;
  }

  /** A refusal about to be read is answered if anybody else is alive. */
  lemma LiveAnswers(cfg: Config, w: World)
    requires w.inbox != [] && w.inbox[0].kind.PromoteFailed? && cfg.linked && !w.parent.promotionStopped
    ensures FirstLive(cfg.n, w.parent.children, Alive(w), Some(w.inbox[0].index), 0).Some? ==> Answerable(cfg, w)
  {
    var who := FirstLive(cfg.n, w.parent.children, Alive(w), Some(w.inbox[0].index), 0);
    FirstLiveIs(cfg.n, w.parent.children, Alive(w), Some(w.inbox[0].index), 0);
    hide FirstLive;
    if who.Some? { assert Successor(cfg, w, 0, who.value); }
  }

  /** The oldest report is gone, and the parent knows no more than before. */
  lemma ShiftGivesNone(cfg: Config, w: World, w': World)
    requires !Hope(cfg, w) && w.inbox != [] && w'.inbox == w.inbox[1..]
    requires w'.kids == w.kids && w'.mail == w.mail && w'.respawning == w.respawning
    requires w'.parent.children == w.parent.children && w'.parent.stopping == w.parent.stopping
    requires w.parent.promotionStopped ==> w'.parent.promotionStopped
    requires w'.parent.primary == w.parent.primary || w'.parent.primary == None
    ensures !Hope(cfg, w')
  {
    assert Alive(w') == Alive(w);
    assert forall q :: Startable(cfg, w', q) == Startable(cfg, w, q);
    forall k: nat ensures !Claims(w', k) { assert !Claims(w, k); }
    forall q: nat ensures !Stale(cfg, w', q) { assert !Stale(cfg, w, q); }
    forall j: nat, q: nat | Answerable(cfg, w') ensures !Successor(cfg, w', j, q) {
      assert !Successor(cfg, w, j + 1, q);
      if Behind(w, q, j + 1) {
        var m :| j + 1 < m < |w.inbox| && q in w.parent.children && w.inbox[m].sender == w.parent.children[q];
        assert w'.inbox[m - 1] == w.inbox[m];
        assert Behind(w', q, j);
      }
    }
  }

  /** Less mail, fewer live children, more ordinary reports, or a stop. */
  ghost predicate Dimmer(w: World, w': World) {
    && |w'.mail| == |w.mail| && (forall i :: Pending(w', i) ==> Pending(w, i))
    && |w'.kids| == |w.kids| && w'.respawning == w.respawning
    && (forall k :: 0 <= k < |w.kids| ==>
          w'.kids[k].index == w.kids[k].index && w'.kids[k].role == w.kids[k].role && (w'.kids[k].alive ==> w.kids[k].alive))
    && w'.parent == w.parent.(stopping := w'.parent.stopping) && (w.parent.stopping ==> w'.parent.stopping)
    && w.inbox <= w'.inbox && (forall j: nat :: Refusal(w', j) ==> Refusal(w, j))
  }

  lemma DimmerGivesNone(cfg: Config, w: World, w': World)
    requires Sound(cfg, w) && !Hope(cfg, w) && Dimmer(w, w')
    ensures !Hope(cfg, w')
  {
    assert forall q :: q in Alive(w') ==> q in Alive(w);
    assert forall q :: Startable(cfg, w', q) ==> Startable(cfg, w, q);
    forall k: nat ensures !Claims(w', k) { assert !Claims(w, k); }
    forall q: nat ensures !Stale(cfg, w', q) {
      assert !Stale(cfg, w, q);
      if Pending(w, q) && q in Alive(w) { assert Claims(w, w.parent.children[q]); }
    }
    forall j: nat, q: nat | Answerable(cfg, w') ensures !Successor(cfg, w', j, q) {
      assert !Successor(cfg, w, j, q);
      if Behind(w, q, j) {
        var m :| j < m < |w.inbox| && q in w.parent.children && w.inbox[m].sender == w.parent.children[q];
        assert w'.inbox[m] == w.inbox[m];
        assert Behind(w', q, j);
      }
    }
  }

  /** A child without hope reads no offer of its own, and so has no role to report. */
  lemma ChildDims(cfg: Config, w: World, a: Action)
    requires Sound(cfg, w) && Enabled(cfg, w, a) && forall k :: !Claims(w, k)
    requires a.Receive? || a.Accept? || a.Refuse? || a.Tell? || a.Die? || a.LoseMail? || a.Stop?
    ensures Dimmer(w, Next(cfg, w, a))
  {
    match a
    case Receive(k) =>
      assert !Claims(w, k);
      var m := w.mail[w.kids[k].index][0];
      assert m.target != w.kids[k].index;
      ShorterMail(w, w.kids[k].index);
    case Accept(k) => assert Claims(w, k);
    case Refuse(k) => assert Claims(w, k);
    case LoseMail(i) => ShorterMail(w, i);
    case Tell(k, done) =>
      var w' := Next(cfg, w, a);
      assert forall j: nat :: Refusal(w', j) ==> Refusal(w, j);
    case _ =>
  }

  lemma ShorterMail(w: World, i: nat)
    requires i < |w.mail| && w.mail[i] != []
    ensures forall q :: Pending(w.(mail := w.mail[i := w.mail[i][1..]]), q) ==> Pending(w, q)
  {
    var w' := w.(mail := w.mail[i := w.mail[i][1..]]);
    forall q: nat | Pending(w', q) ensures Pending(w, q) {
      var j :| 0 <= j < |w'.mail[q]| && w'.mail[q][j].target == q;
      if q == i { assert w.mail[q][j + 1].target == q; } else { assert w.mail[q][j].target == q; }
    }
  }

  lemma HopelessStays(cfg: Config, w: World, a: Action)
    requires Sound(cfg, w) && Enabled(cfg, w, a) && !Hope(cfg, w)
    ensures !Hope(cfg, Next(cfg, w, a))
  {
    hide Hope, Dimmer, Reaping, Pumped, Start;
    match a {
      case Launch(i, now) => if Hope(cfg, Start(cfg, w, i, now)) { StartGivesNone(cfg, w, i, now); }
      case Respawn(now) =>
        if Hope(cfg, Start(cfg, w, w.respawning.value, now)) { StartGivesNone(cfg, w, w.respawning.value, now); }
      case Pump(now, delivered) => PumpGivesNone(cfg, w, now, delivered);
      case Reap(i, promotedAt, now, delivered) => ReapGivesNone(cfg, w, i, promotedAt, now, delivered);
      case LoseReport => ShiftGivesNone(cfg, w, Next(cfg, w, a));
      case _ =>
        NobodyClaims(cfg, w);
        ChildDims(cfg, w, a);
        DimmerGivesNone(cfg, w, Next(cfg, w, a));
    }
  }

  lemma NobodyClaims(cfg: Config, w: World)
    requires !Hope(cfg, w)
    ensures forall k :: !Claims(w, k)
  {}

  lemma {:induction false} HopelessForever(cfg: Config, w: World, acts: seq<Action>, w': World)
    requires Sound(cfg, w) && !Hope(cfg, w) && Run(cfg, w, acts, w')
    ensures !Hope(cfg, w')
    decreases |acts|
  {
    hide Sound, Hope, Enabled, Next;
    if acts != [] {
      SoundStays(cfg, w, acts[0]);
      HopelessStays(cfg, w, acts[0]);
      HopelessForever(cfg, Next(cfg, w, acts[0]), acts[1..], w');
    }
  }

  // ------------------------------------------------------------------
  // Each hope can come true
  // ------------------------------------------------------------------

  lemma LeadsStep(cfg: Config, w: World, a: Action)
    requires Enabled(cfg, w, a) && Leads(cfg, Next(cfg, w, a))
    ensures Leads(cfg, w)
  {
    var acts, w', k :| Run(cfg, Next(cfg, w, a), acts, w') && Holds(w', k);
    assert ([a] + acts)[0] == a && ([a] + acts)[1..] == acts;
    assert Run(cfg, w, [a] + acts, w');
  }

  lemma HoldsLeads(cfg: Config, w: World, k: nat)
    requires Holds(w, k)
    ensures Leads(cfg, w)
  {
    assert Run(cfg, w, [], w);
  }

  lemma TakingLeads(cfg: Config, w: World, k: nat)
    requires k < |w.kids| && w.kids[k].alive && w.kids[k].role.Taking?
    ensures Leads(cfg, w)
  {
    HoldsLeads(cfg, Next(cfg, w, Accept(k)), k);
    LeadsStep(cfg, w, Accept(k));
  }

  /** Whoever claims the role can take it: it reads up to its offer and accepts. */
  lemma {:induction false} ClaimLeads(cfg: Config, w: World, k: nat)
    requires Claims(w, k)
    ensures Leads(cfg, w)
    decreases if w.kids[k].role.Standby? && w.kids[k].index < |w.mail| then |w.mail[w.kids[k].index]| else 0
  {
    match w.kids[k].role
    case Primary => HoldsLeads(cfg, w, k);
    case Taking => TakingLeads(cfg, w, k);
    case Standby =>
      var i := w.kids[k].index;
      var j :| 0 <= j < |w.mail[i]| && w.mail[i][j].target == i;
      var w' := Next(cfg, w, Receive(k));
      if w.mail[i][0].target == i {
        TakingLeads(cfg, w', k);
      } else {
        assert w'.mail[i] == w.mail[i][1..] && w'.mail[i][j - 1].target == i;
        assert Pending(w', i) && Claims(w', k);
        ClaimLeads(cfg, w', k);
      }
      LeadsStep(cfg, w, Receive(k));
  }

  /** Starting process `i`, after whoever is being rebuilt. */
  lemma StartLeads(cfg: Config, w: World, i: nat)
    requires Sound(cfg, w) && Startable(cfg, w, i)
    requires w.parent.primary == Some(i) || (!cfg.purge && Pending(w, i))
    ensures Leads(cfg, w)
  {
    if w.respawning == Some(i) {
      StartedClaims(cfg, w, i);
      LeadsStep(cfg, w, Respawn(w.clock));
    } else if w.respawning.Some? {
      var x := w.respawning.value;
      var w' := Next(cfg, w, Respawn(w.clock));
      StartSound(cfg, w, x, w.clock);
      PendingElsewhere(cfg, w, x, i);
      StartLeadsNow(cfg, w', i);
      LeadsStep(cfg, w, Respawn(w.clock));
    } else {
      StartLeadsNow(cfg, w, i);
    }
  }

  lemma StartLeadsNow(cfg: Config, w: World, i: nat)
    requires Sound(cfg, w) && Startable(cfg, w, i) && w.respawning.None?
    requires w.parent.primary == Some(i) || (!cfg.purge && Pending(w, i))
    ensures Leads(cfg, w)
  {
    StartedClaims(cfg, w, i);
    LeadsStep(cfg, w, Launch(i, w.clock));
  }

  lemma StartedClaims(cfg: Config, w: World, i: nat)
    requires w.parent.primary == Some(i) || (!cfg.purge && Pending(w, i))
    ensures Leads(cfg, Start(cfg, w, i, w.clock))
  {
    var w' := Start(cfg, w, i, w.clock);
    if w.parent.primary != Some(i) { assert Pending(w', i); }
    ClaimLeads(cfg, w', |w.kids|);
  }

  lemma PendingElsewhere(cfg: Config, w: World, x: nat, i: nat)
    ensures !cfg.purge && Pending(w, i) ==> Pending(Start(cfg, w, x, w.clock), i)
  {}

  // ------------------------------------------------------------------
  // Burying a child late enough
  // ------------------------------------------------------------------

  lemma {:induction false} LateEnough(promotions: seq<real>, from: real) returns (t: real)
    ensures t >= from && forall now :: now >= t ==> Prune(promotions, now) == []
  {
    if promotions == [] {
      t := from;
    } else {
      t := LateEnough(promotions[1..], from);
      t := if t >= promotions[0] + PROMOTION_WINDOW then t else promotions[0] + PROMOTION_WINDOW;
    }
  }

  /** A moment at which child `i`, buried, is granted or rebuilt without fail. */
  lemma BurialTime(w: World, i: nat) returns (t: real)
    ensures t >= w.clock && Prune(w.parent.promotions, t) == [] && Streak(w.parent, i, t) == 1
  {
    t := LateEnough(w.parent.promotions, w.clock);
    var born := if i in w.parent.spawnedAt then w.parent.spawnedAt[i] else 0.0;
    t := if t >= born + RESPAWN_RESET_AFTER then t else born + RESPAWN_RESET_AFTER;
  }

  /** What a burial at that moment gives. */
  lemma BuriedThen(cfg: Config, w: World, i: nat, t: real, delivered: bool)
    requires Sound(cfg, w) && Rebuildable(w, i) && !Reported(w, i) && w.respawning.None?
    requires t >= w.clock && Prune(w.parent.promotions, t) == [] && Streak(w.parent, i, t) == 1
    ensures Enabled(cfg, w, Reap(i, t, t, delivered))
    ensures var w' := Next(cfg, w, Reap(i, t, t, delivered));
            && Sound(cfg, w') && w'.respawning == Some(i) && !w'.parent.stopping && w'.kids == w.kids && w'.inbox == w.inbox
            && w'.parent.children == w.parent.children - {i}
            && (!delivered ==> w'.mail == w.mail)
            && (!w.parent.promotionStopped ==> !w'.parent.promotionStopped)
            && (w.parent.primary == Some(i) && cfg.linked && delivered ==> Taken(cfg, w', i))
  {
    ReapSound(cfg, w, i, t, t, delivered);
    RespawnDelayRange(1);
    FirstLiveIs(cfg.n, w.parent.children - {i}, Alive(w), Some(i), 0);
    hide Prune, FirstLive, RespawnDelay, Streak, Power2;
    var w' := Next(cfg, w, Reap(i, t, t, delivered));
    if w.parent.primary == Some(i) && cfg.linked && delivered {
      var who := FirstLive(cfg.n, w.parent.children - {i}, Alive(w), Some(i), 0);
      assert w'.parent.primary == if who.Some? then who else Some(i);
      if who.Some? {
        var q := who.value;
        assert w'.mail[q][|w.mail[q]|].target == q;
        assert Pending(w', q) && Claims(w', w.parent.children[q]);
      }
    }
  }

  /** The role has gone to a live child that is told, or is kept for `i`. */
  ghost predicate Taken(cfg: Config, w: World, i: nat) {
    (w.parent.primary == Some(i) && i < cfg.n && w.respawning == Some(i)) || exists k :: Claims(w, k)
  }

  // ------------------------------------------------------------------
  // A primary the parent believes in
  // ------------------------------------------------------------------

  lemma DueLeads(cfg: Config, w: World)
    requires Sound(cfg, w) && Due(cfg, w)
    ensures Leads(cfg, w)
  {
    var p := w.parent.primary.value;
    if Startable(cfg, w, p) {
      StartLeads(cfg, w, p);
    } else if w.respawning.Some? {
      var w' := Next(cfg, w, Respawn(w.clock));
      StartSound(cfg, w, w.respawning.value, w.clock);
      DueSettled(cfg, w');
      LeadsStep(cfg, w, Respawn(w.clock));
    } else {
      DueSettled(cfg, w);
    }
  }

  /** The process the parent believes in is there, and nobody is being rebuilt. */
  ghost predicate Believed(cfg: Config, w: World) {
    && Sound(cfg, w) && cfg.linked && !w.parent.stopping && w.respawning.None?
    && w.parent.primary.Some? && w.parent.primary.value in w.parent.children
  }

  lemma DueSettled(cfg: Config, w: World)
    requires Believed(cfg, w)
    ensures Leads(cfg, w)
  {
    var k := w.parent.children[w.parent.primary.value];
    if Claims(w, k) {
      ClaimLeads(cfg, w, k);
    } else if w.kids[k].alive {
      SoundStays(cfg, w, Die(k));
      DueDead(cfg, Next(cfg, w, Die(k)));
      LeadsStep(cfg, w, Die(k));
    } else {
      DueDead(cfg, w);
    }
  }

  lemma {:induction false} DueDead(cfg: Config, w: World)
    requires Believed(cfg, w) && w.parent.primary.value !in Alive(w)
    ensures Leads(cfg, w)
    decreases |w.inbox|
  {
    var p := w.parent.primary.value;
    if w.inbox != [] {
      SoundStays(cfg, w, LoseReport);
      DueDead(cfg, Next(cfg, w, LoseReport));
      LeadsStep(cfg, w, LoseReport);
    } else {
      var t := BurialTime(w, p);
      BuriedThen(cfg, w, p, t, true);
      hide Reaping;
      var w' := Next(cfg, w, Reap(p, t, t, true));
      if k: nat :| Claims(w', k) { ClaimLeads(cfg, w', k); } else { StartLeads(cfg, w', p); }
      LeadsStep(cfg, w, Reap(p, t, t, true));
    }
  }

  // ------------------------------------------------------------------
  // An offer made to an earlier incarnation
  // ------------------------------------------------------------------

  lemma StaleLeads(cfg: Config, w: World, i: nat)
    requires Sound(cfg, w) && Stale(cfg, w, i)
    ensures Leads(cfg, w)
  {
    if Startable(cfg, w, i) {
      StartLeads(cfg, w, i);
    } else if w.respawning.Some? {
      var x := w.respawning.value;
      StartSound(cfg, w, x, w.clock);
      PendingElsewhere(cfg, w, x, i);
      StaleSettled(cfg, Next(cfg, w, Respawn(w.clock)), i);
      LeadsStep(cfg, w, Respawn(w.clock));
    } else {
      StaleSettled(cfg, w, i);
    }
  }

  lemma {:induction false} StaleSettled(cfg: Config, w: World, i: nat)
    requires Sound(cfg, w) && w.respawning.None? && Rebuildable(w, i) && !cfg.purge && Pending(w, i)
    ensures Leads(cfg, w)
    decreases |w.inbox|
  {
    if w.inbox != [] {
      SoundStays(cfg, w, LoseReport);
      StaleSettled(cfg, Next(cfg, w, LoseReport), i);
      LeadsStep(cfg, w, LoseReport);
    } else {
      var t := BurialTime(w, i);
      BuriedThen(cfg, w, i, t, false);
      hide Reaping;
      StartLeads(cfg, Next(cfg, w, Reap(i, t, t, false)), i);
      LeadsStep(cfg, w, Reap(i, t, t, false));
    }
  }

  // ------------------------------------------------------------------
  // A refusal still to be read
  // ------------------------------------------------------------------

  /** The refusal at `j` can be answered as soon as `q` is alive. */
  ghost predicate Waiting(cfg: Config, w: World, j: nat, q: nat) {
    && Sound(cfg, w) && cfg.linked && !w.parent.promotionStopped && w.respawning.None?
    && q < cfg.n && Refusal(w, j) && q != w.inbox[j].index
  }

  lemma AnswerLeads(cfg: Config, w: World, j: nat, q: nat)
    requires Sound(cfg, w) && cfg.linked && !w.parent.promotionStopped && Successor(cfg, w, j, q)
    ensures Leads(cfg, w)
  {
    if w.respawning.Some? {
      var x := w.respawning.value;
      StartSound(cfg, w, x, w.clock);
      var w' := Next(cfg, w, Respawn(w.clock));
      assert q in Alive(w) || q == x ==> q in Alive(w');
      if Rebuildable(w, q) && !Behind(w, q, j) { BehindSame(w', w, q, j); }
      AnswerSettled(cfg, w', j, q);
      LeadsStep(cfg, w, Respawn(w.clock));
    } else {
      AnswerSettled(cfg, w, j, q);
    }
  }

  lemma AnswerSettled(cfg: Config, w: World, j: nat, q: nat)
    requires Waiting(cfg, w, j, q) && Successor(cfg, w, j, q)
    ensures Leads(cfg, w)
  {
    if q in Alive(w) {
      AnswerNow(cfg, w, j, q);
    } else if Startable(cfg, w, q) {
      StartSound(cfg, w, q, w.clock);
      AnswerNow(cfg, Next(cfg, w, Launch(q, w.clock)), j, q);
      LeadsStep(cfg, w, Launch(q, w.clock));
    } else {
      RebuildThenAnswer(cfg, w, j, q);
    }
  }

  lemma {:induction false} RebuildThenAnswer(cfg: Config, w: World, j: nat, q: nat)
    requires Waiting(cfg, w, j, q) && Rebuildable(w, q) && !Behind(w, q, j)
    ensures Leads(cfg, w)
    decreases j
  {
    if j > 0 {
      SoundStays(cfg, w, LoseReport);
      var w' := Next(cfg, w, LoseReport);
      StillNotBehind(w, w', q, j);
      RebuildThenAnswer(cfg, w', j - 1, q);
      LeadsStep(cfg, w, LoseReport);
    } else {
      NotReported(cfg, w, q);
      var t := BurialTime(w, q);
      BuriedThen(cfg, w, q, t, false);
      hide Reaping;
      var w' := Next(cfg, w, Reap(q, t, t, false));
      StartSound(cfg, w', q, w'.clock);
      AnswerNow(cfg, Next(cfg, w', Respawn(w'.clock)), 0, q);
      LeadsStep(cfg, w', Respawn(w'.clock));
      LeadsStep(cfg, w, Reap(q, t, t, false));
    }
  }

  lemma StillNotBehind(w: World, w': World, q: nat, j: nat)
    requires j > 0 && w.inbox != [] && w' == w.(inbox := w.inbox[1..]) && !Behind(w, q, j)
    ensures !Behind(w', q, j - 1)
  {
    forall m | j - 1 < m < |w'.inbox| && q in w'.parent.children ensures w'.inbox[m].sender != w'.parent.children[q] {
      assert w'.inbox[m] == w.inbox[m + 1];
    }
  }

  lemma NotReported(cfg: Config, w: World, q: nat)
    requires Waiting(cfg, w, 0, q) && q in w.parent.children && !Behind(w, q, 0)
    ensures !Reported(w, q)
  {
    forall r | r in w.inbox ensures r.sender != w.parent.children[q] {
      var m :| 0 <= m < |w.inbox| && w.inbox[m] == r;
      if m == 0 {
        assert w.parent.children[r.index] == r.sender;
        assert w.kids[w.parent.children[q]].index == q && w.kids[r.sender].index == r.index;
      }
    }
  }

  lemma {:induction false} AnswerNow(cfg: Config, w: World, j: nat, q: nat)
    requires Waiting(cfg, w, j, q) && q in Alive(w)
    ensures Leads(cfg, w)
    decreases j
  {
    if j > 0 {
      SoundStays(cfg, w, LoseReport);
      AnswerNow(cfg, Next(cfg, w, LoseReport), j - 1, q);
      LeadsStep(cfg, w, LoseReport);
    } else {
      var t := LateEnough(w.parent.promotions, w.clock);
      FirstLiveIs(cfg.n, w.parent.children, Alive(w), Some(w.inbox[0].index), 0);
      hide Prune, FirstLive;
      var c := FirstLive(cfg.n, w.parent.children, Alive(w), Some(w.inbox[0].index), 0).value;
      var w' := Next(cfg, w, Pump(t, true));
      assert w'.mail[c][|w.mail[c]|].target == c;
      assert Pending(w', c);
      ClaimLeads(cfg, w', w.parent.children[c]);
      LeadsStep(cfg, w, Pump(t, true));
    }
  }

  // ------------------------------------------------------------------
  // The exact condition
  // ------------------------------------------------------------------

  lemma HopeLeads(cfg: Config, w: World)
    requires Sound(cfg, w) && Hope(cfg, w)
    ensures Leads(cfg, w)
  {
    hide Sound, Due, Stale, Successor, Leads, Claims;
    if k: nat :| Claims(w, k) {
      ClaimLeads(cfg, w, k);
    } else if Due(cfg, w) {
      DueLeads(cfg, w);
    } else if i: nat :| Stale(cfg, w, i) {
      StaleLeads(cfg, w, i);
    } else {
      var j: nat, q: nat :| Successor(cfg, w, j, q);
      AnswerLeads(cfg, w, j, q);
    }
  }

  /** In every state of every run: a live child can still come to hold the role
      exactly when one claims it, or the parent believes in a process it will start
      as primary or replace, or a new incarnation will find an old offer, or a
      refusal will be read while somebody else can take over. */
  lemma RoleIsHeldAgainExactlyWhen(cfg: Config, acts: seq<Action>, w: World)
    requires Wellformed(cfg) && Run(cfg, Init(cfg), acts, w)
    ensures Leads(cfg, w) <==> Hope(cfg, w)
  {
    hide Sound, Hope;
    assert Sound(cfg, Init(cfg)) by { SoundInit(cfg); }
    SoundRun(cfg, Init(cfg), acts, w);
    if Hope(cfg, w) {
      HopeLeads(cfg, w);
    } else {
      forall more, w', k: nat | Run(cfg, w, more, w') ensures !Holds(w', k) {
        HopelessForever(cfg, w, more, w');
        NobodyClaims(cfg, w');
        assert !Claims(w', k);
      }
    }
  }

  lemma SoundInit(cfg: Config)
    requires Wellformed(cfg)
    ensures Sound(cfg, Init(cfg))
  {}

  /** With offers cleared at a new start, a role the parent has given up is gone for
      good: no run from there makes any child primary. */
  lemma GivenUpIsForever(cfg: Config, acts: seq<Action>, w: World)
    requires Wellformed(cfg) && cfg.purge && Run(cfg, Init(cfg), acts, w) && w.parent.primary == None
    ensures !Leads(cfg, w)
  {
    PurgeIsClean(cfg, Init(cfg), acts, w);
    InitHolds(cfg);
    RunKeeps(cfg, Init(cfg), acts, w);
    RoleIsHeldAgainExactlyWhen(cfg, acts, w);
    NoneIsHopeless(cfg, w);
  }

  lemma NoneIsHopeless(cfg: Config, w: World)
    requires Inv(cfg, w) && cfg.purge && w.parent.primary == None
    ensures !Hope(cfg, w)
  {
    forall k: nat ensures !Claims(w, k) {}
    forall j: nat ensures !Refusal(w, j) {}
  }

  /** The steps that give the role up: the burial of a primary whose role may not be
      granted again, or a refusal nobody can answer. */
  lemma RoleIsGivenUpExactlyWhen(cfg: Config, w: World, a: Action)
    requires Sound(cfg, w) && Enabled(cfg, w, a) && w.parent.primary.Some?
    ensures Next(cfg, w, a).parent.primary == None <==>
            match a
            case Reap(i, promotedAt, _, _) =>
              w.parent.primary == Some(i) && !w.parent.stopping
              && (!cfg.linked || |Prune(w.parent.promotions, promotedAt)| >= PROMOTION_LIMIT)
            case Pump(now, _) =>
              w.inbox[0].kind.PromoteFailed? && cfg.linked
              && (|Prune(w.parent.promotions, now)| >= PROMOTION_LIMIT
                  || forall q: nat :: q < cfg.n && q in Alive(w) ==> q == w.inbox[0].index)
            case _ => false
  {
    if a.Pump? { FirstLiveIs(cfg.n, w.parent.children, Alive(w), Some(w.inbox[0].index), 0); }
    hide Prune, FirstLive, RespawnDelay, Streak;
  }
}
