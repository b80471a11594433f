/** The parent, its children and the control channel as one step system, and the
    claim the protocol exists for: never two primaries. */
module Promotion {
  import opened Wrappers
  import opened SupervisorSpec

  /** `purge`: does a new incarnation start with an empty mailbox? */
  datatype Config = Config(n: nat, primary: nat, linked: bool, purge: bool)

  datatype Role = Standby | Taking | Primary

  datatype Kid = Kid(index: nat, alive: bool, role: Role)

  /** A report on its way to the parent; `sender` is the incarnation. */
  datatype Report = Report(sender: nat, index: nat, kind: Kind)

  datatype World = World(
    parent: Parent,
    kids: seq<Kid>,
    mail: seq<seq<Promote>>,
    inbox: seq<Report>,
    respawning: Option<nat>,
    clock: real)

  datatype Action =
    | Launch(i: nat, now: real)
    | Pump(now: real, delivered: bool)
    | Reap(i: nat, promotedAt: real, now: real, delivered: bool)
    | Respawn(now: real)
    | Receive(k: nat)
    | Accept(k: nat)
    | Refuse(k: nat)
    | Tell(k: nat, runOnceDone: bool)
    | Die(k: nat)
    | LoseReport
    | LoseMail(i: nat)
    | Stop

  ghost predicate Wellformed(cfg: Config) { cfg.primary < cfg.n }

  function Init(cfg: Config): World {
    World(Boot(cfg.primary), [], seq(cfg.n, i => []), [], None, 0.0)
  }

  /** The children `is_alive()` answers for. */
  function Alive(w: World): set<nat> {
    set i | i in w.parent.children && w.parent.children[i] < |w.kids| && w.kids[w.parent.children[i]].alive
  }

  /** The bus keeps one unread mark per index, for every child. */
  function Deliver(mail: seq<seq<Promote>>, sent: Option<Promote>): seq<seq<Promote>> {
    if sent.None? then mail else seq(|mail|, i requires 0 <= i < |mail| => mail[i] + [sent.value])
  }

  function Send(w: World, k: nat, kind: Kind): seq<Report>
    requires k < |w.kids|
  {
    w.inbox + [Report(k, w.kids[k].index, kind)]
  }

  /** A new incarnation of process `i`. */
  function Start(cfg: Config, w: World, i: nat, now: real): World {
    var role := if HandleFor(w.parent, i).primary then Primary else Standby;
    w.(parent := Spawned(w.parent, i, |w.kids|, now),
       kids := w.kids + [Kid(i, true, role)],
       mail := if cfg.purge && i < |w.mail| then w.mail[i := []] else w.mail,
       respawning := None,
       clock := now)
  }

  /** `_watch` reads every report before it buries a child, so none of a buried
      child is left. */
  ghost predicate Reported(w: World, i: nat) {
    exists r :: r in w.inbox && i in w.parent.children && r.sender == w.parent.children[i]
  }

  /** The first launches end at a stop, but for the very first. */
  ghost predicate Enabled(cfg: Config, w: World, a: Action) {
    match a
    case Launch(i, now) =>
      && i < cfg.n && i !in w.parent.children && w.respawning.None? && w.clock <= now
      && (!w.parent.stopping || w.kids == [])
    case Pump(now, _) => w.inbox != [] && w.respawning.None? && w.clock <= now
    case Reap(i, promotedAt, now, _) =>
      && w.respawning.None? && w.clock <= promotedAt <= now
      && i in w.parent.children && i !in Alive(w) && !Reported(w, i)
    case Respawn(now) => w.respawning.Some? && w.clock <= now
    case Receive(k) =>
      && k < |w.kids| && w.kids[k].alive && !w.kids[k].role.Taking?
      && w.kids[k].index < |w.mail| && w.mail[w.kids[k].index] != []
    case Accept(k) => k < |w.kids| && w.kids[k].alive && w.kids[k].role.Taking?
    case Refuse(k) => k < |w.kids| && w.kids[k].alive && w.kids[k].role.Taking?
    case Tell(k, _) => k < |w.kids| && w.kids[k].alive
    case Die(k) => k < |w.kids| && w.kids[k].alive
    case LoseReport => w.inbox != []
    case LoseMail(i) => i < |w.mail| && w.mail[i] != []
    case Stop => true
  }

  /** `_on_control` for the oldest report. */
  function Pumped(cfg: Config, w: World, now: real, delivered: bool): World
    requires w.inbox != []
  {
    var r := w.inbox[0];
    w.(parent := Heard(cfg.n, cfg.linked, w.parent, Alive(w), r.kind, r.index, now),
       mail := Deliver(w.mail, HeardAnnouncement(cfg.n, cfg.linked, w.parent, Alive(w), r.kind, r.index, now, delivered)),
       inbox := w.inbox[1..],
       clock := now)
  }

  function Reaping(cfg: Config, w: World, i: nat, promotedAt: real, now: real, delivered: bool): World {
    var parent := Reaped(cfg.n, cfg.linked, w.parent, Alive(w), i, promotedAt, now);
    var sent := ReapAnnouncement(cfg.n, cfg.linked, w.parent, Alive(w), i, promotedAt, delivered);
    w.(parent := parent,
       mail := Deliver(w.mail, sent),
       respawning := if parent.stopping then None else Some(i),
       clock := now)
  }

  /** `_accept_promotion` reads the oldest message; one for another index, or for
      the process that already is primary, changes nothing. */
  function Received(w: World, k: nat): World
    requires k < |w.kids| && w.kids[k].index < |w.mail| && w.mail[w.kids[k].index] != []
  {
    var kid := w.kids[k];
    var m := w.mail[kid.index][0];
    var read := w.(mail := w.mail[kid.index := w.mail[kid.index][1..]]);
    if m.target == kid.index && kid.role.Standby? then read.(kids := w.kids[k := kid.(role := Taking)]) else read
  }

  function Next(cfg: Config, w: World, a: Action): World
    requires Enabled(cfg, w, a)
  {
    match a
    case Launch(i, now) => Start(cfg, w, i, now)
    case Pump(now, delivered) => Pumped(cfg, w, now, delivered)
    case Reap(i, promotedAt, now, delivered) => Reaping(cfg, w, i, promotedAt, now, delivered)
    case Respawn(now) => Start(cfg, w, w.respawning.value, now)
    case Receive(k) => Received(w, k)
    case Accept(k) => w.(kids := w.kids[k := w.kids[k].(role := Primary)], inbox := Send(w, k, Promoted))
    case Refuse(k) => w.(kids := w.kids[k := w.kids[k].(role := Standby)], inbox := Send(w, k, PromoteFailed))
    case Tell(k, done) => w.(inbox := Send(w, k, if done then RunOnceDone else Other))
    case Die(k) => w.(kids := w.kids[k := w.kids[k].(alive := false)])
    case LoseReport => w.(inbox := w.inbox[1..])
    case LoseMail(i) => w.(mail := w.mail[i := w.mail[i][1..]])
    case Stop => w.(parent := w.parent.(stopping := true))
  }

  ghost predicate Run(cfg: Config, w: World, acts: seq<Action>, w': World)
    decreases |acts|
  {
    if acts == [] then w == w'
    else Enabled(cfg, w, acts[0]) && Run(cfg, Next(cfg, w, acts[0]), acts[1..], w')
  }

  // ------------------------------------------------------------------
  // The claim
  // ------------------------------------------------------------------

  ghost predicate Pending(w: World, i: nat) {
    i < |w.mail| && exists j :: 0 <= j < |w.mail[i]| && w.mail[i][j].target == i
  }

  /** Alive, and holding the role, taking it, or still to read an offer of it. */
  ghost predicate Claims(w: World, k: nat) {
    k < |w.kids| && w.kids[k].alive && (!w.kids[k].role.Standby? || Pending(w, w.kids[k].index))
  }

  ghost predicate AtMostOnePrimary(w: World) {
    forall k: nat, k': nat :: Claims(w, k) && Claims(w, k') ==> k == k'
  }

  /** An incarnation starts with no offer waiting for it. */
  ghost predicate CleanStart(cfg: Config, w: World, a: Action) {
    cfg.purge || match a
                 case Launch(i, _) => !Pending(w, i)
                 case Respawn(_) => w.respawning.Some? ==> !Pending(w, w.respawning.value)
                 case _ => true
  }

  ghost predicate CleanRun(cfg: Config, w: World, acts: seq<Action>)
    decreases |acts|
  {
    acts == [] || (CleanStart(cfg, w, acts[0]) && Enabled(cfg, w, acts[0]) && CleanRun(cfg, Next(cfg, w, acts[0]), acts[1..]))
  }

  // ------------------------------------------------------------------
  // The invariant
  // ------------------------------------------------------------------

  /** The parent's table and the live incarnations describe each other. */
  ghost predicate Table(cfg: Config, w: World) {
    && |w.mail| == cfg.n
    && (forall i :: i in w.parent.children ==>
          i < cfg.n && w.parent.children[i] < |w.kids| && w.kids[w.parent.children[i]].index == i)
    && (forall k :: 0 <= k < |w.kids| && w.kids[k].alive ==>
          w.kids[k].index in w.parent.children && w.parent.children[w.kids[k].index] == k)
    && (w.respawning.Some? ==> w.respawning.value < cfg.n && w.respawning.value !in w.parent.children)
  }

  /** Whoever claims the role is the process the parent believes in. */
  ghost predicate Recognised(w: World) {
    forall k: nat :: Claims(w, k) ==> w.parent.primary == Some(w.kids[k].index)
  }

  /** Reports come from children not yet buried. */
  ghost predicate Posted(w: World) {
    forall r :: r in w.inbox ==>
      r.index in w.parent.children && w.parent.children[r.index] == r.sender && r.sender < |w.kids|
  }

  ghost predicate Refusal(w: World, j: nat) {
    j < |w.inbox| && w.inbox[j].kind == PromoteFailed
  }

  /** A refusal under way is the only one, comes from the process the parent still
      believes in, and nobody claims the role meanwhile. */
  ghost predicate Refused(w: World) {
    && (forall j: nat :: Refusal(w, j) ==> w.parent.primary == Some(w.inbox[j].index))
    && (forall j: nat, j': nat :: Refusal(w, j) && Refusal(w, j') ==> j == j')
    && (forall j: nat, k: nat :: Refusal(w, j) ==> !Claims(w, k))
  }

  /** A live child is offered the role at most once, and never while it has it. */
  ghost predicate Single(w: World) {
    forall k: nat :: k < |w.kids| && w.kids[k].alive && w.kids[k].index < |w.mail| ==>
      OneOffer(w.mail[w.kids[k].index], w.kids[k].index)
      && (!w.kids[k].role.Standby? ==> !Pending(w, w.kids[k].index))
  }

  ghost predicate OneOffer(box: seq<Promote>, i: nat) {
    forall j, j' :: 0 <= j < j' < |box| ==> box[j].target != i || box[j'].target != i
  }

  ghost predicate Inv(cfg: Config, w: World) {
    && Table(cfg, w) && Recognised(w) && Posted(w) && Refused(w) && Single(w)
    && (w.parent.promotionStopped ==> w.parent.primary == None)
  }

  lemma InvGivesClaim(cfg: Config, w: World)
    requires Inv(cfg, w)
    ensures AtMostOnePrimary(w)
  {}

  lemma InitHolds(cfg: Config)
    requires Wellformed(cfg)
    ensures Inv(cfg, Init(cfg))
  {}

  // ------------------------------------------------------------------
  // Steps of the children and of the channel
  // ------------------------------------------------------------------

  /** Nobody claims the role in `w'` who did not claim it in `w`. */
  ghost predicate NoNewClaims(w: World, w': World) {
    forall k: nat :: Claims(w', k) ==> Claims(w, k) && w'.kids[k].index == w.kids[k].index
  }

  /** The refusals of `w'` are refusals of `w`, moved down by `d` places. */
  ghost predicate SameRefusals(w: World, w': World, d: nat) {
    forall j: nat :: Refusal(w', j) ==> Refusal(w, j + d) && w'.inbox[j] == w.inbox[j + d]
  }

  lemma FewerClaims(cfg: Config, w: World, w': World, d: nat)
    requires Inv(cfg, w) && Table(cfg, w') && Posted(w') && Single(w')
    requires w'.parent.primary == w.parent.primary
    requires w'.parent.promotionStopped == w.parent.promotionStopped
    requires NoNewClaims(w, w') && SameRefusals(w, w', d)
    ensures Inv(cfg, w')
  {
    forall j: nat, k: nat | Refusal(w', j) ensures !Claims(w', k) {
      assert Refusal(w, j + d) && !Claims(w, k);
    }
    forall j: nat, j': nat | Refusal(w', j) && Refusal(w', j') ensures j == j' {
      assert Refusal(w, j + d) && Refusal(w, j' + d);
    }
  }

  lemma DieKeeps(cfg: Config, w: World, k: nat)
    requires Inv(cfg, w) && Enabled(cfg, w, Die(k))
    ensures Inv(cfg, Next(cfg, w, Die(k)))
  {
    var w' := Next(cfg, w, Die(k));
    assert forall i: nat :: Pending(w', i) == Pending(w, i);
    FewerClaims(cfg, w, w', 0);
  }

  lemma ChannelLossKeeps(cfg: Config, w: World, a: Action)
    requires Inv(cfg, w) && Enabled(cfg, w, a) && (a.LoseReport? || a.LoseMail? || a.Stop?)
    ensures Inv(cfg, Next(cfg, w, a))
  {
    var w' := Next(cfg, w, a);
    if a.LoseMail? {
      MailShrinks(w, w', a.i);
      FewerClaims(cfg, w, w', 0);
    } else {
      assert forall i: nat :: Pending(w', i) == Pending(w, i);
      FewerClaims(cfg, w, w', if a.LoseReport? then 1 else 0);
    }
  }

  /** Reading or losing the oldest message of a mailbox adds no offer. */
  lemma MailShrinks(w: World, w': World, i: nat)
    requires i < |w.mail| && w.mail[i] != [] && w'.mail == w.mail[i := w.mail[i][1..]]
    ensures forall x: nat :: Pending(w', x) ==> Pending(w, x)
    ensures forall x: nat, t: nat :: x < |w.mail| && OneOffer(w.mail[x], t) ==> OneOffer(w'.mail[x], t)
    ensures OneOffer(w.mail[i], i) && w.mail[i][0].target == i ==> !Pending(w', i)
  {
    forall x: nat | Pending(w', x) ensures Pending(w, x) {
      var j :| 0 <= j < |w'.mail[x]| && w'.mail[x][j].target == x;
      assert w'.mail[x][j] == w.mail[x][if x == i then j + 1 else j];
    }
    forall x: nat, t: nat | x < |w.mail| && OneOffer(w.mail[x], t) ensures OneOffer(w'.mail[x], t) {
      if x == i {
        forall j, j' | 0 <= j < j' < |w'.mail[i]| ensures w'.mail[i][j].target != t || w'.mail[i][j'].target != t {
          assert w'.mail[i][j] == w.mail[i][j + 1] && w'.mail[i][j'] == w.mail[i][j' + 1];
        }
      }
    }
    if OneOffer(w.mail[i], i) && w.mail[i][0].target == i {
      forall j | 0 <= j < |w'.mail[i]| ensures w'.mail[i][j].target != i {
        assert w'.mail[i][j] == w.mail[i][j + 1];
      }
    }
  }

  lemma ReceiveKeeps(cfg: Config, w: World, k: nat)
    requires Inv(cfg, w) && Enabled(cfg, w, Receive(k))
    ensures Inv(cfg, Next(cfg, w, Receive(k)))
  {
    var w' := Next(cfg, w, Receive(k));
    var i := w.kids[k].index;
    MailShrinks(w, w', i);
    if w.mail[i][0].target == i { assert Pending(w, i) && Claims(w, k); }
    hide OneOffer, Pending;
    FewerClaims(cfg, w, w', 0);
  }

  lemma AnswerKeeps(cfg: Config, w: World, a: Action)
    requires Inv(cfg, w) && Enabled(cfg, w, a) && (a.Accept? || a.Tell?)
    ensures Inv(cfg, Next(cfg, w, a))
  {
    var w' := Next(cfg, w, a);
    assert forall i: nat :: Pending(w', i) == Pending(w, i);
    hide OneOffer, Pending;
    FewerClaims(cfg, w, w', 0);
  }

  /** Giving the role up: the one claimant becomes the one refusal. */
  lemma RefuseKeeps(cfg: Config, w: World, k: nat)
    requires Inv(cfg, w) && Enabled(cfg, w, Refuse(k))
    ensures Inv(cfg, Next(cfg, w, Refuse(k)))
  {
    var w' := Next(cfg, w, Refuse(k));
    assert forall i: nat :: Pending(w', i) == Pending(w, i);
    hide OneOffer, Pending;
    assert Claims(w, k);
    forall x: nat ensures !Claims(w', x) {
      assert Claims(w', x) ==> Claims(w, x);
    }
    forall j: nat | j < |w.inbox| ensures !Refusal(w', j) {
      assert w'.inbox[j] == w.inbox[j] && (Refusal(w, j) ==> !Claims(w, k));
    }
  }

  // ------------------------------------------------------------------
  // Steps of the parent
  // ------------------------------------------------------------------

  /** Granting the role when nobody claims it. */
  lemma GrantKeeps(cfg: Config, w: World, w': World, exclude: Option<nat>, reserve: Option<nat>,
        now: real, delivered: bool)
    requires Table(cfg, w) && Single(w)
    requires forall k: nat :: !Claims(w, k)
    requires w.parent.promotionStopped ==> w.parent.primary == None
    requires w'.parent.primary == Grant(cfg.n, cfg.linked, w.parent, Alive(w), exclude, reserve, now).primary
    requires w'.parent.promotionStopped == Grant(cfg.n, cfg.linked, w.parent, Alive(w), exclude, reserve, now).promotionStopped
    requires w'.parent.children == w.parent.children && w'.kids == w.kids
    requires w'.mail == Deliver(w.mail, Announcement(cfg.n, cfg.linked, w.parent, Alive(w), exclude, reserve, now, delivered))
    ensures Recognised(w') && Single(w')
    ensures w'.parent.promotionStopped ==> w'.parent.primary == None
  {
    var sent := Announcement(cfg.n, cfg.linked, w.parent, Alive(w), exclude, reserve, now, delivered);
    hide Prune, FirstLive;
    forall k: nat | k < |w.kids| && w.kids[k].alive
      ensures Pending(w', w.kids[k].index) ==> sent == Some(Promote(w.kids[k].index, !w.parent.runOnceDone))
      ensures w.kids[k].role.Standby? && OneOffer(w'.mail[w.kids[k].index], w.kids[k].index)
    {
      var i := w.kids[k].index;
      assert !Claims(w, k) && !Pending(w, i);
      if sent.Some? { NewOffer(w.mail[i], sent.value, i); }
    }
  }

  lemma NewOffer(box: seq<Promote>, m: Promote, i: nat)
    requires forall j :: 0 <= j < |box| ==> box[j].target != i
    ensures OneOffer(box + [m], i)
    ensures (exists j :: 0 <= j < |box + [m]| && (box + [m])[j].target == i) ==> m.target == i
  {}

  lemma RefusalRead(cfg: Config, w: World, now: real, delivered: bool)
    requires Inv(cfg, w) && Enabled(cfg, w, Pump(now, delivered)) && w.inbox[0].kind == PromoteFailed
    ensures Inv(cfg, Next(cfg, w, Pump(now, delivered)))
  {
    var w' := Next(cfg, w, Pump(now, delivered));
    assert Refusal(w, 0);
    GrantKeeps(cfg, w, w', Some(w.inbox[0].index), None, now, delivered);
    hide Grant, Announcement, Deliver;
    forall j: nat ensures !Refusal(w', j) {
      var older: nat := j + 1;
      assert Refusal(w', j) ==> Refusal(w, older);
    }
  }

  lemma OtherRead(cfg: Config, w: World, now: real, delivered: bool)
    requires Inv(cfg, w) && Enabled(cfg, w, Pump(now, delivered)) && w.inbox[0].kind != PromoteFailed
    ensures Inv(cfg, Next(cfg, w, Pump(now, delivered)))
  {
    var w' := Next(cfg, w, Pump(now, delivered));
    assert forall i: nat :: Pending(w', i) == Pending(w, i);
    hide OneOffer, Pending;
    FewerClaims(cfg, w, w', 1);
  }

  lemma PumpKeeps(cfg: Config, w: World, now: real, delivered: bool)
    requires Inv(cfg, w) && Enabled(cfg, w, Pump(now, delivered))
    ensures Inv(cfg, Next(cfg, w, Pump(now, delivered)))
  {
    if w.inbox[0].kind == PromoteFailed {
      RefusalRead(cfg, w, now, delivered);
    } else {
      OtherRead(cfg, w, now, delivered);
    }
  }

  /** Burying a child touches nobody else, and no report speaks for it any more. */
  lemma BuryKeeps(cfg: Config, w: World, i: nat)
    requires Inv(cfg, w) && i in w.parent.children && i !in Alive(w) && !Reported(w, i)
    requires w.respawning.None?
    ensures var w0 := w.(parent := Buried(w.parent, i));
            Table(cfg, w0) && Posted(w0) && Single(w0)
    ensures w.parent.primary == Some(i) ==> forall k: nat :: !Claims(w, k) && !Refusal(w, k)
  {
    var w0 := w.(parent := Buried(w.parent, i));
    hide OneOffer;
    assert forall x: nat :: Pending(w0, x) == Pending(w, x);
    hide Pending;
    forall k: nat | k < |w.kids| && w.kids[k].alive ensures w.kids[k].index != i {
      assert w.kids[k].index == i ==> i in Alive(w);
    }
    forall r | r in w.inbox ensures r.index != i {
      assert r.index == i ==> Reported(w, i);
    }
    forall k: nat | Refusal(w, k) ensures w.inbox[k].index != i {
      assert w.inbox[k] in w.inbox;
    }
  }

  /** The parent loses a child that was not primary, or is stopping. */
  lemma ReapOtherKeeps(cfg: Config, w: World, i: nat, promotedAt: real, now: real, delivered: bool)
    requires Inv(cfg, w) && Enabled(cfg, w, Reap(i, promotedAt, now, delivered))
    requires w.parent.primary != Some(i) || w.parent.stopping
    ensures Inv(cfg, Reaping(cfg, w, i, promotedAt, now, delivered))
  {
    BuryKeeps(cfg, w, i);
    hide OneOffer, Grant, Announcement, Streak, RespawnDelay;
    var w' := Reaping(cfg, w, i, promotedAt, now, delivered);
    assert w'.mail == w.mail;
    assert forall x: nat :: Pending(w', x) == Pending(w, x);
    assert forall k: nat :: Claims(w', k) == Claims(w, k);
    assert forall j: nat :: Refusal(w', j) == Refusal(w, j);
    assert Single(w');
    hide Pending, Claims, Refusal, Single;
    FewerClaims(cfg, w, w', 0);
  }

  lemma ReapPrimaryKeeps(cfg: Config, w: World, i: nat, promotedAt: real, now: real, delivered: bool)
    requires Inv(cfg, w) && Enabled(cfg, w, Reap(i, promotedAt, now, delivered))
    requires w.parent.primary == Some(i) && !w.parent.stopping
    ensures Inv(cfg, Reaping(cfg, w, i, promotedAt, now, delivered))
  {
    BuryKeeps(cfg, w, i);
    hide OneOffer, Grant, Announcement, Streak, RespawnDelay, Recognised, Single, Deliver;
    var w' := Reaping(cfg, w, i, promotedAt, now, delivered);
    var w0 := w.(parent := Buried(w.parent, i));
    assert Alive(w0) == Alive(w);
    SameClaims(w, w0);
    GrantChildren(cfg, w0, Some(i), Some(i), promotedAt);
    GrantKeeps(cfg, w0, w', Some(i), Some(i), promotedAt, delivered);
    hide Claims, Pending;
    assert forall j: nat :: Refusal(w', j) ==> Refusal(w, j);
    assert Table(cfg, w') by { MailCount(w.mail, ReapAnnouncement(cfg.n, cfg.linked, w.parent, Alive(w), i, promotedAt, delivered)); }
  }

  lemma SameClaims(w: World, w': World)
    requires w'.mail == w.mail && w'.kids == w.kids
    ensures forall k: nat :: Claims(w', k) == Claims(w, k)
  {
    assert forall x: nat :: Pending(w', x) == Pending(w, x);
  }

  lemma MailCount(mail: seq<seq<Promote>>, sent: Option<Promote>)
    ensures |Deliver(mail, sent)| == |mail|
  {}

  lemma GrantChildren(cfg: Config, w: World, exclude: Option<nat>, reserve: Option<nat>, now: real)
    ensures Grant(cfg.n, cfg.linked, w.parent, Alive(w), exclude, reserve, now).children == w.parent.children
  {}

  lemma ReapKeeps(cfg: Config, w: World, i: nat, promotedAt: real, now: real, delivered: bool)
    requires Inv(cfg, w) && Enabled(cfg, w, Reap(i, promotedAt, now, delivered))
    ensures Inv(cfg, Next(cfg, w, Reap(i, promotedAt, now, delivered)))
  {
    hide Inv, Reaping;
    if w.parent.primary == Some(i) && !w.parent.stopping {
      ReapPrimaryKeeps(cfg, w, i, promotedAt, now, delivered);
    } else {
      ReapOtherKeeps(cfg, w, i, promotedAt, now, delivered);
    }
  }

  /** A new incarnation that finds no old offer is primary only if the parent says so. */
  lemma StartKeeps(cfg: Config, w: World, i: nat, now: real)
    requires Inv(cfg, w) && i < cfg.n && i !in w.parent.children
    requires w.respawning.None? || w.respawning == Some(i)
    requires cfg.purge || !Pending(w, i)
    ensures Inv(cfg, Start(cfg, w, i, now))
  {
    var w' := Start(cfg, w, i, now);
    var new_ := |w.kids|;
    assert !Pending(w', i);
    assert forall x: nat :: x != i ==> Pending(w', x) == Pending(w, x);
    assert forall x: nat :: x < |w.mail| && x != i ==> w'.mail[x] == w.mail[x];
    assert OneOffer(w'.mail[i], i);
    hide OneOffer, Pending;
    forall k: nat | k < new_ && w.kids[k].alive ensures w'.kids[k] == w.kids[k] && w.kids[k].index != i {}
    forall j: nat | Refusal(w', j) ensures Refusal(w, j) && w.parent.primary != Some(i) {
      assert w.inbox[j] in w.inbox;
    }
    forall k: nat | Claims(w', k) ensures if k == new_ then w.parent.primary == Some(i) else Claims(w, k) {
      assert k != new_ ==> w'.kids[k] == w.kids[k];
    }
    assert Table(cfg, w');
    assert Posted(w');
    assert Single(w');
    assert Recognised(w');
    assert Refused(w');
  }

  lemma StepKeeps(cfg: Config, w: World, a: Action)
    requires Inv(cfg, w) && Enabled(cfg, w, a) && CleanStart(cfg, w, a)
    ensures Inv(cfg, Next(cfg, w, a))
  {
    hide Inv, Pumped, Reaping, Received, Start;
    match a
    case Launch(i, now) => StartKeeps(cfg, w, i, now);
    case Pump(now, delivered) => PumpKeeps(cfg, w, now, delivered);
    case Reap(i, promotedAt, now, delivered) => ReapKeeps(cfg, w, i, promotedAt, now, delivered);
    case Respawn(now) => RespawnKeeps(cfg, w, now);
    case Receive(k) => ReceiveKeeps(cfg, w, k);
    case Refuse(k) => RefuseKeeps(cfg, w, k);
    case Die(k) => DieKeeps(cfg, w, k);
    case Accept(_) => AnswerKeeps(cfg, w, a);
    case Tell(_, _) => AnswerKeeps(cfg, w, a);
    case _ => ChannelLossKeeps(cfg, w, a);
  }

  lemma RespawnKeeps(cfg: Config, w: World, now: real)
    requires Inv(cfg, w) && Enabled(cfg, w, Respawn(now)) && CleanStart(cfg, w, Respawn(now))
    ensures Inv(cfg, Next(cfg, w, Respawn(now)))
  {
    StartKeeps(cfg, w, w.respawning.value, now);
  }

  lemma {:induction false} RunKeeps(cfg: Config, w: World, acts: seq<Action>, w': World)
    requires Inv(cfg, w) && Run(cfg, w, acts, w') && CleanRun(cfg, w, acts)
    ensures Inv(cfg, w')
    decreases |acts|
  {
    hide Inv, Enabled, CleanStart, Next;
    if acts != [] {
      StepKeeps(cfg, w, acts[0]);
      RunKeeps(cfg, Next(cfg, w, acts[0]), acts[1..], w');
    }
  }

  lemma {:induction false} PurgeIsClean(cfg: Config, w: World, acts: seq<Action>, w': World)
    requires cfg.purge && Run(cfg, w, acts, w')
    ensures CleanRun(cfg, w, acts)
    decreases |acts|
  {
    if acts != [] { PurgeIsClean(cfg, Next(cfg, w, acts[0]), acts[1..], w'); }
  }

  /** Never two primaries: in every state of every run in which a new incarnation
      finds no offer made to its predecessor, at most one live child holds the
      role, is taking it, or has been offered it. */
  lemma NeverTwoPrimaries(cfg: Config, acts: seq<Action>, w: World)
    requires Wellformed(cfg) && Run(cfg, Init(cfg), acts, w) && CleanRun(cfg, Init(cfg), acts)
    ensures AtMostOnePrimary(w)
  {
    InitHolds(cfg);
    RunKeeps(cfg, Init(cfg), acts, w);
    InvGivesClaim(cfg, w);
  }
}
