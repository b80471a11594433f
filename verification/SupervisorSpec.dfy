/** What the parent process decides: whom to promote, whom to rebuild, when to
    stop granting the primary role. A process is its index in the topology, whose
    ids are distinct (`Topology`); an incarnation is one operating-system process. */
module SupervisorSpec {
  import opened Wrappers

  const PROMOTION_LIMIT: nat := 3
  const PROMOTION_WINDOW: real := 60.0
  const RESPAWN_DELAY_MAX: real := 30.0
  const RESPAWN_RESET_AFTER: real := 60.0
  /** `1.0 * 2 ** 1024` is the first product a double cannot hold. */
  const FLOAT_EXPONENTS: nat := 1024

  datatype Parent = Parent(
    children: map<nat, nat>,
    primary: Option<nat>,
    runOnceDone: bool,
    promotions: seq<real>,
    promotionStopped: bool,
    stopping: bool,
    respawns: map<nat, nat>,
    spawnedAt: map<nat, real>)

  /** "From now on you are primary", sent to every child and kept by its target. */
  datatype Promote = Promote(target: nat, runOnce: bool)

  /** What the parent hands to a new child about its role. */
  datatype Handle = Handle(primary: bool, runOnceNeeded: bool)

  function Boot(primary: nat): Parent {
    Parent(map[], Some(primary), false, [], false, false, map[], map[])
  }

  // ------------------------------------------------------------------
  // Promotion
  // ------------------------------------------------------------------

  /** The promotions still inside the window at `now`. */
  function Prune(promotions: seq<real>, now: real): seq<real> {
    if promotions == [] then []
    else (if now - promotions[0] < PROMOTION_WINDOW then [promotions[0]] else []) + Prune(promotions[1..], now)
  }

  /** A live child other than `exclude`, the first in topology order from `i` on. */
  function FirstLive(n: nat, children: map<nat, nat>, live: set<nat>, exclude: Option<nat>, i: nat): Option<nat>
    decreases n - i
  {
    if i >= n then None
    else if exclude != Some(i) && i in children && i in live then Some(i)
    else FirstLive(n, children, live, exclude, i + 1)
  }

  /** Who takes the role: a live child, else the one being rebuilt, else nobody. */
  function Candidate(n: nat, p: Parent, live: set<nat>, exclude: Option<nat>, reserve: Option<nat>): Option<nat> {
    var first := FirstLive(n, p.children, live, exclude, 0);
    if first.Some? then first else reserve
  }

  /** `_promote_someone`, without the message. */
  function Grant(n: nat, linked: bool, p: Parent, live: set<nat>, exclude: Option<nat>, reserve: Option<nat>,
        now: real): Parent
  {
    if !linked || p.promotionStopped then p else
    var recent := Prune(p.promotions, now);
    if |recent| >= PROMOTION_LIMIT then
      p.(promotions := recent, promotionStopped := true, primary := None)
    else
      var who := Candidate(n, p, live, exclude, reserve);
      p.(promotions := if who.None? then recent else recent + [now], primary := who)
  }

  /** The PROMOTE announced by the same call, if the announcement gets through. */
  function Announcement(n: nat, linked: bool, p: Parent, live: set<nat>, exclude: Option<nat>,
        reserve: Option<nat>, now: real, delivered: bool): Option<Promote>
  {
    var who := Candidate(n, p, live, exclude, reserve);
    if linked && !p.promotionStopped && |Prune(p.promotions, now)| < PROMOTION_LIMIT
       && who.Some? && who != reserve && delivered
    then Some(Promote(who.value, !p.runOnceDone))
    else None
  }

  /** What a child reports. */
  datatype Kind = RunOnceDone | Promoted | PromoteFailed | Other

  /** `_on_control` for a report of child `who`. */
  function Heard(n: nat, linked: bool, p: Parent, live: set<nat>, kind: Kind, who: nat, now: real): Parent {
    match kind
    case RunOnceDone => p.(runOnceDone := true)
    case PromoteFailed => Grant(n, linked, p, live, Some(who), None, now)
    case _ => p
  }

  function HeardAnnouncement(
    n: nat, linked: bool, p: Parent, live: set<nat>, kind: Kind, who: nat, now: real, delivered: bool): Option<Promote>
  {
    if kind.PromoteFailed? then Announcement(n, linked, p, live, Some(who), None, now, delivered) else None
  }

  // ------------------------------------------------------------------
  // Rebuilding a dead child
  // ------------------------------------------------------------------

  function Power2(k: nat): nat { if k == 0 then 1 else 2 * Power2(k - 1) }

  /** The pause before rebuild number `streak`, or the overflow Python raises. */
  function RespawnDelay(streak: nat): Option<real>
    requires streak >= 1
  {
    if streak - 1 >= FLOAT_EXPONENTS then None
    else
      var pause := Power2(streak - 1) as real;
      Some(if pause < RESPAWN_DELAY_MAX then pause else RESPAWN_DELAY_MAX)
  }

  /** How many times in a row the child has died, this death included. */
  function Streak(p: Parent, i: nat, now: real): nat {
    var lived := now - (if i in p.spawnedAt then p.spawnedAt[i] else 0.0);
    if lived >= RESPAWN_RESET_AFTER || i !in p.respawns then 1 else p.respawns[i] + 1
  }

  /** The first half of `_respawn`, up to the pause: the child is joined, so it is
      really gone, and only then may its role move. */
  function Buried(p: Parent, i: nat): Parent {
    p.(children := p.children - {i}, primary := if p.primary == Some(i) && !p.stopping then None else p.primary)
  }

  function Reaped(n: nat, linked: bool, p: Parent, live: set<nat>, i: nat, promotedAt: real, now: real): Parent {
    var gone := Buried(p, i);
    if p.stopping then gone else
    var granted := if p.primary == Some(i) then Grant(n, linked, gone, live, Some(i), Some(i), promotedAt) else gone;
    var streak := Streak(p, i, now);
    granted.(respawns := p.respawns[i := streak],
             stopping := RespawnDelay(streak).None?)
  }

  function ReapAnnouncement(n: nat, linked: bool, p: Parent, live: set<nat>, i: nat, promotedAt: real,
        delivered: bool): Option<Promote>
  {
    if p.stopping || p.primary != Some(i) then None
    else Announcement(n, linked, Buried(p, i), live, Some(i), Some(i), promotedAt, delivered)
  }

  /** `_spawn`: the parent, not the configuration, says who is primary. */
  function HandleFor(p: Parent, i: nat): Handle {
    var primary := p.primary == Some(i);
    Handle(primary, primary && !p.runOnceDone)
  }

  function Spawned(p: Parent, i: nat, incarnation: nat, now: real): Parent {
    p.(children := p.children[i := incarnation], spawnedAt := p.spawnedAt[i := now])
  }

  // ------------------------------------------------------------------
  // What one decision guarantees
  // ------------------------------------------------------------------

  lemma {:induction false} FirstLiveIs(n: nat, children: map<nat, nat>, live: set<nat>, exclude: Option<nat>, i: nat)
    ensures match FirstLive(n, children, live, exclude, i)
            case Some(c) => i <= c < n && c in children && c in live && exclude != Some(c)
                            && forall j: nat :: i <= j < c ==> exclude == Some(j) || j !in children || j !in live
            case None => forall j: nat :: i <= j < n ==> exclude == Some(j) || j !in children || j !in live
    decreases n - i
  {
    if i < n && !(exclude != Some(i) && i in children && i in live) {
      FirstLiveIs(n, children, live, exclude, i + 1);
    }
  }

  /** The pause grows by doubling, stays between 1 and 30 seconds, and exists
      exactly for the first 1024 deaths in a row: the promise that no threshold
      stops the rebuilding fails beyond them. */
  lemma RespawnDelayRange(streak: nat)
    requires streak >= 1
    ensures RespawnDelay(streak).Some? <==> streak <= 1024
    ensures RespawnDelay(streak).Some? ==> 1.0 <= RespawnDelay(streak).value <= 30.0
    ensures streak <= 1024 && streak >= 6 ==> RespawnDelay(streak) == Some(30.0)
    ensures streak < 5 ==> RespawnDelay(streak + 1) == Some(2.0 * RespawnDelay(streak).value)
  {
    Power2Grows(0, streak - 1);
    if streak >= 6 { Power2Grows(5, streak - 1); }
    assert Power2(5) == 32 by { assert Power2(3) == 8; }
    if streak < 5 {
      Power2Grows(streak, 4);
      assert Power2(4) == 16;
    }
  }

  lemma {:induction false} Power2Grows(a: nat, b: nat)
    requires a <= b
    ensures Power2(a) <= Power2(b)
    ensures Power2(a) >= 1
    decreases b
  {
    if a > 0 { Power2Grows(a - 1, b - 1); } else if b > 0 { Power2Grows(0, b - 1); }
  }

  // ------------------------------------------------------------------
  // The domino guard over the whole history of promotions
  // ------------------------------------------------------------------

  ghost predicate Sorted(s: seq<real>) {
    forall i, j :: 0 <= i < j < |s| ==> s[i] <= s[j]
  }

  /** Every moment in `s` has left the window at `now`. */
  ghost predicate Expired(s: seq<real>, now: real) {
    forall i :: 0 <= i < |s| ==> now - s[i] >= PROMOTION_WINDOW
  }

  ghost predicate Live(s: seq<real>, now: real) {
    forall i :: 0 <= i < |s| ==> now - s[i] < PROMOTION_WINDOW
  }

  /** `promotions` is the recent end of `history`; the rest left the window. */
  ghost predicate Recent(p: Parent, history: seq<real>, now: real) {
    && Sorted(history)
    && (history != [] ==> history[|history| - 1] <= now)
    && |p.promotions| <= PROMOTION_LIMIT
    && exists older :: Expired(older, now) && older + p.promotions == history
  }

  /** No window of 60 seconds holds more than three promotions. */
  ghost predicate Bounded(history: seq<real>) {
    forall i :: 0 <= i && i + PROMOTION_LIMIT < |history| ==> history[i + PROMOTION_LIMIT] - history[i] >= PROMOTION_WINDOW
  }

  /** Pruning drops exactly the expired moments, which come first. */
  lemma {:induction false} PruneSorted(s: seq<real>, now: real) returns (dropped: seq<real>)
    requires Sorted(s)
    ensures dropped + Prune(s, now) == s
    ensures Expired(dropped, now) && Live(Prune(s, now), now)
    decreases |s|
  {
    if s == [] || now - s[0] < PROMOTION_WINDOW {
      dropped := [];
      PruneLive(s, now);
    } else {
      var more := PruneSorted(s[1..], now);
      dropped := [s[0]] + more;
      assert s == [s[0]] + s[1..];
    }
  }

  lemma {:induction false} PruneLive(s: seq<real>, now: real)
    requires Sorted(s) && (s == [] || now - s[0] < PROMOTION_WINDOW)
    ensures Prune(s, now) == s && Live(s, now)
    decreases |s|
  {
    if |s| > 1 {
      assert s[0] <= s[1];
      PruneLive(s[1..], now);
    }
    assert s != [] ==> s == [s[0]] + s[1..];
  }

  /** The list kept is the history cut to the window at `now`. */
  lemma PruneIsWindow(p: Parent, history: seq<real>, before: real, now: real) returns (older: seq<real>)
    requires Recent(p, history, before) && before <= now
    ensures older + Prune(p.promotions, now) == history
    ensures Expired(older, now) && Live(Prune(p.promotions, now), now)
    ensures |Prune(p.promotions, now)| <= PROMOTION_LIMIT
  {
    hide Prune;
    var old' :| Expired(old', before) && old' + p.promotions == history;
    forall i, j | 0 <= i < j < |p.promotions| ensures p.promotions[i] <= p.promotions[j] {
      assert p.promotions[i] == history[|old'| + i] && p.promotions[j] == history[|old'| + j];
    }
    var dropped := PruneSorted(p.promotions, now);
    older := old' + dropped;
    assert older + Prune(p.promotions, now) == old' + (dropped + Prune(p.promotions, now));
  }

  /** The history after a call: one more entry exactly when the role was granted. */
  function Granted(n: nat, linked: bool, p: Parent, live: set<nat>, exclude: Option<nat>, reserve: Option<nat>,
        now: real, history: seq<real>): seq<real>
  {
    if linked && !p.promotionStopped && |Prune(p.promotions, now)| < PROMOTION_LIMIT
       && Candidate(n, p, live, exclude, reserve).Some?
    then history + [now] else history
  }

  lemma GrantKeepsBound(n: nat, linked: bool, p: Parent, live: set<nat>, exclude: Option<nat>,
        reserve: Option<nat>, before: real, now: real, history: seq<real>)
    requires Recent(p, history, before) && Bounded(history) && before <= now
    ensures var h := Granted(n, linked, p, live, exclude, reserve, now, history);
            Recent(Grant(n, linked, p, live, exclude, reserve, now), h, now) && Bounded(h)
  {
    hide Prune, Candidate;
    var recent := Prune(p.promotions, now);
    var older := PruneIsWindow(p, history, before, now);
    StillRecent(p, history, before, now);
    var h := Granted(n, linked, p, live, exclude, reserve, now, history);
    if h != history {
      Appended(older, recent, now);
      assert (older + recent) + [now] == older + (recent + [now]);
    } else if linked && !p.promotionStopped {
      assert Expired(older, now) && older + recent == history;
    }
  }

  /** Time passing only moves the window on. */
  lemma StillRecent(p: Parent, history: seq<real>, before: real, now: real)
    requires Recent(p, history, before) && before <= now
    ensures Recent(p, history, now)
  {
    var older :| Expired(older, before) && older + p.promotions == history;
    assert Expired(older, now);
  }

  lemma Appended(older: seq<real>, recent: seq<real>, now: real)
    requires Sorted(older + recent) && Bounded(older + recent)
    requires older + recent != [] ==> (older + recent)[|older + recent| - 1] <= now
    requires Expired(older, now) && |recent| < PROMOTION_LIMIT
    ensures Sorted(older + recent + [now]) && Bounded(older + recent + [now])
  {
    var s := older + recent;
    forall i | 0 <= i < |s| ensures s[i] <= now {
      assert i < |s| - 1 ==> s[i] <= s[|s| - 1];
    }
    if |s| >= PROMOTION_LIMIT {
      assert s[|s| - PROMOTION_LIMIT] == older[|s| - PROMOTION_LIMIT];
    }
  }
}
