/** `Supervisor`: the fields the parent updates in place, each method proved to
    take the decision `SupervisorSpec` describes. What the operating system
    answers (`is_alive`, the clock, whether a message got through) is a parameter. */
module Supervision {
  import opened Wrappers
  import opened SupervisorSpec

  class Supervisor {
    /** How many processes the topology names. */
    const processes: nat
    /** Is there a control channel? */
    const linked: bool
    var children: map<nat, nat>
    var primaryId: Option<nat>
    var runOnceDone: bool
    var promotions: seq<real>
    var promotionStopped: bool
    var stopping: bool
    var respawns: map<nat, nat>
    var spawnedAt: map<nat, real>

    constructor (processes: nat, linked: bool, primary: nat)
      ensures this.processes == processes && this.linked == linked
      ensures View() == Boot(primary)
    {
      this.processes, this.linked := processes, linked;
      children, primaryId, runOnceDone, promotions := map[], Some(primary), false, [];
      promotionStopped, stopping, respawns, spawnedAt := false, false, map[], map[];
    }

    ghost function View(): Parent
      reads this
    {
      Parent(children, primaryId, runOnceDone, promotions, promotionStopped, stopping, respawns, spawnedAt)
    }

    /** The list comprehension that forgets old promotions. */
    method PruneList(now: real) returns (recent: seq<real>)
      ensures recent == Prune(promotions, now)
    {
      recent := [];
      for i := 0 to |promotions|
        invariant recent + Prune(promotions[i..], now) == Prune(promotions, now)
      {
        ghost var rest := Prune(promotions[i + 1..], now);
        assert promotions[i..][1..] == promotions[i + 1..];
        assert recent + ([promotions[i]] + rest) == (recent + [promotions[i]]) + rest;
        if now - promotions[i] < PROMOTION_WINDOW {
          recent := recent + [promotions[i]];
        }
      }
    }

    /** The generator that looks for a live worker. */
    method FindLive(live: set<nat>, exclude: Option<nat>) returns (found: Option<nat>)
      ensures found == FirstLive(processes, children, live, exclude, 0)
    {
      for i := 0 to processes
        invariant FirstLive(processes, children, live, exclude, i) == FirstLive(processes, children, live, exclude, 0)
      {
        if exclude != Some(i) && i in children && i in live { return Some(i); }
      }
      return None;
    }

    /** `_promote_someone`. */
    method PromoteSomeone(live: set<nat>, exclude: Option<nat>, restartAsPrimary: Option<nat>, now: real,
          delivered: bool)
      returns (sent: Option<Promote>)
      modifies this`promotions, this`promotionStopped, this`primaryId
      ensures View() == Grant(processes, linked, old(View()), live, exclude, restartAsPrimary, now)
      ensures sent == Announcement(processes, linked, old(View()), live, exclude, restartAsPrimary, now, delivered)
    {
      if !linked || promotionStopped { return None; }
      var recent := PruneList(now);
      promotions := recent;
      if |promotions| >= PROMOTION_LIMIT {
        promotionStopped, primaryId := true, None;
        return None;
      }
      var candidate := FindLive(live, exclude);
      if candidate.None? { candidate := restartAsPrimary; }
      if candidate.None? {
        primaryId := None;
        return None;
      }
      promotions := promotions + [now];
      primaryId := candidate;
      if candidate == restartAsPrimary || !delivered { return None; }
      sent := Some(Promote(candidate.value, !runOnceDone));
    }

    /** `_respawn` up to its pause. The child has exited: `join()` returned. */
    method Reap(live: set<nat>, i: nat, promotedAt: real, now: real, delivered: bool)
      returns (sent: Option<Promote>, pause: Option<real>)
      modifies this
      ensures i !in old(children) ==> unchanged(this) && sent == None && pause == None
      ensures i in old(children) ==>
                && View() == Reaped(processes, linked, old(View()), live, i, promotedAt, now)
                && sent == ReapAnnouncement(processes, linked, old(View()), live, i, promotedAt, delivered)
                && pause == (if old(stopping) then None else RespawnDelay(Streak(old(View()), i, now)))
    {
      sent, pause := None, None;
      if i !in children { return; }
      children := children - {i};
      if stopping { return; }
      if primaryId == Some(i) {
        primaryId := None;
        sent := PromoteSomeone(live, Some(i), Some(i), promotedAt, delivered);
      }
      var streak := CountDeath(i, now);
      pause := RespawnDelay(streak);
      if pause.None? { stopping := true; }
    }

    /** One more death in a row, or the first after a life long enough. */
    method CountDeath(i: nat, now: real) returns (streak: nat)
      modifies this`respawns
      ensures streak >= 1 && streak == Streak(old(View()), i, now)
      ensures respawns == old(respawns)[i := streak]
    {
      var lived := now - (if i in spawnedAt then spawnedAt[i] else 0.0);
      if lived >= RESPAWN_RESET_AFTER { respawns := respawns - {i}; }
      streak := (if i in respawns then respawns[i] else 0) + 1;
      respawns := respawns[i := streak];
      assert respawns == old(respawns)[i := streak];
    }

    /** `_spawn`. */
    method Spawn(i: nat, incarnation: nat, now: real) returns (handle: Handle)
      modifies this`children, this`spawnedAt
      ensures View() == Spawned(old(View()), i, incarnation, now)
      ensures handle == HandleFor(old(View()), i)
    {
      var primary := primaryId == Some(i);
      handle := Handle(primary, primary && !runOnceDone);
      children := children[i := incarnation];
      spawnedAt := spawnedAt[i := now];
    }

    method OnPromoteFailed(live: set<nat>, who: nat, now: real, delivered: bool) returns (sent: Option<Promote>)
      modifies this`promotions, this`promotionStopped, this`primaryId
      ensures View() == Grant(processes, linked, old(View()), live, Some(who), None, now)
      ensures sent == Announcement(processes, linked, old(View()), live, Some(who), None, now, delivered)
    {
      sent := PromoteSomeone(live, Some(who), None, now, delivered);
    }

    /** `_on_control`, the branches for what a child reports. */
    method OnControl(live: set<nat>, kind: Kind, who: nat, now: real, delivered: bool) returns (sent: Option<Promote>)
      modifies this`runOnceDone, this`promotions, this`promotionStopped, this`primaryId
      ensures View() == Heard(processes, linked, old(View()), live, kind, who, now)
      ensures sent == HeardAnnouncement(processes, linked, old(View()), live, kind, who, now, delivered)
    {
      sent := None;
      match kind {
        case RunOnceDone => runOnceDone := true;
        case PromoteFailed => sent := OnPromoteFailed(live, who, now, delivered);
        case _ =>
      }
    }
  }
}
