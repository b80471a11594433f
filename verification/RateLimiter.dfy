/** The one-second windows of `_emit`, and how many records they let through in any
    second (`_grpc_native.py`). */
module RateLimiter {

  datatype Limiter = Limiter(start: real, count: nat)

  /** Whether a record at `now` passes, and the limiter afterwards. */
  function Admit(limit: nat, l: Limiter, now: real): (Limiter, bool) {
    var w := if now - l.start >= 1.0 then Limiter(now, 0) else l;
    if w.count >= limit then (w, false) else (w.(count := w.count + 1), true)
  }

  /** The times of the records let through, oldest first. */
  function Passed(limit: nat, l: Limiter, times: seq<real>): seq<real>
    decreases |times|
  {
    if times == [] then []
    else
      var (after, ok) := Admit(limit, l, times[0]);
      (if ok then [times[0]] else []) + Passed(limit, after, times[1..])
  }

  ghost predicate Rising(times: seq<real>) {
    forall i, j :: 0 <= i < j < |times| ==> times[i] <= times[j]
  }

  /** Two records `2 * limit` apart are more than a second apart. */
  ghost predicate Spaced(limit: nat, p: seq<real>) {
    forall i, j :: 0 <= i && j == i + 2 * limit && j < |p| ==> p[i] + 1.0 < p[j]
  }

  /** The last `count` records are in the current window, the others before it, and
      all but `limit` of those more than a second before its start. */
  ghost predicate Windowed(limit: nat, l: Limiter, p: seq<real>) {
    && l.count <= limit && l.count <= |p|
    && (forall i :: |p| - l.count <= i < |p| ==> l.start <= p[i] < l.start + 1.0)
    && (forall i :: 0 <= i < |p| - l.count ==> p[i] < l.start)
    && (forall i :: 0 <= i < |p| - l.count - limit ==> p[i] < l.start - 1.0)
    && Rising(p) && Spaced(limit, p)
  }

  ghost predicate NotBefore(p: seq<real>, now: real) {
    forall i :: 0 <= i < |p| ==> p[i] <= now
  }

  /** A new window keeps everything said of the old ones. */
  lemma NewWindow(limit: nat, l: Limiter, p: seq<real>, now: real)
    requires Windowed(limit, l, p) && now - l.start >= 1.0
    ensures Windowed(limit, Limiter(now, 0), p)
  {
    hide Spaced, Rising;
    forall i | 0 <= i < |p| ensures p[i] < now {
      assert p[i] < l.start + 1.0;
    }
  }

  lemma OneMore(limit: nat, l: Limiter, p: seq<real>, now: real)
    requires Windowed(limit, l, p) && l.count < limit && l.start <= now < l.start + 1.0 && NotBefore(p, now)
    ensures Windowed(limit, l.(count := l.count + 1), p + [now])
  {
    var q := p + [now];
    forall i, j | 0 <= i && j == i + 2 * limit && j < |q| ensures q[i] + 1.0 < q[j] {
      if j == |p| {
        assert p[i] < l.start - 1.0;
      } else {
        assert q[i] == p[i] && q[j] == p[j];
      }
    }
  }

  lemma AdmitKeeps(limit: nat, l: Limiter, p: seq<real>, now: real)
    requires limit > 0 && Windowed(limit, l, p) && NotBefore(p, now) && l.start <= now
    ensures var (after, ok) := Admit(limit, l, now);
            Windowed(limit, after, if ok then p + [now] else p) && after.start <= now
  {
    hide Windowed;
    if now - l.start >= 1.0 {
      NewWindow(limit, l, p, now);
      OneMore(limit, Limiter(now, 0), p, now);
    } else if l.count < limit {
      OneMore(limit, l, p, now);
    }
  }

  lemma {:induction false} PassedWindowed(limit: nat, l: Limiter, p: seq<real>, times: seq<real>)
    requires limit > 0 && Windowed(limit, l, p) && Rising(times)
    requires times != [] ==> l.start <= times[0] && NotBefore(p, times[0])
    ensures Rising(p + Passed(limit, l, times)) && Spaced(limit, p + Passed(limit, l, times))
    decreases |times|
  {
    hide Windowed, Spaced, Admit;
    if times == [] {
      assert p + Passed(limit, l, times) == p;
      WindowedFacts(limit, l, p);
    } else {
      var now := times[0];
      AdmitKeeps(limit, l, p, now);
      var (after, ok) := Admit(limit, l, now);
      var q := if ok then p + [now] else p;
      PassedWindowed(limit, after, q, times[1..]);
      assert p + Passed(limit, l, times) == q + Passed(limit, after, times[1..]);
    }
  }

  lemma WindowedFacts(limit: nat, l: Limiter, p: seq<real>)
    requires Windowed(limit, l, p)
    ensures Rising(p) && Spaced(limit, p)
  {}

  /** How many of the times lie in the closed second that begins at `t`. */
  function Within(p: seq<real>, t: real): nat {
    if p == [] then 0 else (if t <= p[0] <= t + 1.0 then 1 else 0) + Within(p[1..], t)
  }

  lemma {:induction false} LateOnes(p: seq<real>, t: real)
    requires forall i :: 0 <= i < |p| ==> p[i] > t + 1.0
    ensures Within(p, t) == 0
  {
    if p != [] { LateOnes(p[1..], t); }
  }

  lemma {:induction false} AtMostAll(p: seq<real>, t: real, n: nat)
    requires forall i :: n <= i < |p| ==> p[i] > t + 1.0
    ensures Within(p, t) <= n
  {
    if p != [] {
      if n == 0 { LateOnes(p, t); } else { AtMostAll(p[1..], t, n - 1); }
    }
  }

  lemma {:induction false} SpacedCount(limit: nat, p: seq<real>, t: real)
    requires Rising(p) && Spaced(limit, p)
    ensures Within(p, t) <= 2 * limit
  {
    if p != [] {
      if p[0] < t {
        RestOf(limit, p);
        SpacedCount(limit, p[1..], t);
      } else {
        forall i | 2 * limit <= i < |p| ensures p[i] > t + 1.0 {
          assert p[0] + 1.0 < p[0 + 2 * limit];
          assert i > 2 * limit ==> p[2 * limit] <= p[i];
        }
        AtMostAll(p, t, 2 * limit);
      }
    }
  }

  lemma RestOf(limit: nat, p: seq<real>)
    requires p != [] && Rising(p) && Spaced(limit, p)
    ensures Rising(p[1..]) && Spaced(limit, p[1..])
  {
    var rest := p[1..];
    forall i, j | 0 <= i && j == i + 2 * limit && j < |rest| ensures rest[i] + 1.0 < rest[j] {
      assert p[i + 1] + 1.0 < p[j + 1];
    }
  }

  /** No second, wherever it begins, lets more than twice the limit through. */
  lemma AtMostTwiceTheLimit(limit: nat, start: real, times: seq<real>, t: real)
    requires limit > 0 && Rising(times) && (times != [] ==> start <= times[0])
    ensures Within(Passed(limit, Limiter(start, 0), times), t) <= 2 * limit
  {
    PassedWindowed(limit, Limiter(start, 0), [], times);
    var p := Passed(limit, Limiter(start, 0), times);
    assert [] + p == p;
    SpacedCount(limit, p, t);
  }

  // ------------------------------------------------------------------
  // Twice the limit does happen
  // ------------------------------------------------------------------

  function Same(now: real, n: nat): (r: seq<real>)
    ensures |r| == n && forall i :: 0 <= i < n ==> r[i] == now
  {
    if n == 0 then [] else [now] + Same(now, n - 1)
  }

  lemma {:induction false} BurstPasses(limit: nat, l: Limiter, now: real, n: nat, rest: seq<real>)
    requires l.count + n <= limit && now - l.start < 1.0
    ensures Passed(limit, l, Same(now, n) + rest) == Same(now, n) + Passed(limit, l.(count := l.count + n), rest)
    decreases n
  {
    if n == 0 {
      assert Same(now, n) + rest == rest;
    } else {
      var times := Same(now, n) + rest;
      assert times[1..] == Same(now, n - 1) + rest;
      var after := l.(count := l.count + 1);
      assert Admit(limit, l, now) == (after, true);
      BurstPasses(limit, after, now, n - 1, rest);
      assert [now] + (Same(now, n - 1) + Passed(limit, l.(count := l.count + n), rest))
          == Same(now, n) + Passed(limit, l.(count := l.count + n), rest);
    }
  }

  lemma {:induction false} AllWithin(p: seq<real>, t: real)
    requires forall i :: 0 <= i < |p| ==> t <= p[i] <= t + 1.0
    ensures Within(p, t) == |p|
  {
    if p != [] { AllWithin(p[1..], t); }
  }

  /** A burst at the end of one window and one at the start of the next: the bound
      is met, so the configured figure is exceeded by a factor of two. */
  lemma TwiceTheLimitHappens(limit: nat) returns (times: seq<real>)
    requires limit > 0
    ensures Rising(times) && forall i :: 0 <= i < |times| ==> 0.0 <= times[i]
    ensures Within(Passed(limit, Limiter(0.0, 0), times), 0.5) == 2 * limit
  {
    var early, late := Same(0.5, limit), Same(1.0, limit);
    times := early + late;
    BurstPasses(limit, Limiter(0.0, 0), 0.5, limit, late);
    assert late == [1.0] + late[1..] && late[1..] == Same(1.0, limit - 1);
    assert Admit(limit, Limiter(0.0, limit), 1.0) == (Limiter(1.0, 1), true);
    BurstPasses(limit, Limiter(1.0, 1), 1.0, limit - 1, []);
    assert late[1..] + [] == late[1..];
    assert Passed(limit, Limiter(0.0, limit), late) == [1.0] + (Same(1.0, limit - 1) + Passed(limit, Limiter(1.0, limit), []));
    var p := Passed(limit, Limiter(0.0, 0), times);
    assert p == early + late;
    AllWithin(p, 0.5);
  }
}
