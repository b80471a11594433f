/** Covering address extents with bounded block reads: the greedy plan of
    `_plan_area`, what makes a command admissible, and why no plan is shorter. */
module ReadPlanning {
  /** The addresses of one field, `hi` excluded. */
  datatype Extent = Extent(lo: nat, hi: nat)

  datatype Block = Block(address: nat, count: nat)

  function BlockEnd(b: Block): nat { b.address + b.count }

  predicate Covers(b: Block, e: Extent) { b.address <= e.lo && e.hi <= BlockEnd(b) }

  ghost predicate Declared(all: seq<Extent>, a: nat) {
    exists e :: e in all && e.lo <= a < e.hi
  }

  /** Some address of every `gap + 1` consecutive ones is declared. */
  ghost predicate NoWideHole(all: seq<Extent>, gap: nat, lo: nat, hi: nat) {
    forall x: nat :: lo <= x && x + gap < hi ==> DeclaredWithin(all, x, gap)
  }

  ghost predicate DeclaredWithin(all: seq<Extent>, x: nat, gap: nat) {
    exists a: nat :: x <= a <= x + gap && Declared(all, a)
  }

  /** A command the device can answer: within the protocol limit, and reading no
      undeclared stretch longer than `gap`. */
  ghost predicate Feasible(all: seq<Extent>, gap: nat, limit: nat, b: Block) {
    1 <= b.count <= limit && NoWideHole(all, gap, b.address, BlockEnd(b))
  }

  ghost predicate CoversAll(bs: seq<Block>, all: seq<Extent>) {
    forall e :: e in all ==> CoveredBy(bs, e)
  }

  ghost predicate CoveredBy(bs: seq<Block>, e: Extent) {
    exists k :: 0 <= k < |bs| && Covers(bs[k], e)
  }

  ghost predicate AllFeasible(all: seq<Extent>, gap: nat, limit: nat, bs: seq<Block>) {
    forall k :: 0 <= k < |bs| ==> Feasible(all, gap, limit, bs[k])
  }

  ghost predicate SortedByLo(s: seq<Extent>) {
    forall i, j :: 0 <= i < j < |s| ==> s[i].lo <= s[j].lo
  }

  ghost predicate Sized(s: seq<Extent>, limit: nat) {
    forall i :: 0 <= i < |s| ==> s[i].lo < s[i].hi <= s[i].lo + limit
  }

  ghost predicate Disjoint(s: seq<Extent>) {
    forall i, j :: 0 <= i < j < |s| ==> s[i].hi <= s[j].lo
  }

  // ------------------------------------------------------------------
  // The greedy plan
  // ------------------------------------------------------------------

  predicate Joins(gap: nat, limit: nat, start: nat, end: nat, e: Extent) {
    e.lo - end <= gap && e.hi - start <= limit
  }

  function Max(a: nat, b: nat): nat { if a < b then b else a }

  /** The commands from the open one, `start..end`, through the rest of the fields. */
  function PlanFrom(gap: nat, limit: nat, rest: seq<Extent>, start: nat, end: nat): (bs: seq<Block>)
    requires start <= end
    ensures |bs| > 0
    decreases |rest|
  {
    if rest == [] then [Block(start, end - start)]
    else if Joins(gap, limit, start, end, rest[0]) then
      PlanFrom(gap, limit, rest[1..], start, Max(end, rest[0].hi))
    else
      [Block(start, end - start)] + PlanFrom(gap, limit, rest[1..], rest[0].lo, Max(rest[0].lo, rest[0].hi))
  }

  /** The field that opens each command. */
  function AnchorsFrom(gap: nat, limit: nat, rest: seq<Extent>, start: nat, end: nat, anchor: Extent): (r: seq<Extent>)
    ensures |r| > 0 && r[0] == anchor
    decreases |rest|
  {
    if rest == [] then [anchor]
    else if Joins(gap, limit, start, end, rest[0]) then
      AnchorsFrom(gap, limit, rest[1..], start, Max(end, rest[0].hi), anchor)
    else
      [anchor] + AnchorsFrom(gap, limit, rest[1..], rest[0].lo, Max(rest[0].lo, rest[0].hi), rest[0])
  }

  /** `_plan_area` on a non-empty list. */
  function Plan(gap: nat, limit: nat, fields: seq<Extent>): seq<Block>
    requires fields != [] && fields[0].lo <= fields[0].hi
  {
    PlanFrom(gap, limit, fields[1..], fields[0].lo, fields[0].hi)
  }

  /** The open command `start..end`, after `seen`, before `rest`. */
  ghost predicate Open(all: seq<Extent>, gap: nat, limit: nat, seen: seq<Extent>, rest: seq<Extent>, start: nat,
        end: nat, anchor: Extent)
  {
    && all == seen + rest
    && SortedByLo(all) && Sized(all, limit)
    && anchor in seen && anchor.lo == start < end
    && (forall e :: e in seen ==> e.hi <= end)
    && (exists e :: e in seen && e.hi == end)
    && Feasible(all, gap, limit, Block(start, end - start))
  }

  lemma Opens(all: seq<Extent>, gap: nat, limit: nat)
    requires all != [] && SortedByLo(all) && Sized(all, limit)
    ensures Open(all, gap, limit, all[..1], all[1..], all[0].lo, all[0].hi, all[0])
  {
    assert all == all[..1] + all[1..];
    SolidExtent(all, gap, all[0]);
  }

  lemma SolidExtent(all: seq<Extent>, gap: nat, e: Extent)
    requires e in all
    ensures NoWideHole(all, gap, e.lo, e.hi)
  {
    forall x: nat | e.lo <= x && x + gap < e.hi ensures DeclaredWithin(all, x, gap) {
      assert x <= x <= x + gap && Declared(all, x);
    }
  }

  /** Two hole-free stretches at most `gap` apart make one. */
  lemma JoinedStretch(all: seq<Extent>, gap: nat, start: nat, end: nat, e: Extent, last: Extent)
    requires NoWideHole(all, gap, start, end) && e in all && start < end && e.lo <= end + gap
    requires last in all && last.lo < last.hi == end
    requires start <= e.lo < e.hi
    ensures NoWideHole(all, gap, start, Max(end, e.hi))
  {
    forall x: nat | start <= x && x + gap < Max(end, e.hi) ensures DeclaredWithin(all, x, gap) {
      if x + gap >= end {
        var a := if x < end then end - 1 else if x < e.lo then e.lo else x;
        assert x <= a <= x + gap;
        assert (last.lo <= a < last.hi) || (e.lo <= a < e.hi);
        assert Declared(all, a);
      }
    }
  }

  /** Taking the next field into the open command. */
  lemma StaysOpen(all: seq<Extent>, gap: nat, limit: nat, seen: seq<Extent>, rest: seq<Extent>, start: nat,
        end: nat, anchor: Extent)
    requires Open(all, gap, limit, seen, rest, start, end, anchor)
    requires rest != [] && Joins(gap, limit, start, end, rest[0])
    ensures Open(all, gap, limit, seen + rest[..1], rest[1..], start, Max(end, rest[0].hi), anchor)
  {
    var e := rest[0];
    NextField(all, gap, limit, seen, rest, start, end, anchor);
    var last :| last in seen && last.hi == end;
    assert last in all;
    var i :| 0 <= i < |all| && all[i] == last;
    JoinedStretch(all, gap, start, end, e, last);
    assert seen + rest[..1] + rest[1..] == all;
    assert if end < e.hi then e in seen + rest[..1] else last in seen + rest[..1];
  }

  lemma NextField(all: seq<Extent>, gap: nat, limit: nat, seen: seq<Extent>, rest: seq<Extent>, start: nat,
        end: nat, anchor: Extent)
    requires Open(all, gap, limit, seen, rest, start, end, anchor) && rest != []
    ensures rest[0] in all && start <= rest[0].lo < rest[0].hi <= rest[0].lo + limit
    ensures !Joins(gap, limit, start, end, rest[0]) ==> start < rest[0].lo && end < rest[0].hi
  {
    var e := rest[0];
    assert all[|seen|] == e;
    var i :| 0 <= i < |seen| && seen[i] == anchor;
    assert all[i] == anchor;
  }

  /** Closing the command and opening one at the next field. */
  lemma Reopens(all: seq<Extent>, gap: nat, limit: nat, seen: seq<Extent>, rest: seq<Extent>, start: nat,
        end: nat, anchor: Extent)
    requires Open(all, gap, limit, seen, rest, start, end, anchor)
    requires rest != [] && !Joins(gap, limit, start, end, rest[0])
    ensures Open(all, gap, limit, seen + rest[..1], rest[1..], rest[0].lo, rest[0].hi, rest[0])
  {
    NextField(all, gap, limit, seen, rest, start, end, anchor);
    SolidExtent(all, gap, rest[0]);
    assert seen + rest[..1] + rest[1..] == all;
  }

  // ------------------------------------------------------------------
  // What the plan guarantees
  // ------------------------------------------------------------------

  /** Every command is within the limit and crosses no wide hole; it starts where
      a field starts and ends where a field ends. */
  ghost predicate Sound(all: seq<Extent>, gap: nat, limit: nat, b: Block) {
    && Feasible(all, gap, limit, b)
    && (exists e :: e in all && e.lo == b.address)
    && (exists e :: e in all && e.hi == BlockEnd(b))
  }

  lemma OpenIsSound(all: seq<Extent>, gap: nat, limit: nat, seen: seq<Extent>, rest: seq<Extent>, start: nat,
        end: nat, anchor: Extent)
    requires Open(all, gap, limit, seen, rest, start, end, anchor)
    ensures Sound(all, gap, limit, Block(start, end - start))
  {
    hide Feasible, SortedByLo, Sized;
    var e :| e in seen && e.hi == end;
    assert anchor in all && e in all;
  }

  ghost predicate AllSound(all: seq<Extent>, gap: nat, limit: nat, bs: seq<Block>) {
    forall k :: 0 <= k < |bs| ==> Sound(all, gap, limit, bs[k])
  }

  lemma {:induction false} PlanFromSound(all: seq<Extent>, gap: nat, limit: nat, seen: seq<Extent>,
        rest: seq<Extent>, start: nat, end: nat, anchor: Extent)
    requires Open(all, gap, limit, seen, rest, start, end, anchor)
    ensures AllSound(all, gap, limit, PlanFrom(gap, limit, rest, start, end))
    decreases |rest|
  {
    hide Sound, Open, Joins;
    assert start <= end by { OpenFacts(all, gap, limit, seen, rest, start, end, anchor); }
    if rest == [] {
      OpenIsSound(all, gap, limit, seen, rest, start, end, anchor);
    } else if Joins(gap, limit, start, end, rest[0]) {
      StaysOpen(all, gap, limit, seen, rest, start, end, anchor);
      PlanFromSound(all, gap, limit, seen + rest[..1], rest[1..], start, Max(end, rest[0].hi), anchor);
    } else {
      OpenIsSound(all, gap, limit, seen, rest, start, end, anchor);
      Reopens(all, gap, limit, seen, rest, start, end, anchor);
      PlanFromSound(all, gap, limit, seen + rest[..1], rest[1..], rest[0].lo, rest[0].hi, rest[0]);
    }
  }

  lemma OpenFacts(all: seq<Extent>, gap: nat, limit: nat, seen: seq<Extent>, rest: seq<Extent>, start: nat,
        end: nat, anchor: Extent)
    requires Open(all, gap, limit, seen, rest, start, end, anchor)
    ensures anchor.lo == start < end && anchor in all && all == seen + rest
    ensures rest != [] ==> start <= rest[0].lo < rest[0].hi
  {
    if rest != [] { NextField(all, gap, limit, seen, rest, start, end, anchor); }
  }

  lemma {:induction false} PlanFromCovers(all: seq<Extent>, gap: nat, limit: nat, seen: seq<Extent>,
        rest: seq<Extent>, start: nat, end: nat, anchor: Extent)
    requires Open(all, gap, limit, seen, rest, start, end, anchor)
    ensures PlanFrom(gap, limit, rest, start, end)[0].address == start
    ensures BlockEnd(PlanFrom(gap, limit, rest, start, end)[0]) >= end
    ensures CoversAll(PlanFrom(gap, limit, rest, start, end), rest)
    decreases |rest|
  {
    hide Open, Joins, CoversAll;
    OpenFacts(all, gap, limit, seen, rest, start, end, anchor);
    if rest == [] {
      NothingToCover(PlanFrom(gap, limit, rest, start, end), rest);
    } else if Joins(gap, limit, start, end, rest[0]) {
      StaysOpen(all, gap, limit, seen, rest, start, end, anchor);
      PlanFromCovers(all, gap, limit, seen + rest[..1], rest[1..], start, Max(end, rest[0].hi), anchor);
      var bs := PlanFrom(gap, limit, rest[1..], start, Max(end, rest[0].hi));
      CoversOneMore([], bs, rest);
      assert [] + bs == bs;
    } else {
      Reopens(all, gap, limit, seen, rest, start, end, anchor);
      PlanFromCovers(all, gap, limit, seen + rest[..1], rest[1..], rest[0].lo, rest[0].hi, rest[0]);
      CoversOneMore([Block(start, end - start)], PlanFrom(gap, limit, rest[1..], rest[0].lo, rest[0].hi), rest);
    }
  }

  lemma NothingToCover(bs: seq<Block>, rest: seq<Extent>)
    requires rest == []
    ensures CoversAll(bs, rest)
  {}

  lemma CoversOneMore(closed: seq<Block>, bs: seq<Block>, rest: seq<Extent>)
    requires rest != [] && bs != [] && CoversAll(bs, rest[1..]) && Covers(bs[0], rest[0])
    ensures CoversAll(closed + bs, rest)
  {
    forall e | e in rest ensures CoveredBy(closed + bs, e) {
      if e == rest[0] {
        assert (closed + bs)[|closed|] == bs[0];
      } else {
        assert e in rest[1..];
        assert CoveredBy(bs, e);
        var k :| 0 <= k < |bs| && Covers(bs[k], e);
        assert (closed + bs)[|closed| + k] == bs[k];
      }
    }
  }

  ghost predicate Increasing(bs: seq<Block>) {
    forall i, j :: 0 <= i < j < |bs| ==> bs[i].address < bs[j].address
  }

  /** No two commands read the same address, and they come in address order. */
  ghost predicate Separate(bs: seq<Block>) {
    forall i, j :: 0 <= i < j < |bs| ==> BlockEnd(bs[i]) <= bs[j].address
  }

  ghost predicate From(bs: seq<Block>, a: nat) {
    forall k :: 0 <= k < |bs| ==> a <= bs[k].address
  }

  lemma {:induction false} PlanFromOrdered(all: seq<Extent>, gap: nat, limit: nat, seen: seq<Extent>,
        rest: seq<Extent>, start: nat, end: nat, anchor: Extent)
    requires Open(all, gap, limit, seen, rest, start, end, anchor)
    ensures From(PlanFrom(gap, limit, rest, start, end), start)
    ensures Increasing(PlanFrom(gap, limit, rest, start, end))
    ensures Disjoint(all) ==> Separate(PlanFrom(gap, limit, rest, start, end))
    decreases |rest|
  {
    hide Open, Joins, Disjoint;
    OpenFacts(all, gap, limit, seen, rest, start, end, anchor);
    if rest == [] {
    } else if Joins(gap, limit, start, end, rest[0]) {
      StaysOpen(all, gap, limit, seen, rest, start, end, anchor);
      PlanFromOrdered(all, gap, limit, seen + rest[..1], rest[1..], start, Max(end, rest[0].hi), anchor);
    } else {
      NextField(all, gap, limit, seen, rest, start, end, anchor);
      NextFieldApart(all, gap, limit, seen, rest, start, end, anchor);
      Reopens(all, gap, limit, seen, rest, start, end, anchor);
      PlanFromOrdered(all, gap, limit, seen + rest[..1], rest[1..], rest[0].lo, rest[0].hi, rest[0]);
      FirstBefore(Block(start, end - start), PlanFrom(gap, limit, rest[1..], rest[0].lo, rest[0].hi), rest[0].lo, Disjoint(all));
    }
  }

  lemma NextFieldApart(all: seq<Extent>, gap: nat, limit: nat, seen: seq<Extent>, rest: seq<Extent>, start: nat,
        end: nat, anchor: Extent)
    requires Open(all, gap, limit, seen, rest, start, end, anchor) && rest != []
    ensures Disjoint(all) ==> end <= rest[0].lo
  {
    if Disjoint(all) {
      var last :| last in seen && last.hi == end;
      var i :| 0 <= i < |seen| && seen[i] == last;
      assert all[i] == last && all[|seen|] == rest[0];
    }
  }

  lemma FirstBefore(b: Block, bs: seq<Block>, a: nat, apart: bool)
    requires From(bs, a) && Increasing(bs) && b.address < a
    requires apart ==> Separate(bs) && BlockEnd(b) <= a
    ensures From([b] + bs, b.address) && Increasing([b] + bs) && (apart ==> Separate([b] + bs))
  {
    var all := [b] + bs;
    forall i, j | 0 <= i < j < |all|
      ensures all[i].address < all[j].address && (apart ==> BlockEnd(all[i]) <= all[j].address)
    {
      assert all[j] == bs[j - 1];
      if i > 0 { assert all[i] == bs[i - 1]; }
    }
  }

  // ------------------------------------------------------------------
  // No plan is shorter
  // ------------------------------------------------------------------

  /** Anchors other than the first end past `end` and start no earlier than `lo`. */
  ghost predicate LaterAnchors(anchors: seq<Extent>, lo: nat, end: nat) {
    forall j :: 1 <= j < |anchors| ==> lo <= anchors[j].lo && end < anchors[j].hi
  }

  /** No admissible command covers the opening fields of two planned commands. */
  ghost predicate Spread(all: seq<Extent>, gap: nat, limit: nat, anchors: seq<Extent>) {
    forall i, j, b :: 0 <= i < j < |anchors| && Feasible(all, gap, limit, b) ==>
      !(Covers(b, anchors[i]) && Covers(b, anchors[j]))
  }

  ghost predicate AllIn(es: seq<Extent>, all: seq<Extent>) {
    forall j :: 0 <= j < |es| ==> es[j] in all
  }

  lemma AnchorCount(gap: nat, limit: nat, rest: seq<Extent>, start: nat, end: nat, anchor: Extent)
    requires start <= end
    ensures |AnchorsFrom(gap, limit, rest, start, end, anchor)| == |PlanFrom(gap, limit, rest, start, end)|
    decreases |rest|
  {
    if rest == [] {
    } else if Joins(gap, limit, start, end, rest[0]) {
      AnchorCount(gap, limit, rest[1..], start, Max(end, rest[0].hi), anchor);
    } else {
      AnchorCount(gap, limit, rest[1..], rest[0].lo, Max(rest[0].lo, rest[0].hi), rest[0]);
    }
  }

  /** The two reasons for closing a command each keep a command that covers its
      opening field from reaching past the next one. */
  lemma CannotReach(all: seq<Extent>, gap: nat, limit: nat, seen: seq<Extent>, rest: seq<Extent>, start: nat,
        end: nat, anchor: Extent, b: Block, e: Extent)
    requires Open(all, gap, limit, seen, rest, start, end, anchor)
    requires rest != [] && !Joins(gap, limit, start, end, rest[0])
    requires rest[0].lo <= e.lo < e.hi && rest[0].hi <= e.hi
    requires Feasible(all, gap, limit, b) && Covers(b, anchor)
    ensures !Covers(b, e)
  {
    NextField(all, gap, limit, seen, rest, start, end, anchor);
    Sides(all, gap, limit, seen, rest, start, end, anchor);
    assert Covers(b, e) && rest[0].lo > end + gap ==> DeclaredWithin(all, end, gap);
  }

  /** Every field ends before the end of the open command or starts with the rest. */
  lemma Sides(all: seq<Extent>, gap: nat, limit: nat, seen: seq<Extent>, rest: seq<Extent>, start: nat,
        end: nat, anchor: Extent)
    requires Open(all, gap, limit, seen, rest, start, end, anchor) && rest != []
    ensures forall g :: g in all ==> g.hi <= end || rest[0].lo <= g.lo
  {
    forall g | g in all ensures g.hi <= end || rest[0].lo <= g.lo {
      var k :| 0 <= k < |all| && all[k] == g;
      if k < |seen| { assert seen[k] == g; } else { assert all[|seen|] == rest[0]; }
    }
  }

  lemma {:induction false} AnchorsFromSpread(all: seq<Extent>, gap: nat, limit: nat, seen: seq<Extent>,
        rest: seq<Extent>, start: nat, end: nat, anchor: Extent)
    requires Open(all, gap, limit, seen, rest, start, end, anchor)
    ensures AllIn(AnchorsFrom(gap, limit, rest, start, end, anchor), all)
    ensures LaterAnchors(AnchorsFrom(gap, limit, rest, start, end, anchor), start, end)
    ensures Spread(all, gap, limit, AnchorsFrom(gap, limit, rest, start, end, anchor))
    decreases |rest|
  {
    hide Open, Joins, Feasible, Spread;
    OpenFacts(all, gap, limit, seen, rest, start, end, anchor);
    if rest == [] {
      OneAnchor(all, gap, limit, anchor);
    } else if Joins(gap, limit, start, end, rest[0]) {
      StaysOpen(all, gap, limit, seen, rest, start, end, anchor);
      AnchorsFromSpread(all, gap, limit, seen + rest[..1], rest[1..], start, Max(end, rest[0].hi), anchor);
    } else {
      NextField(all, gap, limit, seen, rest, start, end, anchor);
      Reopens(all, gap, limit, seen, rest, start, end, anchor);
      AnchorsFromSpread(all, gap, limit, seen + rest[..1], rest[1..], rest[0].lo, rest[0].hi, rest[0]);
      var later := AnchorsFrom(gap, limit, rest[1..], rest[0].lo, rest[0].hi, rest[0]);
      NewAnchor(all, gap, limit, seen, rest, start, end, anchor, later);
      forall j | 1 <= j < |[anchor] + later|
        ensures start <= ([anchor] + later)[j].lo && end < ([anchor] + later)[j].hi
      {
        assert ([anchor] + later)[j] == later[j - 1];
      }
    }
  }

  lemma OneAnchor(all: seq<Extent>, gap: nat, limit: nat, anchor: Extent)
    ensures Spread(all, gap, limit, [anchor])
  {}

  lemma NewAnchor(all: seq<Extent>, gap: nat, limit: nat, seen: seq<Extent>, rest: seq<Extent>, start: nat,
        end: nat, anchor: Extent, later: seq<Extent>)
    requires Open(all, gap, limit, seen, rest, start, end, anchor)
    requires rest != [] && !Joins(gap, limit, start, end, rest[0])
    requires later != [] && later[0] == rest[0] && AllIn(later, all)
    requires LaterAnchors(later, rest[0].lo, rest[0].hi) && Spread(all, gap, limit, later)
    ensures Spread(all, gap, limit, [anchor] + later)
  {
    hide Feasible, Joins;
    var anchors := [anchor] + later;
    forall i, j, b | 0 <= i < j < |anchors| && Feasible(all, gap, limit, b)
      ensures !(Covers(b, anchors[i]) && Covers(b, anchors[j]))
    {
      assert anchors[j] == later[j - 1];
      if i == 0 {
        if Covers(b, anchor) {
          assert later[j - 1] in all;
          assert later[j - 1].lo < later[j - 1].hi;
          CannotReach(all, gap, limit, seen, rest, start, end, anchor, b, later[j - 1]);
        }
      } else {
        assert anchors[i] == later[i - 1];
      }
    }
  }

  /** One covering command per anchor, all different. */
  lemma {:induction false} DistinctCovers(all: seq<Extent>, gap: nat, limit: nat, anchors: seq<Extent>,
        q: seq<Block>, n: nat) returns (ks: set<nat>)
    requires AllIn(anchors, all) && Spread(all, gap, limit, anchors)
    requires AllFeasible(all, gap, limit, q) && CoversAll(q, all)
    requires n <= |anchors|
    ensures |ks| == n
    ensures forall k :: k in ks ==> k < |q| && exists i :: 0 <= i < n && Covers(q[k], anchors[i])
  {
    hide Feasible, Covers;
    if n == 0 {
      ks := {};
    } else {
      ks := DistinctCovers(all, gap, limit, anchors, q, n - 1);
      assert CoveredBy(q, anchors[n - 1]);
      var k :| 0 <= k < |q| && Covers(q[k], anchors[n - 1]);
      assert Feasible(all, gap, limit, q[k]);
      assert k !in ks;
      ks := ks + {k};
    }
  }

  lemma {:induction false} AtMost(ks: set<nat>, n: nat)
    requires forall k :: k in ks ==> k < n
    ensures |ks| <= n
  {
    if n > 0 {
      AtMost(ks - {n - 1}, n - 1);
    }
  }

  // ------------------------------------------------------------------
  // The plan of one area
  // ------------------------------------------------------------------

  /** What a well-planned area needs of a list of commands. */
  ghost predicate Serves(all: seq<Extent>, gap: nat, limit: nat, bs: seq<Block>) {
    AllFeasible(all, gap, limit, bs) && CoversAll(bs, all)
  }

  lemma PlanIsSafe(all: seq<Extent>, gap: nat, limit: nat)
    requires all != [] && SortedByLo(all) && Sized(all, limit)
    ensures AllSound(all, gap, limit, Plan(gap, limit, all))
    ensures Serves(all, gap, limit, Plan(gap, limit, all))
    ensures Increasing(Plan(gap, limit, all))
    ensures Disjoint(all) ==> Separate(Plan(gap, limit, all))
  {
    hide Open, Disjoint, Separate, Increasing, AllSound, AllFeasible, CoversAll, From, SortedByLo, Sized, PlanFrom;
    Opens(all, gap, limit);
    PlanFromSound(all, gap, limit, all[..1], all[1..], all[0].lo, all[0].hi, all[0]);
    PlanFromOrdered(all, gap, limit, all[..1], all[1..], all[0].lo, all[0].hi, all[0]);
    SoundIsFeasible(all, gap, limit, Plan(gap, limit, all));
    PlanCovers(all, gap, limit);
  }

  lemma SoundIsFeasible(all: seq<Extent>, gap: nat, limit: nat, bs: seq<Block>)
    requires AllSound(all, gap, limit, bs)
    ensures AllFeasible(all, gap, limit, bs)
  {
    hide Feasible;
  }

  lemma PlanCovers(all: seq<Extent>, gap: nat, limit: nat)
    requires all != [] && SortedByLo(all) && Sized(all, limit)
    ensures CoversAll(Plan(gap, limit, all), all)
  {
    hide Open, CoversAll, SortedByLo, Sized, PlanFrom;
    Opens(all, gap, limit);
    PlanFromCovers(all, gap, limit, all[..1], all[1..], all[0].lo, all[0].hi, all[0]);
    var bs := Plan(gap, limit, all);
    CoversOneMore([], bs, all);
    assert [] + bs == bs;
  }

  /** Any list of admissible commands that covers every field is at least as long. */
  lemma PlanIsMinimal(all: seq<Extent>, gap: nat, limit: nat, q: seq<Block>)
    requires all != [] && SortedByLo(all) && Sized(all, limit)
    requires Serves(all, gap, limit, q)
    ensures |Plan(gap, limit, all)| <= |q|
  {
    hide Open, Feasible, CoversAll, AllFeasible;
    Opens(all, gap, limit);
    AnchorsFromSpread(all, gap, limit, all[..1], all[1..], all[0].lo, all[0].hi, all[0]);
    var anchors := AnchorsFrom(gap, limit, all[1..], all[0].lo, all[0].hi, all[0]);
    AnchorCount(gap, limit, all[1..], all[0].lo, all[0].hi, all[0]);
    var ks := DistinctCovers(all, gap, limit, anchors, q, |anchors|);
    AtMost(ks, |q|);
  }

  /** With no gap allowed a command reads nothing that is not declared. */
  lemma GapZeroIsExact(all: seq<Extent>, limit: nat, b: Block, a: nat)
    requires Feasible(all, 0, limit, b) && b.address <= a < BlockEnd(b)
    ensures Declared(all, a)
  {
    assert DeclaredWithin(all, a, 0);
  }
}
