/** The parent binds each shared address once and hands every process its sockets
    (`bind_shared_sockets`, `_sockets_for` of `_supervisor.py`). */
module SharedBinding {
  import opened Wrappers
  import opened Topology

  type Key = (string, string)

  /** Sockets are numbered in the order they are bound. `inherits` are the adapters
      whose shared sockets the parent binds, `busy` the addresses it cannot have. */
  datatype Outcome = Bound(sockets: map<Address, nat>) | Refused(address: Address)

  predicate Handed(s: Spec, inherits: set<Key>) { s.shared && s.Key() in inherits }

  ghost predicate Wanted(blocks: seq<Block>, inherits: set<Key>, a: Address) {
    exists b, s :: b in blocks && s in b.endpoints && Handed(s, inherits) && s.Listens() && s.At() == a
  }

  /** Every address once: sockets and addresses name each other. */
  ghost predicate OneToOne(sockets: map<Address, nat>, bound: seq<Address>) {
    && (forall i :: 0 <= i < |bound| ==> bound[i] in sockets && sockets[bound[i]] == i)
    && (forall a :: a in sockets ==> sockets[a] < |bound| && bound[sockets[a]] == a)
  }

  /** One cell: bound unless it is private, bound already, or left to its adapter. */
  method BindCell(s: Spec, inherits: set<Key>, busy: set<Address>, sockets: map<Address, nat>,
        bound: seq<Address>, open: set<nat>)
      returns (ok: bool, after: map<Address, nat>, order: seq<Address>, nowOpen: set<nat>)
    requires OneToOne(sockets, bound) && (s.shared ==> s.Listens())
    ensures OneToOne(after, order)
    ensures !ok <==> Handed(s, inherits) && s.At() !in sockets && s.At() in busy
    ensures ok ==> forall a :: a in after <==> a in sockets || (Handed(s, inherits) && s.At() == a)
    ensures !ok ==> after == sockets && order == bound
    ensures open == sockets.Values ==> nowOpen == after.Values
  {
    ok, after, order, nowOpen := true, sockets, bound, open;
    if !s.shared || s.At() in sockets { return; }
    if s.Key() !in inherits { return; }
    if s.At() in busy {
      ok := false;
      return;
    }
    nowOpen := open + {|bound|};
    OneMoreValue(sockets, s.At(), |bound|);
    after := after[s.At() := |bound|];
    order := order + [s.At()];
  }

  lemma OneMoreValue(sockets: map<Address, nat>, a: Address, n: nat)
    requires a !in sockets
    ensures sockets[a := n].Values == sockets.Values + {n}
  {
    var after := sockets[a := n];
    assert after[a] == n;
    forall v | v in sockets.Values ensures v in after.Values {
      var k :| k in sockets && sockets[k] == v;
      assert after[k] == v;
    }
  }

  /** `open` are the sockets the parent is left holding. */
  method BindShared(blocks: seq<Block>, inherits: set<Key>, busy: set<Address>)
      returns (r: Outcome, bound: seq<Address>, open: set<nat>)
    requires Blockwise(blocks)
    ensures r.Bound? <==> forall a :: Wanted(blocks, inherits, a) ==> a !in busy
    ensures r.Bound? ==> OneToOne(r.sockets, bound) && forall a :: a in r.sockets <==> Wanted(blocks, inherits, a)
    ensures r.Bound? ==> open == r.sockets.Values
    ensures r.Refused? ==> open == {} && r.address in busy && Wanted(blocks, inherits, r.address)
  {
    hide Separate, Dictionary, OneToOne, Handed, Wanted, WantedIn;
    var sockets: map<Address, nat> := map[];
    bound, open := [], {};
    NothingBound(blocks, inherits);
    for i := 0 to |blocks|
      invariant OneToOne(sockets, bound) && open == sockets.Values
      invariant forall a :: a in sockets <==> Wanted(blocks[..i], inherits, a)
      invariant forall a :: a in sockets ==> a !in busy
    {
      var b := blocks[i];
      assert b in blocks;
      OnlyListenersShared(b.endpoints);
      NothingWanted(inherits);
      assert b.endpoints[..0] == [];
      for k := 0 to |b.endpoints|
        invariant OneToOne(sockets, bound) && open == sockets.Values
        invariant forall a :: a in sockets <==> Wanted(blocks[..i], inherits, a) || WantedIn(b.endpoints[..k], inherits, a)
        invariant forall a :: a in sockets ==> a !in busy
      {
        var s := b.endpoints[k];
        assert s in b.endpoints;
        WantedOneMore(b.endpoints, k, inherits);
        var ok: bool;
        HandedListens(b.endpoints, s, inherits);
        ok, sockets, bound, open := BindCell(s, inherits, busy, sockets, bound, open);
        if !ok {
          WantedCell(blocks, b, s, inherits);
          r := Refused(s.At());
          var closing := sockets.Values;
          while closing != {}
            invariant open == closing
            decreases |closing|
          {
            var socket :| socket in closing;
            open, closing := open - {socket}, closing - {socket};
          }
          return;
        }
      }
      assert b.endpoints[..|b.endpoints|] == b.endpoints;
      WantedBlock(blocks, i, inherits);
    }
    assert blocks[..|blocks|] == blocks;
    r := Bound(sockets);
  }

  lemma NothingBound(blocks: seq<Block>, inherits: set<Key>)
    ensures OneToOne(map[], []) && forall a :: !Wanted(blocks[..0], inherits, a)
  {}

  lemma NothingWanted(inherits: set<Key>)
    ensures forall a :: !WantedIn([], inherits, a)
  {}

  lemma WantedCell(blocks: seq<Block>, b: Block, s: Spec, inherits: set<Key>)
    requires b in blocks && s in b.endpoints && Handed(s, inherits) && s.Listens()
    ensures Wanted(blocks, inherits, s.At())
  {}

  lemma HandedListens(endpoints: seq<Spec>, s: Spec, inherits: set<Key>)
    requires s in endpoints && forall t :: t in endpoints && t.shared ==> t.Listens()
    ensures Handed(s, inherits) ==> s.Listens()
  {}

  lemma OnlyListenersShared(endpoints: seq<Spec>)
    requires Dictionary(endpoints)
    ensures forall s :: s in endpoints && s.shared ==> s.Listens()
  {}

  ghost predicate WantedIn(endpoints: seq<Spec>, inherits: set<Key>, a: Address) {
    exists s :: s in endpoints && Handed(s, inherits) && s.Listens() && s.At() == a
  }

  lemma WantedOneMore(endpoints: seq<Spec>, k: nat, inherits: set<Key>)
    requires k < |endpoints|
    ensures forall a :: WantedIn(endpoints[..k + 1], inherits, a) <==>
              WantedIn(endpoints[..k], inherits, a)
              || (Handed(endpoints[k], inherits) && endpoints[k].Listens() && endpoints[k].At() == a)
  {
    assert endpoints[..k + 1] == endpoints[..k] + [endpoints[k]];
  }

  lemma WantedBlock(blocks: seq<Block>, i: nat, inherits: set<Key>)
    requires i < |blocks|
    ensures forall a :: Wanted(blocks[..i + 1], inherits, a) <==>
              Wanted(blocks[..i], inherits, a) || WantedIn(blocks[i].endpoints, inherits, a)
  {
    assert blocks[..i + 1] == blocks[..i] + [blocks[i]];
  }

  // ------------------------------------------------------------------
  // One process
  // ------------------------------------------------------------------

  /** `by_id`. */
  function ById(blocks: seq<Block>, process: string): Option<Block> {
    if blocks == [] then None else if blocks[0].process == process then Some(blocks[0]) else ById(blocks[1..], process)
  }

  lemma {:induction false} ByIdFinds(blocks: seq<Block>, i: nat)
    requires DistinctIds(blocks) && i < |blocks|
    ensures ById(blocks, blocks[i].process) == Some(blocks[i])
  {
    if i > 0 {
      assert blocks[0].process != blocks[i].process;
      ByIdFinds(blocks[1..], i - 1);
    }
  }

  /** The sockets of one process, by adapter. */
  ghost predicate SocketMapOf(endpoints: seq<Spec>, bound: map<Address, nat>, out: map<Key, nat>) {
    && (forall s :: s in endpoints && s.shared ==> s.Listens() && (s.Key() in out <==> s.At() in bound))
    && (forall s :: s in endpoints && s.shared && s.Key() in out ==> out[s.Key()] == bound[s.At()])
    && (forall key :: key in out ==> exists s :: s in endpoints && s.shared && s.Key() == key)
  }

  /** What `_sockets_for` gives the process of that id. */
  ghost predicate HandedTo(blocks: seq<Block>, process: string, bound: map<Address, nat>, out: map<Key, nat>) {
    ById(blocks, process).Some? && SocketMapOf(ById(blocks, process).value.endpoints, bound, out)
  }

  method SocketsFor(blocks: seq<Block>, process: string, bound: map<Address, nat>) returns (out: map<Key, nat>)
    requires Blockwise(blocks) && ById(blocks, process).Some?
    ensures HandedTo(blocks, process, bound, out)
  {
    hide Separate, Dictionary;
    var endpoints := ById(blocks, process).value.endpoints;
    ByIdIn(blocks, process);
    out := map[];
    NothingHanded(bound);
    for k := 0 to |endpoints|
      invariant SocketMapOf(endpoints[..k], bound, out)
    {
      var s := endpoints[k];
      assert s in endpoints;
      OnlyListenersShared(endpoints);
      NewKey(endpoints, k);
      assert endpoints[..k + 1] == endpoints[..k] + [s];
      if s.shared && s.At() in bound {
        out := out[s.Key() := bound[s.At()]];
      }
    }
    assert endpoints[..|endpoints|] == endpoints;
  }

  lemma NothingHanded(bound: map<Address, nat>)
    ensures SocketMapOf([], bound, map[])
  {}

  lemma NewKey(endpoints: seq<Spec>, k: nat)
    requires Dictionary(endpoints) && k < |endpoints|
    ensures forall s :: s in endpoints[..k] ==> s.Key() != endpoints[k].Key()
  {
    forall s | s in endpoints[..k] ensures s.Key() != endpoints[k].Key() {
      var j :| 0 <= j < k && endpoints[j] == s;
    }
  }

  lemma {:induction false} ByIdIn(blocks: seq<Block>, process: string)
    requires Blockwise(blocks) && ById(blocks, process).Some?
    ensures Dictionary(ById(blocks, process).value.endpoints)
  {
    if blocks[0].process == process {
      assert blocks[0] in blocks;
    } else {
      ByIdIn(blocks[1..], process);
    }
  }

  /** Every process that shares an address the parent bound is handed that one
      socket for it, under its own adapter; cells of different addresses never
      share a socket. */
  lemma SharersHoldOneSocket(blocks: seq<Block>, inherits: set<Key>, sockets: map<Address, nat>, bound: seq<Address>,
                             i: nat, j: nat, s: Spec, t: Spec, mine: map<Key, nat>, theirs: map<Key, nat>)
    requires Sound(blocks) && i < |blocks| && j < |blocks|
    requires OneToOne(sockets, bound) && forall a :: a in sockets <==> Wanted(blocks, inherits, a)
    requires s in blocks[i].endpoints && t in blocks[j].endpoints && Handed(s, inherits) && Handed(t, inherits)
    requires HandedTo(blocks, blocks[i].process, sockets, mine) && HandedTo(blocks, blocks[j].process, sockets, theirs)
    ensures s.Key() in mine && t.Key() in theirs
    ensures mine[s.Key()] == theirs[t.Key()] <==> s.At() == t.At()
    ensures s.At() == t.At() && i != j ==> s.Key() == t.Key() && s.host == t.host
  {
    hide Separate, Dictionary, Agree, DistinctIds, Primaries, Wanted;
    assert blocks[i] in blocks && blocks[j] in blocks;
    ByIdFinds(blocks, i);
    ByIdFinds(blocks, j);
    OnlyListenersShared(blocks[i].endpoints);
    OnlyListenersShared(blocks[j].endpoints);
    WantedCell(blocks, blocks[i], s, inherits);
    WantedCell(blocks, blocks[j], t, inherits);
    if s.At() == t.At() && i != j {
      OneAddressOneSocket(blocks, i, j, s, t);
    }
  }

  /** A process is handed nothing for a cell it keeps to itself. */
  lemma PrivateCellHasNoSocket(endpoints: seq<Spec>, sockets: map<Address, nat>, out: map<Key, nat>, s: Spec)
    requires Dictionary(endpoints) && SocketMapOf(endpoints, sockets, out) && s in endpoints && !s.shared
    ensures s.Key() !in out
  {
    forall t | t in endpoints && t.shared ensures t.Key() != s.Key() { DifferentCells(endpoints, s, t); }
  }

  lemma DifferentCells(endpoints: seq<Spec>, s: Spec, t: Spec)
    requires Dictionary(endpoints) && s in endpoints && t in endpoints && s != t
    ensures s.Key() != t.Key()
  {
    var i :| 0 <= i < |endpoints| && endpoints[i] == s;
    var j :| 0 <= j < |endpoints| && endpoints[j] == t;
    assert i < j ==> endpoints[i].Key() != endpoints[j].Key();
    assert j < i ==> endpoints[j].Key() != endpoints[i].Key();
  }
}
