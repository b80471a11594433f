/** The `processes:` block: from configuration to a list of processes whose
    addresses fit together (`_processes.py`). */
module Topology {
  import opened Wrappers

  /** A parsed YAML value. Keys are what `str()` makes of them, so two keys of one
      mapping may read alike; the later one wins. */
  datatype Yaml = Null | Bool(b: bool) | Int(i: int) | Text(t: string) | Other | Mapping(entries: seq<(string, Yaml)>)

  datatype Address = Unix(path: string) | Tcp(port: int)

  datatype Spec = Spec(
    kind: string, id: string, host: Option<string>, port: Option<int>, path: Option<string>, shared: bool, options: seq<(string, Yaml)>)
  {
    function Key(): (string, string) { (kind, id) }

    predicate Listens() { port.Some? || path.Some? }

    /** Cells of one address stand for one socket. */
    function At(): Address
      requires Listens()
    {
      if path.Some? then Unix(path.value) else Tcp(port.value)
    }
  }

  /** `endpoints` is a dictionary by key, in insertion order. */
  datatype Block = Block(process: string, primary: bool, endpoints: seq<Spec>)

  datatype TopologyError =
    | NotAMapping | BadIdentifier | BadPort | PortOutOfRange | BadPath | BadHost | Ambiguous | BadShared | SharedWithoutAddress
    | DuplicateAddress | BadCount | BadPrimary | PrimaryOnCount | PrivateUnderCount | EmptyProcesses
    | DuplicateId | NoPrimary | ManyPrimaries | Unshared | DifferentHosts | DifferentAdapters | ReservedIsDeclared | OnlyForMany

  // ------------------------------------------------------------------
  // Reading values
  // ------------------------------------------------------------------

  function Get(entries: seq<(string, Yaml)>, key: string): Option<Yaml> {
    if entries == [] then None
    else if entries[|entries| - 1].0 == key then Some(entries[|entries| - 1].1)
    else Get(entries[..|entries| - 1], key)
  }

  /** `options.get(key)`, absent and null alike. */
  function Value(entries: seq<(string, Yaml)>, key: string): Yaml {
    match Get(entries, key) case Some(v) => v case None => Null
  }

  predicate IdStart(c: char) { 'A' <= c <= 'Z' || 'a' <= c <= 'z' || '0' <= c <= '9' }

  predicate IdChar(c: char) { IdStart(c) || c == '_' || c == '.' || c == '-' }

  /** `_ID_PATTERN`; its `$` also accepts one newline at the end. */
  predicate ValidId(s: string) {
    var body := if s != [] && s[|s| - 1] == '\n' then s[..|s| - 1] else s;
    body != [] && IdStart(body[0]) && forall i :: 0 <= i < |body| ==> IdChar(body[i])
  }

  function RequireMapping(v: Yaml): Result<seq<(string, Yaml)>, TopologyError> {
    if v.Mapping? then Ok(v.entries) else Err(NotAMapping)
  }

  /** `_parse_endpoint`. */
  function ParseEndpoint(kind: string, id: string, raw: Yaml): Result<Spec, TopologyError> {
    var options :- RequireMapping(raw);
    var port, path, host := Value(options, "port"), Value(options, "path"), Value(options, "host");
    var shared := match Get(options, "shared") case Some(v) => v case None => Bool(false);
    if port != Null && !port.Int? then Err(BadPort)
    else if port.Int? && !(0 <= port.i <= 65535) then Err(PortOutOfRange)
    else if path != Null && !path.Text? then Err(BadPath)
    else if host != Null && !host.Text? then Err(BadHost)
    else if port != Null && path != Null then Err(Ambiguous)
    else if !shared.Bool? then Err(BadShared)
    else if shared.b && port == Null && path == Null then Err(SharedWithoutAddress)
    else Ok(Spec(kind, id, if host.Text? then Some(host.t) else None, if port.Int? then Some(port.i) else None,
                 if path.Text? then Some(path.t) else None, shared.b, options))
  }

  predicate Reserved(key: string) { key == "primary" || key == "count" }

  /** `endpoints[key] = spec`. */
  function Put(endpoints: seq<Spec>, s: Spec): seq<Spec> {
    if endpoints == [] then [s]
    else if endpoints[0].Key() == s.Key() then [s] + endpoints[1..]
    else [endpoints[0]] + Put(endpoints[1..], s)
  }

  function KindCells(kind: string, entries: seq<(string, Yaml)>, acc: seq<Spec>): Result<seq<Spec>, TopologyError>
    decreases |entries|
  {
    if entries == [] then Ok(acc)
    else if !ValidId(entries[0].0) then Err(BadIdentifier)
    else
      var s :- ParseEndpoint(kind, entries[0].0, entries[0].1);
      KindCells(kind, entries[1..], Put(acc, s))
  }

  function BlockCells(raw: seq<(string, Yaml)>, acc: seq<Spec>): Result<seq<Spec>, TopologyError>
    decreases |raw|
  {
    if raw == [] then Ok(acc)
    else if Reserved(raw[0].0) then BlockCells(raw[1..], acc)
    else if !ValidId(raw[0].0) then Err(BadIdentifier)
    else
      var entries :- RequireMapping(raw[0].1);
      var more :- KindCells(raw[0].0, entries, acc);
      BlockCells(raw[1..], more)
  }

  /** No two adapters of one process use one address. */
  predicate Separate(endpoints: seq<Spec>) {
    forall i, j :: 0 <= i < j < |endpoints| && endpoints[i].Listens() && endpoints[j].Listens() ==>
      endpoints[i].At() != endpoints[j].At()
  }

  /** One cell per key, and only what listens is shared. */
  ghost predicate Dictionary(endpoints: seq<Spec>) {
    && (forall i, j :: 0 <= i < j < |endpoints| ==> endpoints[i].Key() != endpoints[j].Key())
    && (forall s :: s in endpoints ==> s.shared ==> s.Listens())
  }

  function BlockOf(process: string, primary: bool, raw: seq<(string, Yaml)>): Result<Block, TopologyError> {
    var endpoints :- BlockCells(raw, []);
    if Separate(endpoints) then Ok(Block(process, primary, endpoints)) else Err(DuplicateAddress)
  }

  method RejectDuplicateEndpointWithinBlock(endpoints: seq<Spec>) returns (r: Option<TopologyError>)
    ensures r == if Separate(endpoints) then None else Some(DuplicateAddress)
  {
    var seen: map<Address, Spec> := map[];
    for i := 0 to |endpoints|
      invariant forall a :: a in seen <==> exists j :: 0 <= j < i && endpoints[j].Listens() && endpoints[j].At() == a
      invariant Separate(endpoints[..i])
    {
      var s := endpoints[i];
      if s.Listens() {
        if s.At() in seen {
          var j :| 0 <= j < i && endpoints[j].Listens() && endpoints[j].At() == s.At();
          return Some(DuplicateAddress);
        }
        seen := seen[s.At() := s];
      }
    }
    assert endpoints[..|endpoints|] == endpoints;
    return None;
  }

  /** `_parse_block`. */
  method ParseBlock(process: string, raw: seq<(string, Yaml)>, primary: bool) returns (r: Result<Block, TopologyError>)
    ensures r == BlockOf(process, primary, raw)
  {
    hide ValidId, ParseEndpoint, Separate;
    var endpoints: seq<Spec> := [];
    assert raw[0..] == raw;
    for i := 0 to |raw|
      invariant BlockCells(raw, []) == BlockCells(raw[i..], endpoints)
    {
      var (kind, kindRaw) := raw[i];
      assert raw[i..][1..] == raw[i + 1..];
      if Reserved(kind) { continue; }
      if !ValidId(kind) { return Err(BadIdentifier); }
      var entries :- RequireMapping(kindRaw);
      ghost var before := endpoints;
      assert entries[0..] == entries;
      for j := 0 to |entries|
        invariant KindCells(kind, entries, before) == KindCells(kind, entries[j..], endpoints)
      {
        assert entries[j..][1..] == entries[j + 1..];
        if !ValidId(entries[j].0) { return Err(BadIdentifier); }
        var s :- ParseEndpoint(kind, entries[j].0, entries[j].1);
        endpoints := Put(endpoints, s);
      }
    }
    var clash := RejectDuplicateEndpointWithinBlock(endpoints);
    if clash.Some? { return Err(clash.value); }
    return Ok(Block(process, primary, endpoints));
  }

  lemma {:induction false} PutKeepsDictionary(endpoints: seq<Spec>, s: Spec)
    requires Dictionary(endpoints) && (s.shared ==> s.Listens())
    ensures Dictionary(Put(endpoints, s))
    ensures forall x :: x in Put(endpoints, s) ==> x == s || x in endpoints
  {
    if endpoints != [] && endpoints[0].Key() != s.Key() {
      var rest := endpoints[1..];
      PutKeepsDictionary(rest, s);
      var r := Put(endpoints, s);
      forall j | 0 < j < |r| ensures r[0].Key() != r[j].Key() {
        assert r[j] == Put(rest, s)[j - 1];
        assert Put(rest, s)[j - 1] in Put(rest, s);
      }
      forall i, j | 0 <= i < j < |r| ensures r[i].Key() != r[j].Key() {
        if i > 0 { assert r[i] == Put(rest, s)[i - 1] && r[j] == Put(rest, s)[j - 1]; }
      }
    }
  }

  lemma {:induction false} KindCellsDictionary(kind: string, entries: seq<(string, Yaml)>, acc: seq<Spec>)
    requires Dictionary(acc)
    ensures KindCells(kind, entries, acc).Ok? ==> Dictionary(KindCells(kind, entries, acc).value)
    decreases |entries|
  {
    hide ValidId, Dictionary;
    if entries != [] {
      var s := ParseEndpoint(kind, entries[0].0, entries[0].1);
      if s.Ok? {
        PutKeepsDictionary(acc, s.value);
        KindCellsDictionary(kind, entries[1..], Put(acc, s.value));
      }
    }
  }

  lemma {:induction false} BlockCellsDictionary(raw: seq<(string, Yaml)>, acc: seq<Spec>)
    requires Dictionary(acc)
    ensures BlockCells(raw, acc).Ok? ==> Dictionary(BlockCells(raw, acc).value)
    decreases |raw|
  {
    hide ValidId, Dictionary;
    if raw != [] {
      if Reserved(raw[0].0) {
        BlockCellsDictionary(raw[1..], acc);
      } else if raw[0].1.Mapping? {
        KindCellsDictionary(raw[0].0, raw[0].1.entries, acc);
        var more := KindCells(raw[0].0, raw[0].1.entries, acc);
        if more.Ok? { BlockCellsDictionary(raw[1..], more.value); }
      }
    }
  }

  // ------------------------------------------------------------------
  // Expanding `count`
  // ------------------------------------------------------------------

  function Decimal(n: nat): string
    decreases n
  {
    if n < 10 then [['0', '1', '2', '3', '4', '5', '6', '7', '8', '9'][n]] else Decimal(n / 10) + Decimal(n % 10)
  }

  function Copies(name: string, from: nat, count: nat): seq<(string, bool)>
    requires from <= count + 1
    decreases count + 1 - from
  {
    if from > count then [] else [(name + "-" + Decimal(from), false)] + Copies(name, from + 1, count)
  }

  /** `_expand_count`: the processes a block stands for. */
  function ExpandCount(name: string, raw: seq<(string, Yaml)>): Result<seq<(string, bool)>, TopologyError> {
    var count := match Get(raw, "count") case Some(v) => v case None => Int(1);
    var primary := match Get(raw, "primary") case Some(v) => v case None => Bool(false);
    if !count.Int? || count.i < 1 then Err(BadCount)
    else if !primary.Bool? then Err(BadPrimary)
    else if count.i == 1 then Ok([(name, primary.b)])
    else if primary.b then Err(PrimaryOnCount)
    else Ok(Copies(name, 1, count.i))
  }

  predicate AllShared(endpoints: seq<Spec>) {
    forall s :: s in endpoints && s.Listens() ==> s.shared
  }

  function Expanded(name: string, names: seq<(string, bool)>, raw: seq<(string, Yaml)>,
        acc: seq<Block>): Result<seq<Block>, TopologyError>
    decreases |names|
  {
    if names == [] then Ok(acc)
    else
      var b :- BlockOf(names[0].0, names[0].1, raw);
      if names[0].0 != name && !AllShared(b.endpoints) then Err(PrivateUnderCount)
      else Expanded(name, names[1..], raw, acc + [b])
  }

  function ExpandedFrom(name: string, raw: seq<(string, Yaml)>, acc: seq<Block>): Result<seq<Block>, TopologyError> {
    var names :- ExpandCount(name, raw);
    Expanded(name, names, raw, acc)
  }

  function BlocksOf(processes: seq<(string, Yaml)>, acc: seq<Block>): Result<seq<Block>, TopologyError>
    decreases |processes|
  {
    if processes == [] then Ok(acc)
    else if !ValidId(processes[0].0) then Err(BadIdentifier)
    else
      var raw :- RequireMapping(processes[0].1);
      var more :- ExpandedFrom(processes[0].0, raw, acc);
      BlocksOf(processes[1..], more)
  }

  // ------------------------------------------------------------------
  // What every accepted topology satisfies
  // ------------------------------------------------------------------

  ghost predicate DistinctIds(blocks: seq<Block>) {
    forall i, j :: 0 <= i < j < |blocks| ==> blocks[i].process != blocks[j].process
  }

  function Primaries(blocks: seq<Block>): seq<string> {
    if blocks == [] then [] else (if blocks[0].primary then [blocks[0].process] else []) + Primaries(blocks[1..])
  }

  /** Two cells of one address: one socket, bound once, for one adapter. */
  predicate Compatible(s: Spec, t: Spec) {
    s.shared && t.shared && s.host == t.host && s.Key() == t.Key()
  }

  predicate SameAddress(s: Spec, t: Spec) { s.Listens() && t.Listens() && s.At() == t.At() }

  /** Any two cells with one address are in different processes, and agree. */
  ghost predicate Agree(blocks: seq<Block>) {
    forall i, j, s, t ::
      0 <= i < j < |blocks| && s in blocks[i].endpoints && t in blocks[j].endpoints && SameAddress(s, t) ==> Compatible(s, t)
  }

  ghost predicate Sound(blocks: seq<Block>) {
    && DistinctIds(blocks)
    && |Primaries(blocks)| == 1
    && Agree(blocks)
    && (forall b :: b in blocks ==> Separate(b.endpoints) && Dictionary(b.endpoints))
  }

  ghost predicate Blockwise(blocks: seq<Block>) {
    forall b :: b in blocks ==> Separate(b.endpoints) && Dictionary(b.endpoints)
  }

  // ------------------------------------------------------------------
  // The checks
  // ------------------------------------------------------------------

  method RejectDuplicateIds(blocks: seq<Block>) returns (r: Option<TopologyError>)
    ensures r.None? <==> DistinctIds(blocks)
    ensures r.Some? ==> r.value == DuplicateId
  {
    var seen: set<string> := {};
    for i := 0 to |blocks|
      invariant forall p :: p in seen <==> exists j :: 0 <= j < i && blocks[j].process == p
      invariant DistinctIds(blocks[..i])
    {
      if blocks[i].process in seen {
        var j :| 0 <= j < i && blocks[j].process == blocks[i].process;
        return Some(DuplicateId);
      }
      seen := seen + {blocks[i].process};
    }
    assert blocks[..|blocks|] == blocks;
    return None;
  }

  lemma {:induction false} PrimariesSnoc(blocks: seq<Block>, b: Block)
    ensures Primaries(blocks + [b]) == Primaries(blocks) + if b.primary then [b.process] else []
  {
    if blocks == [] {
      assert blocks + [b] == [b] && [b][1..] == [];
    } else {
      PrimariesSnoc(blocks[1..], b);
      assert (blocks + [b])[1..] == blocks[1..] + [b];
    }
  }

  method RequireExactlyOnePrimary(blocks: seq<Block>) returns (r: Option<TopologyError>)
    ensures r.None? <==> |Primaries(blocks)| == 1
    ensures r.Some? ==> r.value == if Primaries(blocks) == [] then NoPrimary else ManyPrimaries
  {
    var primaries: seq<string> := [];
    for i := 0 to |blocks|
      invariant primaries == Primaries(blocks[..i])
    {
      PrimariesSnoc(blocks[..i], blocks[i]);
      assert blocks[..i] + [blocks[i]] == blocks[..i + 1];
      if blocks[i].primary {
        primaries := primaries + [blocks[i].process];
      }
    }
    assert blocks[..|blocks|] == blocks;
    if |primaries| == 1 { return None; }
    return Some(if primaries == [] then NoPrimary else ManyPrimaries);
  }

  function Here(a: Address, endpoints: seq<Spec>): seq<Spec> {
    if endpoints == [] then []
    else (if endpoints[0].Listens() && endpoints[0].At() == a then [endpoints[0]] else []) + Here(a, endpoints[1..])
  }

  /** The cells of address `a`, in order. */
  function CellsAt(a: Address, blocks: seq<Block>): seq<Spec> {
    if blocks == [] then [] else Here(a, blocks[0].endpoints) + CellsAt(a, blocks[1..])
  }

  lemma {:induction false} HereSnoc(a: Address, endpoints: seq<Spec>, s: Spec)
    ensures Here(a, endpoints + [s]) == Here(a, endpoints) + if s.Listens() && s.At() == a then [s] else []
  {
    if endpoints == [] {
      assert endpoints + [s] == [s] && [s][1..] == [];
    } else {
      HereSnoc(a, endpoints[1..], s);
      assert (endpoints + [s])[1..] == endpoints[1..] + [s];
    }
  }

  lemma {:induction false} CellsSnoc(a: Address, blocks: seq<Block>, b: Block)
    ensures CellsAt(a, blocks + [b]) == CellsAt(a, blocks) + Here(a, b.endpoints)
  {
    hide Here;
    if blocks == [] {
      assert blocks + [b] == [b] && [b][1..] == [];
      assert Here(a, b.endpoints) + [] == Here(a, b.endpoints) && [] + Here(a, b.endpoints) == Here(a, b.endpoints);
    } else {
      CellsSnoc(a, blocks[1..], b);
      assert (blocks + [b])[1..] == blocks[1..] + [b] && (blocks + [b])[0] == blocks[0];
      Associate(Here(a, blocks[0].endpoints), CellsAt(a, blocks[1..]), Here(a, b.endpoints));
    }
  }

  lemma {:induction false} HereMembers(a: Address, endpoints: seq<Spec>)
    ensures forall s :: s in Here(a, endpoints) <==> s in endpoints && s.Listens() && s.At() == a
  {
    if endpoints != [] {
      HereMembers(a, endpoints[1..]);
    }
  }

  lemma {:induction false} HereNone(a: Address, endpoints: seq<Spec>)
    requires forall t :: t in endpoints && t.Listens() ==> t.At() != a
    ensures Here(a, endpoints) == []
  {
    if endpoints != [] {
      HereNone(a, endpoints[1..]);
    }
  }

  lemma {:induction false} HereAtMostOne(a: Address, endpoints: seq<Spec>)
    requires Separate(endpoints)
    ensures |Here(a, endpoints)| <= 1
  {
    if endpoints != [] {
      var s, rest := endpoints[0], endpoints[1..];
      forall i, j | 0 <= i < j < |rest| && rest[i].Listens() && rest[j].Listens() ensures rest[i].At() != rest[j].At() {
        assert endpoints[i + 1].At() != endpoints[j + 1].At();
      }
      if s.Listens() && s.At() == a {
        forall t | t in rest && t.Listens() ensures t.At() != a {
          var j :| 0 <= j < |rest| && rest[j] == t;
          assert endpoints[0].At() != endpoints[j + 1].At();
        }
        HereNone(a, rest);
      } else {
        HereAtMostOne(a, rest);
      }
    }
  }

  lemma {:induction false} CellsMembers(a: Address, blocks: seq<Block>)
    ensures forall s :: s in CellsAt(a, blocks) <==> s.Listens() && s.At() == a && exists b :: b in blocks && s in b.endpoints
  {
    if blocks != [] {
      CellsMembers(a, blocks[1..]);
      HereMembers(a, blocks[0].endpoints);
      assert blocks == [blocks[0]] + blocks[1..];
    }
  }

  ghost predicate PairwiseCompatible(cells: seq<Spec>) {
    forall p, q :: 0 <= p < q < |cells| ==> Compatible(cells[p], cells[q])
  }

  /** What the three checks of a group come to. */
  predicate GroupFits(cells: seq<Spec>) {
    |cells| < 2 || (forall s :: s in cells ==> s.shared && s.host == cells[0].host && s.Key() == cells[0].Key())
  }

  lemma GroupFitsPairwise(cells: seq<Spec>)
    ensures GroupFits(cells) <==> PairwiseCompatible(cells)
  {
    if GroupFits(cells) && |cells| >= 2 {
      assert forall p :: 0 <= p < |cells| ==> cells[p] in cells;
    }
    if PairwiseCompatible(cells) && |cells| >= 2 {
      forall s | s in cells ensures s.shared && s.host == cells[0].host && s.Key() == cells[0].Key() {
        var p :| 0 <= p < |cells| && cells[p] == s;
        assert Compatible(cells[0], cells[1]);
        if p > 0 { assert Compatible(cells[0], cells[p]); }
      }
    }
  }

  ghost predicate AllFit(blocks: seq<Block>) {
    forall a: Address :: PairwiseCompatible(CellsAt(a, blocks))
  }

  ghost predicate AgreesWith(b: Block, rest: seq<Block>) {
    forall s, t, c :: s in b.endpoints && c in rest && t in c.endpoints && SameAddress(s, t) ==> Compatible(s, t)
  }

  lemma AgreeCons(blocks: seq<Block>)
    requires blocks != []
    ensures Agree(blocks) <==> AgreesWith(blocks[0], blocks[1..]) && Agree(blocks[1..])
  {
    hide Compatible, SameAddress;
    var rest := blocks[1..];
    if AgreesWith(blocks[0], rest) && Agree(rest) {
      forall i, j, s, t | 0 <= i < j < |blocks| && s in blocks[i].endpoints && t in blocks[j].endpoints && SameAddress(s, t)
        ensures Compatible(s, t)
      {
        assert blocks[j] == rest[j - 1];
        if i == 0 { assert rest[j - 1] in rest; } else { assert blocks[i] == rest[i - 1]; }
      }
    }
    if Agree(blocks) {
      forall s, t, c | s in blocks[0].endpoints && c in rest && t in c.endpoints && SameAddress(s, t)
        ensures Compatible(s, t)
      {
        var j :| 0 <= j < |rest| && rest[j] == c;
        assert blocks[j + 1] == c;
      }
      forall i, j, s, t | 0 <= i < j < |rest| && s in rest[i].endpoints && t in rest[j].endpoints && SameAddress(s, t)
        ensures Compatible(s, t)
      {
        assert blocks[i + 1] == rest[i] && blocks[j + 1] == rest[j];
      }
    }
  }

  ghost predicate AllCompatible(s: Spec, cells: seq<Spec>) { forall q :: 0 <= q < |cells| ==> Compatible(s, cells[q]) }

  lemma PairwiseHead(s: Spec, cells: seq<Spec>)
    ensures PairwiseCompatible([s] + cells) <==> PairwiseCompatible(cells) && AllCompatible(s, cells)
  {
    hide Compatible;
    var whole := [s] + cells;
    assert forall i :: 0 <= i < |cells| ==> whole[i + 1] == cells[i];
    if PairwiseCompatible(cells) && AllCompatible(s, cells) {
      forall p, q | 0 <= p < q < |whole| ensures Compatible(whole[p], whole[q]) {
        assert whole[q] == cells[q - 1];
        assert p > 0 ==> whole[p] == cells[p - 1];
      }
    }
    if PairwiseCompatible(whole) {
      forall q | 0 <= q < |cells| ensures Compatible(s, cells[q]) { assert Compatible(whole[0], whole[q + 1]); }
      forall p, q | 0 <= p < q < |cells|
        ensures Compatible(cells[p], cells[q])
      {
        assert Compatible(whole[p + 1], whole[q + 1]);
      }
    }
  }

  lemma PairwiseCons(here: seq<Spec>, cells: seq<Spec>)
    requires |here| <= 1
    ensures PairwiseCompatible(here + cells) <==>
            PairwiseCompatible(cells) && forall s, t :: s in here && t in cells ==> Compatible(s, t)
  {
    hide Compatible, PairwiseCompatible;
    if here == [] {
      assert here + cells == cells;
    } else {
      assert here == [here[0]];
      PairwiseHead(here[0], cells);
      assert AllCompatible(here[0], cells) <==> forall t :: t in cells ==> Compatible(here[0], t);
    }
  }

  ghost predicate AgreesAt(a: Address, b: Block, rest: seq<Block>) {
    forall s, t :: s in Here(a, b.endpoints) && t in CellsAt(a, rest) ==> Compatible(s, t)
  }

  lemma FitAtCons(a: Address, blocks: seq<Block>)
    requires blocks != [] && Separate(blocks[0].endpoints)
    ensures PairwiseCompatible(CellsAt(a, blocks)) <==>
            PairwiseCompatible(CellsAt(a, blocks[1..])) && AgreesAt(a, blocks[0], blocks[1..])
  {
    hide PairwiseCompatible, Compatible;
    HereAtMostOne(a, blocks[0].endpoints);
    PairwiseCons(Here(a, blocks[0].endpoints), CellsAt(a, blocks[1..]));
  }

  lemma AgreesAtMeans(a: Address, b: Block, rest: seq<Block>)
    ensures AgreesAt(a, b, rest) <==>
            forall s, t, c :: s in b.endpoints && c in rest && t in c.endpoints && SameAddress(s, t) && s.At() == a ==> Compatible(s, t)
  {
    hide Compatible;
    HereMembers(a, b.endpoints);
    CellsMembers(a, rest);
  }

  lemma AgreesWithByAddress(b: Block, rest: seq<Block>)
    ensures AgreesWith(b, rest) <==> forall a: Address :: AgreesAt(a, b, rest)
  {
    hide Compatible, AgreesAt;
    forall a: Address
      ensures AgreesAt(a, b, rest) <==>
            forall s, t, c :: s in b.endpoints && c in rest && t in c.endpoints && SameAddress(s, t) && s.At() == a ==> Compatible(s, t)
    {
      AgreesAtMeans(a, b, rest);
    }
    if forall a: Address :: AgreesAt(a, b, rest) {
      forall s, t, c | s in b.endpoints && c in rest && t in c.endpoints && SameAddress(s, t) ensures Compatible(s, t) {
        assert AgreesAt(s.At(), b, rest);
      }
    }
  }

  /** Looking at each address on its own decides the whole. */
  lemma {:induction false} AgreeByAddress(blocks: seq<Block>)
    requires Blockwise(blocks)
    ensures Agree(blocks) <==> AllFit(blocks)
  {
    hide Agree, PairwiseCompatible, Compatible, AgreesWith, Separate, Dictionary, AgreesAt;
    if blocks == [] {
      NoBlocks(blocks);
    } else {
      assert blocks[0] in blocks;
      AgreeByAddress(blocks[1..]);
      AgreeCons(blocks);
      AgreesWithByAddress(blocks[0], blocks[1..]);
      forall a: Address
        ensures PairwiseCompatible(CellsAt(a, blocks)) <==>
                PairwiseCompatible(CellsAt(a, blocks[1..])) && AgreesAt(a, blocks[0], blocks[1..])
      {
        FitAtCons(a, blocks);
      }
      FitCons(blocks);
    }
  }

  lemma FitCons(blocks: seq<Block>)
    requires blocks != []
    requires forall a: Address ::
      PairwiseCompatible(CellsAt(a, blocks)) <==> (PairwiseCompatible(CellsAt(a, blocks[1..])) && AgreesAt(a, blocks[0], blocks[1..]))
    ensures AllFit(blocks) <==> AllFit(blocks[1..]) && forall a: Address :: AgreesAt(a, blocks[0], blocks[1..])
  {
    hide PairwiseCompatible, AgreesAt, CellsAt;
    if AllFit(blocks) {
      forall a: Address ensures PairwiseCompatible(CellsAt(a, blocks[1..])) && AgreesAt(a, blocks[0], blocks[1..]) {
        assert PairwiseCompatible(CellsAt(a, blocks));
      }
    }
    if AllFit(blocks[1..]) && forall a: Address :: AgreesAt(a, blocks[0], blocks[1..]) {
      forall a: Address
        ensures PairwiseCompatible(CellsAt(a, blocks))
      {
        assert PairwiseCompatible(CellsAt(a, blocks[1..]));
      }
    }
  }

  lemma NoBlocks(blocks: seq<Block>)
    requires blocks == []
    ensures Agree(blocks) && AllFit(blocks)
  {}

  function Look(groups: map<Address, seq<Spec>>, a: Address): seq<Spec> { if a in groups then groups[a] else [] }

  ghost predicate SameKeys(groups: map<Address, seq<Spec>>, order: seq<Address>) { forall a :: a in groups <==> a in order }

  method AddCell(groups: map<Address, seq<Spec>>, order: seq<Address>, s: Spec)
      returns (g: map<Address, seq<Spec>>, o: seq<Address>)
    requires SameKeys(groups, order) && s.Listens()
    ensures SameKeys(g, o)
    ensures forall a :: Look(g, a) == Look(groups, a) + if s.At() == a then [s] else []
  {
    o := if s.At() in groups then order else order + [s.At()];
    g := groups[s.At() := Look(groups, s.At()) + [s]];
  }

  method AddBlock(groups: map<Address, seq<Spec>>, order: seq<Address>, endpoints: seq<Spec>)
      returns (g: map<Address, seq<Spec>>, o: seq<Address>)
    requires SameKeys(groups, order)
    ensures SameKeys(g, o)
    ensures forall a :: Look(g, a) == Look(groups, a) + Here(a, endpoints)
  {
    hide SameKeys, Look;
    g, o := groups, order;
    for k := 0 to |endpoints|
      invariant SameKeys(g, o)
      invariant forall a :: Look(g, a) == Look(groups, a) + Here(a, endpoints[..k])
    {
      var s := endpoints[k];
      forall a: Address
        ensures Here(a, endpoints[..k + 1]) == Here(a, endpoints[..k]) + if s.Listens() && s.At() == a then [s] else []
      {
        HereSnoc(a, endpoints[..k], s);
        assert endpoints[..k] + [s] == endpoints[..k + 1];
      }
      if s.Listens() {
        g, o := AddCell(g, o, s);
      }
    }
    assert endpoints[..|endpoints|] == endpoints;
  }

  /** Every listening cell under its address, addresses in order of first use. */
  method GroupByAddress(blocks: seq<Block>) returns (groups: map<Address, seq<Spec>>, order: seq<Address>)
    ensures forall a :: a in groups <==> a in order
    ensures forall a :: CellsAt(a, blocks) == Look(groups, a)
  {
    hide Look;
    groups := map[];
    order := [];
    assert forall a :: Look(groups, a) == [] by { EmptyLook(groups); }
    for i := 0 to |blocks|
      invariant SameKeys(groups, order)
      invariant forall a :: CellsAt(a, blocks[..i]) == Look(groups, a)
    {
      var b := blocks[i];
      groups, order := AddBlock(groups, order, b.endpoints);
      forall a: Address ensures CellsAt(a, blocks[..i + 1]) == CellsAt(a, blocks[..i]) + Here(a, b.endpoints) {
        CellsSnoc(a, blocks[..i], b);
        assert blocks[..i] + [b] == blocks[..i + 1];
      }
    }
    assert blocks[..|blocks|] == blocks;
  }

  lemma EmptyLook(groups: map<Address, seq<Spec>>)
    requires groups == map[]
    ensures forall a :: Look(groups, a) == []
  {}

  predicate Conflict(e: TopologyError) { e == Unshared || e == DifferentHosts || e == DifferentAdapters }

  method CheckGroup(cells: seq<Spec>) returns (r: Option<TopologyError>)
    ensures r.None? <==> GroupFits(cells)
    ensures r.Some? ==> Conflict(r.value)
  {
    if |cells| < 2 { return None; }
    if exists s :: s in cells && !s.shared { return Some(Unshared); }
    var hosts := set s | s in cells :: s.host;
    assert cells[0].host in hosts;
    if exists h :: h in hosts && h != cells[0].host { return Some(DifferentHosts); }
    var kinds := set s | s in cells :: s.Key();
    assert cells[0].Key() in kinds;
    if exists k :: k in kinds && k != cells[0].Key() { return Some(DifferentAdapters); }
    assert forall s :: s in cells ==> s.host in hosts && s.Key() in kinds;
    return None;
  }

  /** `_reject_conflicting_endpoints`. */
  method RejectConflictingEndpoints(blocks: seq<Block>) returns (r: Option<TopologyError>)
    requires Blockwise(blocks)
    ensures r.None? <==> Agree(blocks)
    ensures r.Some? ==> Conflict(r.value)
  {
    hide Agree, GroupFits, PairwiseCompatible, CellsAt, Blockwise;
    var groups, order := GroupByAddress(blocks);
    AgreeByAddress(blocks);
    for k := 0 to |order|
      invariant forall j :: 0 <= j < k ==> PairwiseCompatible(CellsAt(order[j], blocks))
    {
      var a := order[k];
      assert a in groups;
      r := CheckGroup(groups[a]);
      GroupFitsPairwise(groups[a]);
      if r.Some? {
        assert AllFit(blocks) ==> PairwiseCompatible(CellsAt(a, blocks));
        return;
      }
    }
    forall a: Address ensures PairwiseCompatible(CellsAt(a, blocks)) {
      if a in order {
        var j :| 0 <= j < |order| && order[j] == a;
      } else {
        NothingToCompare(CellsAt(a, blocks));
      }
    }
    return None;
  }

  lemma NothingToCompare(cells: seq<Spec>)
    requires cells == []
    ensures PairwiseCompatible(cells)
  {}

  // ------------------------------------------------------------------
  // The whole block
  // ------------------------------------------------------------------

  lemma BlockOfBlockwise(process: string, primary: bool, raw: seq<(string, Yaml)>)
    ensures BlockOf(process, primary, raw).Ok? ==>
              Separate(BlockOf(process, primary, raw).value.endpoints) && Dictionary(BlockOf(process, primary, raw).value.endpoints)
  {
    BlockCellsDictionary(raw, []);
  }

  lemma {:induction false} ExpandedBlockwise(name: string, names: seq<(string, bool)>, raw: seq<(string, Yaml)>,
        acc: seq<Block>)
    requires Blockwise(acc)
    ensures Expanded(name, names, raw, acc).Ok? ==> Blockwise(Expanded(name, names, raw, acc).value)
    decreases |names|
  {
    hide BlockOf, Separate, Dictionary;
    if names != [] {
      BlockOfBlockwise(names[0].0, names[0].1, raw);
      var b := BlockOf(names[0].0, names[0].1, raw);
      if b.Ok? { ExpandedBlockwise(name, names[1..], raw, acc + [b.value]); }
    }
  }

  lemma {:induction false} BlocksOfBlockwise(processes: seq<(string, Yaml)>, acc: seq<Block>)
    requires Blockwise(acc)
    ensures BlocksOf(processes, acc).Ok? ==> Blockwise(BlocksOf(processes, acc).value)
    decreases |processes|
  {
    hide Blockwise, Expanded, ExpandCount, ValidId;
    if processes != [] && processes[0].1.Mapping? {
      var names := ExpandCount(processes[0].0, processes[0].1.entries);
      if names.Ok? { ExpandedBlockwise(processes[0].0, names.value, processes[0].1.entries, acc); }
      var more := ExpandedFrom(processes[0].0, processes[0].1.entries, acc);
      if more.Ok? { BlocksOfBlockwise(processes[1..], more.value); }
    }
  }

  /** `_reject_unshared_ports_under_count`. */
  method RejectUnsharedPortsUnderCount(endpoints: seq<Spec>) returns (r: Option<TopologyError>)
    ensures r == if AllShared(endpoints) then None else Some(PrivateUnderCount)
  {
    for i := 0 to |endpoints|
      invariant forall j :: 0 <= j < i && endpoints[j].Listens() ==> endpoints[j].shared
    {
      if endpoints[i].Listens() && !endpoints[i].shared {
        assert endpoints[i] in endpoints;
        return Some(PrivateUnderCount);
      }
    }
    return None;
  }

  /** The blocks one entry of `processes:` expands into. */
  method Expand(name: string, raw: seq<(string, Yaml)>, acc: seq<Block>) returns (r: Result<seq<Block>, TopologyError>)
    ensures r == ExpandedFrom(name, raw, acc)
  {
    hide BlockOf, ExpandCount, AllShared;
    var names :- ExpandCount(name, raw);
    var blocks := acc;
    assert names[0..] == names;
    for i := 0 to |names|
      invariant Expanded(name, names, raw, acc) == Expanded(name, names[i..], raw, blocks)
    {
      assert names[i..][1..] == names[i + 1..];
      var (process, primary) := names[i];
      var b :- ParseBlock(process, raw, primary);
      if process != name {
        var private := RejectUnsharedPortsUnderCount(b.endpoints);
        if private.Some? { return Err(private.value); }
      }
      blocks := blocks + [b];
    }
    return Ok(blocks);
  }

  /** The checks over all blocks, in the order they run. */
  method CheckBlocks(blocks: seq<Block>) returns (r: Option<TopologyError>)
    requires Blockwise(blocks)
    ensures r.None? <==> Sound(blocks)
    ensures r.Some? ==> if !DistinctIds(blocks) then r.value == DuplicateId
                        else if |Primaries(blocks)| != 1 then r.value in {NoPrimary, ManyPrimaries}
                        else Conflict(r.value)
  {
    hide DistinctIds, Agree, Primaries;
    r := RejectDuplicateIds(blocks);
    if r.Some? { return; }
    r := RequireExactlyOnePrimary(blocks);
    if r.Some? { return; }
    r := RejectConflictingEndpoints(blocks);
  }

  /** What the block says before the checks over all processes. */
  function Declared(raw: Yaml): Result<seq<Block>, TopologyError> {
    var processes :- RequireMapping(raw);
    if processes == [] then Err(EmptyProcesses) else BlocksOf(processes, [])
  }

  /** `parse_topology`: accepted exactly when it can be read and the processes fit
      together. */
  method ParseTopology(raw: Yaml) returns (r: Result<seq<Block>, TopologyError>)
    ensures Declared(raw).Err? ==> r == Declared(raw)
    ensures Declared(raw).Ok? ==> (r.Ok? <==> Sound(Declared(raw).value))
    ensures r.Ok? ==> r == Declared(raw) && Sound(r.value)
  {
    hide Sound, ValidId, ExpandedFrom, Blockwise;
    var processes :- RequireMapping(raw);
    if processes == [] { return Err(EmptyProcesses); }
    var blocks: seq<Block> := [];
    assert processes[0..] == processes;
    for i := 0 to |processes|
      invariant BlocksOf(processes, []) == BlocksOf(processes[i..], blocks)
    {
      assert processes[i..][1..] == processes[i + 1..];
      var (name, value) := processes[i];
      if !ValidId(name) { return Err(BadIdentifier); }
      var block :- RequireMapping(value);
      blocks :- Expand(name, block, blocks);
    }
    NoneBlockwise([]);
    BlocksOfBlockwise(processes, []);
    var wrong := CheckBlocks(blocks);
    if wrong.Some? { return Err(wrong.value); }
    return Ok(blocks);
  }

  lemma NoneBlockwise(blocks: seq<Block>)
    requires blocks == []
    ensures Blockwise(blocks)
  {}

  /** What holds of any two cells of an accepted topology that name one address. */
  lemma OneAddressOneSocket(blocks: seq<Block>, i: nat, j: nat, s: Spec, t: Spec)
    requires Sound(blocks) && i < |blocks| && j < |blocks|
    requires s in blocks[i].endpoints && t in blocks[j].endpoints && SameAddress(s, t)
    requires i != j || s != t
    ensures blocks[i].process != blocks[j].process
    ensures s.Key() == t.Key() && s.host == t.host && s.shared && t.shared
  {
    if i < j {
      assert Compatible(s, t);
    } else if j < i {
      assert Compatible(t, s) by { assert SameAddress(t, s); }
    } else {
      assert blocks[i] in blocks;
      SeparateAddresses(blocks[i].endpoints, s, t);
    }
  }

  lemma SeparateAddresses(endpoints: seq<Spec>, s: Spec, t: Spec)
    requires Separate(endpoints) && s in endpoints && t in endpoints && s != t && s.Listens() && t.Listens()
    ensures s.At() != t.At()
  {
    var p :| 0 <= p < |endpoints| && endpoints[p] == s;
    var q :| 0 <= q < |endpoints| && endpoints[q] == t;
    assert p < q ==> endpoints[p].At() != endpoints[q].At();
    assert q < p ==> endpoints[q].At() != endpoints[p].At();
  }

  /** A private address under `count` would be refused anyway: the check on it
      only gives the better message. */
  lemma CopiesOfPrivateAddressClash(blocks: seq<Block>, i: nat, j: nat, s: Spec)
    requires i < j < |blocks| && s in blocks[i].endpoints && s in blocks[j].endpoints && s.Listens() && !s.shared
    ensures !Agree(blocks)
  {
    assert SameAddress(s, s) && !Compatible(s, s);
  }

  // ------------------------------------------------------------------
  // The framework's own listener
  // ------------------------------------------------------------------

  lemma {:induction false} PrimaryExists(blocks: seq<Block>)
    ensures Primaries(blocks) != [] <==> exists i :: 0 <= i < |blocks| && blocks[i].primary
  {
    if blocks != [] {
      PrimaryExists(blocks[1..]);
      if exists i :: 0 <= i < |blocks| && blocks[i].primary {
        var i :| 0 <= i < |blocks| && blocks[i].primary;
        if i > 0 { assert blocks[1..][i - 1].primary; }
      }
      if exists i :: 0 <= i < |blocks[1..]| && blocks[1..][i].primary {
        var i :| 0 <= i < |blocks[1..]| && blocks[1..][i].primary;
        assert blocks[i + 1].primary;
      }
    }
  }

  ghost predicate FirstPrimary(blocks: seq<Block>, p: nat) {
    p < |blocks| && blocks[p].primary && forall i :: 0 <= i < p ==> !blocks[i].primary
  }

  method PrimaryIndex(blocks: seq<Block>) returns (p: nat)
    requires Primaries(blocks) != []
    ensures FirstPrimary(blocks, p)
  {
    PrimaryExists(blocks);
    p := 0;
    while !blocks[p].primary
      invariant p < |blocks| && forall i :: 0 <= i < p ==> !blocks[i].primary
      decreases |blocks| - p
    {
      assert exists i :: 0 <= i < |blocks| && blocks[i].primary;
      p := p + 1;
    }
  }

  predicate DeclaresKey(blocks: seq<Block>, key: (string, string)) {
    exists b :: b in blocks && exists s :: s in b.endpoints && s.Key() == key
  }

  /** The given options with the listener's own host and port. */
  function InternalOptions(options: seq<(string, Yaml)>, host: Option<string>, port: Option<int>): Yaml {
    Mapping(options + [("host", if host.Some? then Text(host.value) else Null), ("port", if port.Some? then Int(port.value) else Null)])
  }

  /** The blocks with one more cell on the primary. */
  function Placed(blocks: seq<Block>, p: nat, s: Spec): seq<Block>
    requires p < |blocks|
  {
    blocks[p := blocks[p].(endpoints := blocks[p].endpoints + [s])]
  }

  lemma {:induction false} PlacedKeepsPrimaries(blocks: seq<Block>, p: nat, s: Spec)
    requires p < |blocks|
    ensures Primaries(Placed(blocks, p, s)) == Primaries(blocks)
  {
    if p > 0 {
      PlacedKeepsPrimaries(blocks[1..], p - 1, s);
      assert Placed(blocks, p, s)[1..] == Placed(blocks[1..], p - 1, s);
    } else {
      assert Placed(blocks, p, s)[1..] == blocks[1..];
    }
  }

  lemma PlacedDictionary(endpoints: seq<Spec>, s: Spec)
    requires Dictionary(endpoints) && (s.shared ==> s.Listens()) && forall t :: t in endpoints ==> t.Key() != s.Key()
    ensures Dictionary(endpoints + [s])
  {}

  /** `with_internal_endpoint`: given a topology that fits together, the result, if
      there is one, fits together too, with the new cell on the primary and nothing
      else changed; it is refused exactly when the key is taken, the cell cannot be
      read, or the processes would no longer fit. */
  method WithInternalEndpoint(blocks: seq<Block>, kind: string, id: string, host: Option<string>,
        port: Option<int>, options: seq<(string, Yaml)>)
      returns (r: Result<seq<Block>, TopologyError>, ghost p: nat)
    requires Sound(blocks)
    ensures FirstPrimary(blocks, p)
    ensures var s := ParseEndpoint(kind, id, InternalOptions(options, host, port));
            r.Ok? <==> !DeclaresKey(blocks, (kind, id)) && s.Ok? && Sound(Placed(blocks, p, s.value))
    ensures r.Ok? ==> Sound(r.value)
    ensures r.Ok? ==> r.value == Placed(blocks, p, ParseEndpoint(kind, id, InternalOptions(options, host, port)).value)
  {
    hide Agree, Primaries, DistinctIds, ParseEndpoint, Separate, Dictionary;
    var primary := PrimaryIndex(blocks);
    p := primary;
    if DeclaresKey(blocks, (kind, id)) {
      r := Err(ReservedIsDeclared);
      return;
    }
    var cell := ParseEndpoint(kind, id, InternalOptions(options, host, port));
    if cell.Err? {
      r := Err(cell.error);
      return;
    }
    var s := cell.value;
    assert blocks[p] in blocks;
    EndpointKey(kind, id, InternalOptions(options, host, port));
    PlacedDictionary(blocks[p].endpoints, s);
    PlacedKeepsPrimaries(blocks, p, s);
    PlacedKeepsIds(blocks, p, s);
    var placed := Placed(blocks, primary, s);
    assert placed[p] in placed && placed[p].endpoints == blocks[p].endpoints + [s];
    var clash := RejectDuplicateEndpointWithinBlock(placed[primary].endpoints);
    if clash.Some? {
      r := Err(clash.value);
      return;
    }
    PlacedBlockwise(blocks, p, s);
    var conflict := RejectConflictingEndpoints(placed);
    r := if conflict.Some? then Err(conflict.value) else Ok(placed);
  }

  lemma EndpointKey(kind: string, id: string, raw: Yaml)
    ensures ParseEndpoint(kind, id, raw).Ok? ==>
              var s := ParseEndpoint(kind, id, raw).value; s.Key() == (kind, id) && (s.shared ==> s.Listens())
  {}

  lemma PlacedKeepsIds(blocks: seq<Block>, p: nat, s: Spec)
    requires p < |blocks| && DistinctIds(blocks)
    ensures DistinctIds(Placed(blocks, p, s))
  {}

  lemma PlacedBlockwise(blocks: seq<Block>, p: nat, s: Spec)
    requires p < |blocks| && Blockwise(blocks)
    requires Separate(blocks[p].endpoints + [s]) && Dictionary(blocks[p].endpoints + [s])
    ensures Blockwise(Placed(blocks, p, s))
  {
    hide Separate, Dictionary;
    var placed := Placed(blocks, p, s);
    forall b | b in placed ensures Separate(b.endpoints) && Dictionary(b.endpoints) {
      var i :| 0 <= i < |placed| && placed[i] == b;
      if i != p { assert blocks[i] in blocks; }
    }
  }

  // ------------------------------------------------------------------
  // One process
  // ------------------------------------------------------------------

  predicate HasKey(entries: seq<(string, Yaml)>, key: string) { Get(entries, key).Some? }

  /** `parse_single`: the keys that only mean something between several processes
      are refused, and what is left always fits together. */
  method ParseSingle(raw: Yaml) returns (r: Result<seq<Block>, TopologyError>)
    ensures r.Ok? ==> Sound(r.value) && |r.value| == 1 && r.value[0].primary
                      && forall s :: s in r.value[0].endpoints ==> !HasKey(s.options, "shared")
    ensures r.Ok? <==> raw.Mapping? && !HasKey(raw.entries, "primary") && !HasKey(raw.entries, "count")
                       && BlockOf("main", true, raw.entries).Ok?
                       && forall s :: s in BlockOf("main", true, raw.entries).value.endpoints ==> !HasKey(s.options, "shared")
  {
    hide BlockOf, Separate, Dictionary;
    var entries :- RequireMapping(raw);
    if HasKey(entries, "primary") || HasKey(entries, "count") { return Err(OnlyForMany); }
    var block :- ParseBlock("main", entries, true);
    for i := 0 to |block.endpoints|
      invariant forall j :: 0 <= j < i ==> !HasKey(block.endpoints[j].options, "shared")
    {
      if HasKey(block.endpoints[i].options, "shared") {
        assert block.endpoints[i] in block.endpoints;
        return Err(OnlyForMany);
      }
    }
    BlockOfBlockwise("main", true, entries);
    BlockOfPrimary("main", true, entries);
    OneBlockIsSound(block);
    return Ok([block]);
  }

  lemma BlockOfPrimary(process: string, primary: bool, raw: seq<(string, Yaml)>)
    ensures BlockOf(process, primary, raw).Ok? ==> BlockOf(process, primary, raw).value.primary == primary
  {}

  lemma OneBlockIsSound(b: Block)
    requires b.primary && Separate(b.endpoints) && Dictionary(b.endpoints)
    ensures Sound([b])
  {
    assert [b][1..] == [];
  }
}
