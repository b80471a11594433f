/** The static scan for calls that give each process its own value: which files it
    visits, what it collects in each, and what its verdict says
    (`_module_level.py`). A dotted name is its list of identifiers. */
module ModuleScan {
  import opened Wrappers

  type Dotted = seq<string>

  // ------------------------------------------------------------------
  // Source files
  // ------------------------------------------------------------------

  datatype Expr =
    | Name(id: string)
    | Attribute(value: Expr, attr: string)
    | Call(line: nat, fn: Expr, args: Exprs)
    | Other(children: Exprs)

  datatype Exprs = NoExprs | Exprs(head: Expr, tail: Exprs)

  datatype Alias = Alias(name: Dotted, asname: Option<string>)

  /** `outer` are the expressions a definition computes when it is met: decorators,
      defaults, bases, keyword values. A compound statement has expressions of its
      own and bodies: branches, loop bodies, handlers. */
  datatype Stmt =
    | Def(outer: Exprs, body: Stmts)
    | Class(outer: Exprs, body: Stmts)
    | MainGuard(body: Stmts)
    | Import(names: seq<Alias>)
    | ImportFrom(base: Option<Dotted>, level: nat, names: seq<Alias>)
    | Compound(exprs: Exprs, bodies: Bodies)

  datatype Stmts = NoStmts | Stmts(head: Stmt, tail: Stmts)

  datatype Bodies = NoBodies | Bodies(head: Stmts, tail: Bodies)

  datatype File = Unreadable | Source(body: Stmts)

  /** A file under the root, by its parts, or one elsewhere. */
  datatype Path = Inside(parts: seq<string>) | Outside(name: string)

  type Files = map<Path, File>

  // ------------------------------------------------------------------
  // Names
  // ------------------------------------------------------------------

  const EXACT_NAMES: set<Dotted> := {
    ["uuid", "uuid1"], ["uuid", "uuid4"], ["os", "urandom"], ["os", "getpid"],
    ["time", "time"], ["time", "time_ns"], ["time", "monotonic"], ["time", "monotonic_ns"],
    ["time", "perf_counter"], ["time", "perf_counter_ns"], ["time", "process_time"],
    ["datetime", "datetime", "now"], ["datetime", "datetime", "utcnow"], ["datetime", "datetime", "today"],
    ["datetime", "date", "today"]
  }

  predicate IsWatched(name: Dotted) {
    if name == ["random", "seed"] then false
    else if name in EXACT_NAMES then true
    else |name| > 1 && (name[0] == "random" || name[0] == "secrets")
  }

  /** `_dotted`. */
  function DottedOf(e: Expr): Option<Dotted> {
    match e
    case Name(id) => Some([id])
    case Attribute(value, attr) =>
      (match DottedOf(value) case None => None case Some(d) => Some(d + [attr]))
    case _ => None
  }

  function AddImports(names: seq<Alias>, known: map<string, Dotted>): map<string, Dotted> {
    if names == [] then known
    else
      var a := names[0];
      AddImports(names[1..],
        if a.asname.Some? then known[a.asname.value := a.name]
        else if a.name != [] then known[a.name[0] := [a.name[0]]]
        else known)
  }

  function AddFrom(base: Dotted, names: seq<Alias>, known: map<string, Dotted>): map<string, Dotted> {
    if names == [] then known
    else
      var a := names[0];
      AddFrom(base, names[1..],
        if a.asname.Some? then known[a.asname.value := base + a.name]
        else if a.name != [] then known[a.name[0] := base + a.name]
        else known)
  }

  function Bound(s: Stmt, known: map<string, Dotted>): map<string, Dotted> {
    match s
    case Import(names) => AddImports(names, known)
    case ImportFrom(base, level, names) => if base.Some? && level == 0 then AddFrom(base.value, names, known) else known
    case _ => known
  }

  /** `_aliases`: the imports among the outermost statements only. */
  function Aliases(body: Stmts, known: map<string, Dotted>): map<string, Dotted> {
    match body case NoStmts => known case Stmts(s, rest) => Aliases(rest, Bound(s, known))
  }

  /** `_canonical`. */
  function Canonical(e: Expr, aliases: map<string, Dotted>): Option<Dotted> {
    match DottedOf(e)
    case None => None
    case Some(d) => if d != [] && d[0] in aliases then Some(aliases[d[0]] + d[1..]) else None
  }

  // ------------------------------------------------------------------
  // What runs at import
  // ------------------------------------------------------------------

  function Append(a: Exprs, b: Exprs): Exprs {
    match a case NoExprs => b case Exprs(e, rest) => Exprs(e, Append(rest, b))
  }

  /** `_executed_at_import`. */
  function Executed(body: Stmts): Exprs {
    match body case NoStmts => NoExprs case Stmts(s, rest) => Append(ExecutedBy(s), Executed(rest))
  }

  function ExecutedBy(s: Stmt): Exprs {
    match s
    case Def(outer, _) => outer
    case Class(outer, body) => Append(outer, Executed(body))
    case MainGuard(_) => NoExprs
    case Import(_) | ImportFrom(_, _, _) => NoExprs
    case Compound(exprs, bodies) => Append(exprs, ExecutedIn(bodies))
  }

  function ExecutedIn(bodies: Bodies): Exprs {
    match bodies case NoBodies => NoExprs case Bodies(b, rest) => Append(Executed(b), ExecutedIn(rest))
  }

  datatype Finding = Finding(path: Path, line: nat, name: Dotted)

  function Watched(fn: Expr, aliases: map<string, Dotted>): Option<Dotted> {
    match Canonical(fn, aliases)
    case Some(name) => if IsWatched(name) then Some(name) else None
    case None => None
  }

  /** The watched calls anywhere inside an expression. */
  function CallsIn(path: Path, e: Expr, aliases: map<string, Dotted>): seq<Finding> {
    match e
    case Name(_) => []
    case Attribute(value, _) => CallsIn(path, value, aliases)
    case Call(line, fn, args) =>
      (match Watched(fn, aliases) case Some(name) => [Finding(path, line, name)] case None => [])
      + CallsIn(path, fn, aliases) + CallsInAll(path, args, aliases)
    case Other(children) => CallsInAll(path, children, aliases)
  }

  function CallsInAll(path: Path, es: Exprs, aliases: map<string, Dotted>): seq<Finding> {
    match es case NoExprs => [] case Exprs(e, rest) => CallsIn(path, e, aliases) + CallsInAll(path, rest, aliases)
  }

  /** What one file contributes. */
  function FindingsOf(path: Path, body: Stmts): seq<Finding> {
    CallsInAll(path, Executed(body), Aliases(body, map[]))
  }

  // ------------------------------------------------------------------
  // Following imports
  // ------------------------------------------------------------------

  /** `_with_ancestors`: every prefix, shortest first. */
  function WithAncestors(d: Dotted): seq<Dotted> {
    if d == [] then [] else WithAncestors(d[..|d| - 1]) + [d]
  }

  function AllWithAncestors(names: seq<Alias>): seq<Dotted> {
    if names == [] then [] else WithAncestors(names[0].name) + AllWithAncestors(names[1..])
  }

  function Members(base: Dotted, names: seq<Alias>): seq<Dotted> {
    if names == [] then [] else [base + names[0].name] + Members(base, names[1..])
  }

  /** Python's `parts[:n]`, which counts from the end when `n` is negative. */
  function Slice(parts: Dotted, n: int): Dotted {
    if n >= |parts| then parts
    else if n >= 0 then parts[..n]
    else if |parts| + n >= 0 then parts[..|parts| + n]
    else []
  }

  /** The package a `from` import names, relative ones resolved. */
  function BaseOf(base: Option<Dotted>, level: nat, package: Dotted): Dotted {
    var named := if base.Some? then base.value else [];
    if level == 0 then named else Slice(package, |package| - level + 1) + named
  }

  /** `_imported_modules`. */
  function Imported(body: Stmts, package: Dotted): seq<Dotted> {
    match body case NoStmts => [] case Stmts(s, rest) => ImportedBy(s, package) + Imported(rest, package)
  }

  function ImportedBy(s: Stmt, package: Dotted): seq<Dotted> {
    match s
    case Def(_, _) => []
    case MainGuard(_) => []
    case Import(names) => AllWithAncestors(names)
    case ImportFrom(base, level, names) =>
      var b := BaseOf(base, level, package);
      if b == [] then [] else WithAncestors(b) + Members(b, names)
    case Class(_, body) => Imported(body, package)
    case Compound(_, bodies) => ImportedIn(bodies, package)
  }

  function ImportedIn(bodies: Bodies, package: Dotted): seq<Dotted> {
    match bodies case NoBodies => [] case Bodies(b, rest) => Imported(b, package) + ImportedIn(rest, package)
  }

  /** `_find_module`: the module file, else the package's own. */
  function FindModule(d: Dotted, files: Files): Option<Path> {
    if d == [] then None
    else
      var asModule := Inside(d[..|d| - 1] + [d[|d| - 1] + ".py"]);
      var asPackage := Inside(d + ["__init__.py"]);
      if asModule in files then Some(asModule) else if asPackage in files then Some(asPackage) else None
  }

  /** `_package_of`, for a file inside the root. */
  function PackageOf(parts: seq<string>): Dotted { if parts == [] then [] else parts[..|parts| - 1] }

  function Found(names: seq<Dotted>, files: Files): seq<Path> {
    if names == [] then []
    else (match FindModule(names[0], files) case Some(p) => [p] case None => []) + Found(names[1..], files)
  }

  predicate Readable(files: Files, p: Path) { p in files && files[p].Source? }

  /** The files a file brings in. One that cannot be read brings in none, nor does
      one outside the root. */
  function Edges(files: Files, p: Path): seq<Path> {
    if Readable(files, p) && p.Inside? then Found(Imported(files[p].body, PackageOf(p.parts)), files) else []
  }

  ghost predicate Trail(files: Files, t: seq<Path>) {
    t != [] && forall i :: 0 <= i < |t| - 1 ==> t[i + 1] in Edges(files, t[i])
  }

  /** A file the program brings in when it starts at `entry`. */
  ghost predicate Reachable(files: Files, entry: Path, p: Path) {
    exists t :: Trail(files, t) && t[0] == entry && t[|t| - 1] == p
  }

  lemma {:induction false} FoundInFiles(names: seq<Dotted>, files: Files)
    ensures forall p :: p in Found(names, files) ==> p in files
  {
    if names != [] { FoundInFiles(names[1..], files); }
  }

  lemma EntryReachable(files: Files, entry: Path)
    ensures Reachable(files, entry, entry)
  {
    assert Trail(files, [entry]);
  }

  lemma StepReachable(files: Files, entry: Path, p: Path, q: Path)
    requires Reachable(files, entry, p) && q in Edges(files, p)
    ensures Reachable(files, entry, q)
  {
    hide Edges;
    var t :| Trail(files, t) && t[0] == entry && t[|t| - 1] == p;
    TrailSnoc(files, t, q);
    assert (t + [q])[0] == entry && (t + [q])[|t + [q]| - 1] == q;
  }

  lemma TrailSnoc(files: Files, t: seq<Path>, q: Path)
    requires Trail(files, t) && q in Edges(files, t[|t| - 1])
    ensures Trail(files, t + [q])
  {
    hide Edges;
    var u := t + [q];
    forall i | 0 <= i < |u| - 1 ensures u[i + 1] in Edges(files, u[i]) {
      if i < |t| - 1 { assert u[i] == t[i] && u[i + 1] == t[i + 1]; }
    }
  }

  /** A set with the entry, closed under imports, holds everything reachable. */
  lemma {:induction false} ClosedHolds(files: Files, seen: set<Path>, t: seq<Path>)
    requires Trail(files, t) && t[0] in seen
    requires forall p, q :: p in seen && q in Edges(files, p) ==> q in seen
    ensures t[|t| - 1] in seen
    decreases |t|
  {
    hide Edges;
    if |t| > 1 {
      assert t[0 + 1] in Edges(files, t[0]);
      forall i | 0 <= i < |t[1..]| - 1 ensures t[1..][i + 1] in Edges(files, t[1..][i]) {
        assert t[i + 1 + 1] in Edges(files, t[i + 1]);
      }
      ClosedHolds(files, seen, t[1..]);
    }
  }

  // ------------------------------------------------------------------
  // The scan
  // ------------------------------------------------------------------

  datatype Verdict = Inconclusive | Violations | Clean

  datatype ScanResult = ScanResult(findings: seq<Finding>, scanned: seq<Path>, unreadable: seq<Path>)
  {
    function Verdict(): Verdict {
      if unreadable != [] || scanned == [] then Inconclusive
      else if findings != [] then Violations
      else Clean
    }
  }

  predicate Distinct(ps: seq<Path>) { forall i, j :: 0 <= i < j < |ps| ==> ps[i] != ps[j] }

  /** The findings of the files scanned, in that order. */
  function AllFindings(files: Files, ps: seq<Path>): seq<Finding>
    requires forall p :: p in ps ==> Readable(files, p)
  {
    if ps == [] then []
    else
      var last := ps[|ps| - 1];
      assert last in ps && Readable(files, last);
      AllFindings(files, ps[..|ps| - 1]) + FindingsOf(last, files[last].body)
  }

  /** How far a scan has come: the files seen and the files to look at. */
  ghost predicate Progress(files: Files, entry: Path, seen: set<Path>, queue: seq<Path>,
        scanned: seq<Path>, unreadable: seq<Path>)
  {
    && (entry in seen || entry in queue)
    && (forall p :: p in seen || p in queue ==> Reachable(files, entry, p) && (p in files || p == entry))
    && (forall p, q :: p in seen && q in Edges(files, p) ==> q in seen || q in queue)
    && (forall p :: p in scanned <==> p in seen && Readable(files, p))
    && (forall p :: p in unreadable <==> p in seen && !Readable(files, p))
    && Distinct(scanned) && Distinct(unreadable)
  }

  lemma VisitKeeps(files: Files, entry: Path, seen: set<Path>, queue: seq<Path>, scanned: seq<Path>,
        unreadable: seq<Path>, more: seq<Path>)
    requires Progress(files, entry, seen, queue, scanned, unreadable) && queue != [] && queue[0] !in seen
    requires forall q :: q in more ==> q in Edges(files, queue[0])
    requires forall q :: q in Edges(files, queue[0]) ==> q in more || q in seen || q == queue[0]
    ensures Progress(files, entry, seen + {queue[0]}, queue[1..] + more,
              if Readable(files, queue[0]) then scanned + [queue[0]] else scanned,
              if Readable(files, queue[0]) then unreadable else unreadable + [queue[0]])
  {
    hide Reachable, Edges, Readable, Distinct;
    var path := queue[0];
    assert queue == [path] + queue[1..];
    DistinctSnoc(scanned, path);
    DistinctSnoc(unreadable, path);
    forall q | q in more ensures Reachable(files, entry, q) && q in files {
      StepReachable(files, entry, path, q);
      EdgesInFiles(files, path);
    }
  }

  lemma DistinctSnoc(ps: seq<Path>, p: Path)
    requires Distinct(ps) && p !in ps
    ensures Distinct(ps + [p])
  {}

  lemma EdgesInFiles(files: Files, p: Path)
    ensures forall q :: q in Edges(files, p) ==> q in files
  {
    if Readable(files, p) && p.Inside? { FoundInFiles(Imported(files[p].body, PackageOf(p.parts)), files); }
  }

  lemma SkipKeeps(files: Files, entry: Path, seen: set<Path>, queue: seq<Path>, scanned: seq<Path>,
        unreadable: seq<Path>)
    requires Progress(files, entry, seen, queue, scanned, unreadable) && queue != [] && queue[0] in seen
    ensures Progress(files, entry, seen, queue[1..], scanned, unreadable)
  {
    hide Reachable, Edges, Readable;
    assert queue == [queue[0]] + queue[1..];
  }

  /** The modules of `names` that are files and not yet seen, in order. */
  method Pending(names: seq<Dotted>, files: Files, seen: set<Path>) returns (more: seq<Path>)
    ensures forall q :: q in more <==> q in Found(names, files) && q !in seen
  {
    more := [];
    assert names[..0] == [];
    for i := 0 to |names|
      invariant forall q :: q in more <==> q in Found(names[..i], files) && q !in seen
    {
      FoundSnoc(names[..i], names[i], files);
      assert names[..i] + [names[i]] == names[..i + 1];
      var found := FindModule(names[i], files);
      if found.Some? && found.value !in seen {
        more := more + [found.value];
      }
    }
    assert names[..|names|] == names;
  }

  lemma {:induction false} FoundSnoc(names: seq<Dotted>, d: Dotted, files: Files)
    ensures Found(names + [d], files) == Found(names, files) + match FindModule(d, files) case Some(p) => [p] case None => []
  {
    hide FindModule;
    if names == [] {
      assert names + [d] == [d] && [d][1..] == [];
    } else {
      FoundSnoc(names[1..], d, files);
      assert (names + [d])[1..] == names[1..] + [d];
    }
  }

  /** Every file the program brings in was visited, once, and no other; `scanned`
      and `unreadable` split them; the findings are those of all that was read. */
  ghost predicate Complete(files: Files, entry: Path, r: ScanResult) {
    && (forall p :: p in r.scanned || p in r.unreadable <==> Reachable(files, entry, p))
    && (forall p :: p in r.scanned ==> Readable(files, p))
    && (forall p :: p in r.unreadable ==> !Readable(files, p))
    && Distinct(r.scanned) && Distinct(r.unreadable)
    && r.findings == AllFindings(files, r.scanned)
  }

  /** `scan`: it ends, and its result is complete. */
  method Scan(files: Files, entry: Path) returns (r: ScanResult)
    ensures Complete(files, entry, r)
  {
    hide Reachable, Edges, Progress, FindingsOf, FindModule;
    var findings: seq<Finding>, scanned: seq<Path>, unreadable: seq<Path> := [], [], [];
    var seen: set<Path> := {};
    var queue := [entry];
    ghost var universe := files.Keys + {entry};
    ScanBegins(files, entry);
    while queue != []
      invariant Progress(files, entry, seen, queue, scanned, unreadable)
      invariant seen <= universe
      invariant forall p :: p in scanned ==> Readable(files, p)
      invariant findings == AllFindings(files, scanned)
      decreases |universe - seen|, |queue|
    {
      var path := queue[0];
      if path in seen {
        SkipKeeps(files, entry, seen, queue, scanned, unreadable);
        queue := queue[1..];
        continue;
      }
      QueuedIsKnown(files, entry, seen, queue, scanned, unreadable);
      SmallerSet(universe, seen, path);
      if !Readable(files, path) {
        NoEdges(files, path);
        VisitKeeps(files, entry, seen, queue, scanned, unreadable, []);
        assert queue[1..] + [] == queue[1..];
        seen, unreadable, queue := seen + {path}, unreadable + [path], queue[1..];
        continue;
      }
      var body := files[path].body;
      var more: seq<Path> := [];
      if path.Inside? {
        more := Pending(Imported(body, PackageOf(path.parts)), files, seen + {path});
      }
      EdgesAre(files, path);
      VisitKeeps(files, entry, seen, queue, scanned, unreadable, more);
      assert (scanned + [path])[..|scanned|] == scanned;
      findings := findings + FindingsOf(path, body);
      seen, scanned, queue := seen + {path}, scanned + [path], queue[1..] + more;
    }
    ScanEnds(files, entry, seen, scanned, unreadable);
    r := ScanResult(findings, scanned, unreadable);
  }

  lemma ScanBegins(files: Files, entry: Path)
    ensures Progress(files, entry, {}, [entry], [], [])
  {
    EntryReachable(files, entry);
  }

  lemma QueuedIsKnown(files: Files, entry: Path, seen: set<Path>, queue: seq<Path>, scanned: seq<Path>,
        unreadable: seq<Path>)
    requires Progress(files, entry, seen, queue, scanned, unreadable) && queue != []
    ensures queue[0] in files || queue[0] == entry
  {}

  lemma SmallerSet(universe: set<Path>, seen: set<Path>, path: Path)
    requires path in universe && path !in seen
    ensures |universe - (seen + {path})| < |universe - seen|
  {
    assert universe - seen == (universe - (seen + {path})) + {path};
  }

  lemma NoEdges(files: Files, p: Path)
    requires !Readable(files, p)
    ensures Edges(files, p) == []
  {}

  lemma EdgesAre(files: Files, p: Path)
    requires Readable(files, p)
    ensures Edges(files, p) == if p.Inside? then Found(Imported(files[p].body, PackageOf(p.parts)), files) else []
  {}

  lemma ScanEnds(files: Files, entry: Path, seen: set<Path>, scanned: seq<Path>, unreadable: seq<Path>)
    requires Progress(files, entry, seen, [], scanned, unreadable)
    ensures forall p :: p in scanned || p in unreadable <==> Reachable(files, entry, p)
    ensures forall p :: p in scanned ==> Readable(files, p)
    ensures forall p :: p in unreadable ==> !Readable(files, p)
    ensures Distinct(scanned) && Distinct(unreadable)
  {
    hide Edges, Readable;
    forall p | Reachable(files, entry, p) ensures p in seen {
      var t :| Trail(files, t) && t[0] == entry && t[|t| - 1] == p;
      ClosedHolds(files, seen, t);
    }
  }

  lemma {:induction false} FindingsFromFiles(files: Files, ps: seq<Path>)
    requires forall p :: p in ps ==> Readable(files, p)
    ensures forall f :: f in AllFindings(files, ps) <==> exists p :: p in ps && f in FindingsOf(p, files[p].body)
  {
    hide FindingsOf;
    if ps != [] {
      var last := ps[|ps| - 1];
      FindingsFromFiles(files, ps[..|ps| - 1]);
      assert ps == ps[..|ps| - 1] + [last];
    }
  }

  lemma {:induction false} NoFindings(files: Files, ps: seq<Path>, p: Path)
    requires (forall q :: q in ps ==> Readable(files, q)) && AllFindings(files, ps) == [] && p in ps
    ensures FindingsOf(p, files[p].body) == []
  {
    hide FindingsOf;
    if p != ps[|ps| - 1] {
      assert ps == ps[..|ps| - 1] + [ps[|ps| - 1]];
      NoFindings(files, ps[..|ps| - 1], p);
    }
  }

  /** Clean means: every file the program brings in was read, and none of them has
      a watched call among what runs at import. */
  lemma CleanMeansAllReadAndQuiet(files: Files, entry: Path, r: ScanResult)
    requires Complete(files, entry, r)
    ensures r.Verdict() == Clean <==>
            forall p :: Reachable(files, entry, p) ==> Readable(files, p) && FindingsOf(p, files[p].body) == []
    ensures r.Verdict() == Inconclusive <==> exists p :: Reachable(files, entry, p) && !Readable(files, p)
  {
    hide Reachable, FindingsOf;
    EntryReachable(files, entry);
    assert entry in r.scanned || entry in r.unreadable;
    FindingsFromFiles(files, r.scanned);
    NonEmpty(r.unreadable);
    NonEmpty(r.findings);
    if r.findings == [] {
      forall p | p in r.scanned ensures FindingsOf(p, files[p].body) == [] {
        NoFindings(files, r.scanned, p);
      }
    }
  }

  lemma NonEmpty<T(!new)>(s: seq<T>)
    ensures s != [] <==> exists x :: x in s
  {
    if s != [] { assert s[0] in s; }
  }

  // ------------------------------------------------------------------
  // A name imported in an inner block
  // ------------------------------------------------------------------

  /** The names a module has bound: those of the imports in its inner blocks, too.
      A function, a class and the main guard bind none of the module's names. */
  function Deep(body: Stmts, known: map<string, Dotted>): map<string, Dotted> {
    match body case NoStmts => known case Stmts(s, rest) => Deep(rest, DeepBy(s, known))
  }

  function DeepBy(s: Stmt, known: map<string, Dotted>): map<string, Dotted> {
    match s case Compound(_, bodies) => DeepIn(bodies, known) case _ => Bound(s, known)
  }

  function DeepIn(bodies: Bodies, known: map<string, Dotted>): map<string, Dotted> {
    match bodies case NoBodies => known case Bodies(b, rest) => DeepIn(rest, Deep(b, known))
  }

  function DeepFindingsOf(path: Path, body: Stmts): seq<Finding> {
    CallsInAll(path, Executed(body), Deep(body, map[]))
  }

  predicate ImportFree(body: Stmts) {
    match body case NoStmts => true case Stmts(s, rest) => ImportFreeBy(s) && ImportFree(rest)
  }

  predicate ImportFreeBy(s: Stmt) {
    match s
    case Import(_) | ImportFrom(_, _, _) => false
    case Compound(_, bodies) => ImportFreeIn(bodies)
    case _ => true
  }

  predicate ImportFreeIn(bodies: Bodies) {
    match bodies case NoBodies => true case Bodies(b, rest) => ImportFree(b) && ImportFreeIn(rest)
  }

  /** No import stands in an inner block. */
  predicate Flat(body: Stmts) {
    match body case NoStmts => true case Stmts(s, rest) => (s.Compound? ==> ImportFreeIn(s.bodies)) && Flat(rest)
  }

  lemma {:induction false} ImportFreeBinds(body: Stmts, known: map<string, Dotted>)
    requires ImportFree(body)
    ensures Deep(body, known) == known
  {
    match body
    case NoStmts =>
    case Stmts(s, rest) =>
      if s.Compound? { ImportFreeBindsIn(s.bodies, known); }
      ImportFreeBinds(rest, known);
  }

  lemma {:induction false} ImportFreeBindsIn(bodies: Bodies, known: map<string, Dotted>)
    requires ImportFreeIn(bodies)
    ensures DeepIn(bodies, known) == known
  {
    match bodies
    case NoBodies =>
    case Bodies(b, rest) =>
      ImportFreeBinds(b, known);
      ImportFreeBindsIn(rest, known);
  }

  lemma {:induction false} FlatBindsAlike(body: Stmts, known: map<string, Dotted>)
    requires Flat(body)
    ensures Deep(body, known) == Aliases(body, known)
  {
    match body
    case NoStmts =>
    case Stmts(s, rest) =>
      if s.Compound? { ImportFreeBindsIn(s.bodies, known); }
      FlatBindsAlike(rest, Bound(s, known));
  }

  /** All names are read alike by two tables exactly when the tables are equal. */
  lemma SameNamesExactlyWhenSameTable(a: map<string, Dotted>, b: map<string, Dotted>)
    ensures (forall e :: Canonical(e, a) == Canonical(e, b)) <==> a == b
  {
    if forall e :: Canonical(e, a) == Canonical(e, b) {
      forall id ensures (id in a <==> id in b) && (id in a ==> a[id] == b[id]) {
        assert DottedOf(Name(id)) == Some([id]) && [id][1..] == [];
        assert Canonical(Name(id), a) == Canonical(Name(id), b);
        assert id in a ==> a[id] + [] == a[id];
        assert id in b ==> b[id] + [] == b[id];
      }
    }
  }

  /** Some watched name starts with `target`. */
  predicate LeadsToWatched(target: Dotted) {
    target == [] || target[0] == "random" || target[0] == "secrets" || exists n :: n in EXACT_NAMES && target <= n
  }

  lemma WatchedExtension(target: Dotted)
    ensures LeadsToWatched(target) <==> exists rest :: IsWatched(target + rest)
  {
    if target == [] {
      var d := ["random", "x"];
      assert d[1] != ["random", "seed"][1] && IsWatched(d) && target + d == d;
    } else if target[0] == "random" || target[0] == "secrets" {
      var d := target + ["x"];
      assert d[|d| - 1] == "x" && d[0] == target[0];
      assert IsWatched(target + ["x"]);
    } else if LeadsToWatched(target) {
      var n :| n in EXACT_NAMES && target <= n;
      assert target + n[|target|..] == n;
      assert n[0] == target[0];
      assert IsWatched(target + n[|target|..]);
    } else {
      forall rest ensures !IsWatched(target + rest) {
        assert (target + rest)[0] == target[0];
        assert target <= target + rest;
      }
    }
  }

  function TargetOf(id: string, aliases: map<string, Dotted>): Option<Dotted> {
    if id in aliases then Some(aliases[id]) else None
  }

  predicate Matters(target: Option<Dotted>) { target.Some? && LeadsToWatched(target.value) }

  /** Every name has one target in both tables, or none of its targets leads to a
      watched name. */
  ghost predicate AgreeOnWatched(a: map<string, Dotted>, b: map<string, Dotted>) {
    forall id :: TargetOf(id, a) == TargetOf(id, b) || (!Matters(TargetOf(id, a)) && !Matters(TargetOf(id, b)))
  }

  function ExprOf(d: Dotted): (e: Expr)
    requires d != []
    ensures DottedOf(e) == Some(d)
  {
    assert d == d[..|d| - 1] + [d[|d| - 1]];
    if |d| == 1 then Name(d[0]) else Attribute(ExprOf(d[..|d| - 1]), d[|d| - 1])
  }

  lemma TellApart(id: string, a: map<string, Dotted>, b: map<string, Dotted>) returns (e: Expr)
    requires TargetOf(id, a) != TargetOf(id, b) && Matters(TargetOf(id, a))
    ensures Watched(e, a) != Watched(e, b) && DottedOf(e).Some?
  {
    hide LeadsToWatched, IsWatched;
    WatchedExtension(a[id]);
    var rest :| IsWatched(a[id] + rest);
    var d := [id] + rest;
    e := ExprOf(d);
    assert d[0] == id && d[1..] == rest;
    if id in b && a[id] + rest == b[id] + rest { SameHead(a[id], b[id], rest); }
  }

  lemma SameHead(x: Dotted, y: Dotted, rest: Dotted)
    requires x + rest == y + rest
    ensures x == y
  {
    assert x == (x + rest)[..|x + rest| - |rest|] && y == (y + rest)[..|y + rest| - |rest|];
  }

  lemma ReadAlike(e: Expr, a: map<string, Dotted>, b: map<string, Dotted>)
    requires AgreeOnWatched(a, b)
    ensures Watched(e, a) == Watched(e, b)
  {
    hide LeadsToWatched, IsWatched;
    var d := DottedOf(e);
    if d.Some? && d.value != [] {
      var id := d.value[0];
      assert TargetOf(id, a) == TargetOf(id, b) || (!Matters(TargetOf(id, a)) && !Matters(TargetOf(id, b)));
      if id in a { WatchedExtension(a[id]); }
      if id in b { WatchedExtension(b[id]); }
    }
  }

  lemma {:induction false} FoundAlike(path: Path, e: Expr, a: map<string, Dotted>, b: map<string, Dotted>)
    requires AgreeOnWatched(a, b)
    ensures CallsIn(path, e, a) == CallsIn(path, e, b)
  {
    hide AgreeOnWatched, Watched;
    match e
    case Name(_) =>
    case Attribute(value, _) => FoundAlike(path, value, a, b);
    case Call(_, fn, args) =>
      ReadAlike(fn, a, b);
      FoundAlike(path, fn, a, b);
      AllFoundAlike(path, args, a, b);
    case Other(children) => AllFoundAlike(path, children, a, b);
  }

  lemma {:induction false} AllFoundAlike(path: Path, es: Exprs, a: map<string, Dotted>, b: map<string, Dotted>)
    requires AgreeOnWatched(a, b)
    ensures CallsInAll(path, es, a) == CallsInAll(path, es, b)
  {
    hide AgreeOnWatched;
    match es
    case NoExprs =>
    case Exprs(e, rest) =>
      FoundAlike(path, e, a, b);
      AllFoundAlike(path, rest, a, b);
  }

  /** The same module with the expressions `uses` computed at its end. */
  function Then(body: Stmts, uses: Exprs): Stmts {
    match body
    case NoStmts => Stmts(Compound(uses, NoBodies), NoStmts)
    case Stmts(s, rest) => Stmts(s, Then(rest, uses))
  }

  lemma {:induction false} ThenBinds(body: Stmts, uses: Exprs, known: map<string, Dotted>)
    ensures Aliases(Then(body, uses), known) == Aliases(body, known)
    ensures Deep(Then(body, uses), known) == Deep(body, known)
  {
    match body
    case NoStmts =>
      assert DeepIn(NoBodies, known) == known;
      assert Deep(NoStmts, known) == known && Aliases(NoStmts, known) == known;
    case Stmts(s, rest) =>
      ThenBinds(rest, uses, Bound(s, known));
      ThenBinds(rest, uses, DeepBy(s, known));
  }

  lemma {:induction false} AppendNone(a: Exprs)
    ensures Append(a, NoExprs) == a
  {
    match a case NoExprs => case Exprs(_, rest) => AppendNone(rest);
  }

  lemma {:induction false} AppendAppend(a: Exprs, b: Exprs, c: Exprs)
    ensures Append(Append(a, b), c) == Append(a, Append(b, c))
  {
    match a case NoExprs => case Exprs(_, rest) => AppendAppend(rest, b, c);
  }

  lemma {:induction false} ThenExecutes(body: Stmts, uses: Exprs)
    ensures Executed(Then(body, uses)) == Append(Executed(body), uses)
  {
    match body
    case NoStmts =>
      assert ExecutedIn(NoBodies) == NoExprs && Executed(NoStmts) == NoExprs;
      AppendNone(uses);
    case Stmts(s, rest) =>
      ThenExecutes(rest, uses);
      AppendAppend(ExecutedBy(s), Executed(rest), uses);
  }

  lemma {:induction false} CallsInAppend(path: Path, a: Exprs, b: Exprs, aliases: map<string, Dotted>)
    ensures CallsInAll(path, Append(a, b), aliases) == CallsInAll(path, a, aliases) + CallsInAll(path, b, aliases)
  {
    match a case NoExprs => case Exprs(_, rest) => CallsInAppend(path, rest, b, aliases);
  }

  lemma ThenFinds(path: Path, body: Stmts, uses: Exprs)
    ensures FindingsOf(path, Then(body, uses)) == FindingsOf(path, body) + CallsInAll(path, uses, Aliases(body, map[]))
    ensures DeepFindingsOf(path, Then(body, uses)) == DeepFindingsOf(path, body) + CallsInAll(path, uses, Deep(body, map[]))
  {
    ThenBinds(body, uses, map[]);
    ThenExecutes(body, uses);
    CallsInAppend(path, Executed(body), uses, Aliases(body, map[]));
    CallsInAppend(path, Executed(body), uses, Deep(body, map[]));
  }

  /** A dotted name holds no call of its own, so calling it gives one finding or none. */
  lemma {:induction false} NamesHoldNoCall(path: Path, e: Expr, aliases: map<string, Dotted>)
    requires DottedOf(e).Some?
    ensures CallsIn(path, e, aliases) == []
  {
    match e case Name(_) => case Attribute(value, _) => NamesHoldNoCall(path, value, aliases);
  }

  lemma CallOfName(path: Path, line: nat, e: Expr, aliases: map<string, Dotted>)
    requires DottedOf(e).Some?
    ensures CallsInAll(path, Exprs(Call(line, e, NoExprs), NoExprs), aliases)
         == match Watched(e, aliases) case Some(name) => [Finding(path, line, name)] case None => []
  {
    hide Watched;
    NamesHoldNoCall(path, e, aliases);
    assert CallsInAll(path, NoExprs, aliases) == [];
  }

  /** Whatever the module then calls, the findings are those of the names it has
      bound. */
  ghost predicate FindsWhatIsBound(body: Stmts) {
    forall path, uses :: FindingsOf(path, Then(body, uses)) == DeepFindingsOf(path, Then(body, uses))
  }

  lemma BoundIsMissed(path: Path, body: Stmts, id: string)
    requires var a, b := Aliases(body, map[]), Deep(body, map[]);
             TargetOf(id, a) != TargetOf(id, b) && (Matters(TargetOf(id, a)) || Matters(TargetOf(id, b)))
    ensures !FindsWhatIsBound(body)
  {
    hide LeadsToWatched, Watched, FindingsOf, DeepFindingsOf, Then, CallsInAll;
    var a, b := Aliases(body, map[]), Deep(body, map[]);
    var e;
    if Matters(TargetOf(id, a)) { e := TellApart(id, a, b); } else { e := TellApart(id, b, a); }
    var uses := Exprs(Call(0, e, NoExprs), NoExprs);
    CallOfName(path, 0, e, a);
    CallOfName(path, 0, e, b);
    ThenFinds(path, body, NoExprs);
    ThenFinds(path, body, uses);
    if FindsWhatIsBound(body) {
      assert FindingsOf(path, Then(body, uses)) == DeepFindingsOf(path, Then(body, uses));
      assert FindingsOf(path, Then(body, NoExprs)) == DeepFindingsOf(path, Then(body, NoExprs));
      NothingAdded(path, a);
      NothingAdded(path, b);
      SameTail(FindingsOf(path, body), CallsInAll(path, uses, a), CallsInAll(path, uses, b));
    }
  }

  lemma NothingAdded(path: Path, aliases: map<string, Dotted>)
    ensures CallsInAll(path, NoExprs, aliases) == []
  {}

  lemma SameTail(x: seq<Finding>, y: seq<Finding>, z: seq<Finding>)
    requires x + y == x + z
    ensures y == z
  {
    assert y == (x + y)[|x|..] && z == (x + z)[|x|..];
  }

  /** The scan finds, whatever a module then calls, what its bound names call for
      exactly when its outermost imports and all its imports agree on every name
      that can lead to a watched one. */
  lemma InnerImportsMatterExactly(body: Stmts)
    ensures FindsWhatIsBound(body) <==> AgreeOnWatched(Aliases(body, map[]), Deep(body, map[]))
    ensures Flat(body) ==> FindsWhatIsBound(body)
  {
    hide FindingsOf, DeepFindingsOf, Matters, Then;
    var a, b := Aliases(body, map[]), Deep(body, map[]);
    if Flat(body) { FlatBindsAlike(body, map[]); }
    if AgreeOnWatched(a, b) {
      hide AgreeOnWatched;
      forall path, uses ensures FindingsOf(path, Then(body, uses)) == DeepFindingsOf(path, Then(body, uses)) {
        FoundAlikeAtEnd(path, body, uses);
      }
    } else {
      hide FindsWhatIsBound;
      var id :| !(TargetOf(id, a) == TargetOf(id, b) || (!Matters(TargetOf(id, a)) && !Matters(TargetOf(id, b))));
      BoundIsMissed(Outside(""), body, id);
    }
  }

  lemma FoundAlikeAtEnd(path: Path, body: Stmts, uses: Exprs)
    requires AgreeOnWatched(Aliases(body, map[]), Deep(body, map[]))
    ensures FindingsOf(path, Then(body, uses)) == DeepFindingsOf(path, Then(body, uses))
  {
    ThenBinds(body, uses, map[]);
    AllFoundAlike(path, Executed(Then(body, uses)), Aliases(body, map[]), Deep(body, map[]));
  }

  /** When that holds of every file read, a clean verdict speaks of the names bound
      in inner blocks as well. */
  lemma CleanSpeaksOfInnerImports(files: Files, entry: Path, r: ScanResult)
    requires Complete(files, entry, r)
    requires forall p :: p in r.scanned ==> AgreeOnWatched(Aliases(files[p].body, map[]), Deep(files[p].body, map[]))
    ensures r.Verdict() == Clean <==>
            forall p :: Reachable(files, entry, p) ==> Readable(files, p) && DeepFindingsOf(p, files[p].body) == []
  {
    hide Reachable, FindingsOf, DeepFindingsOf, AgreeOnWatched, AllFindings;
    CleanMeansAllReadAndQuiet(files, entry, r);
    forall p | Reachable(files, entry, p) && Readable(files, p)
      ensures FindingsOf(p, files[p].body) == DeepFindingsOf(p, files[p].body)
    {
      assert p in r.scanned || p in r.unreadable;
      SameFindings(p, files[p].body);
    }
  }

  lemma SameFindings(path: Path, body: Stmts)
    requires AgreeOnWatched(Aliases(body, map[]), Deep(body, map[]))
    ensures FindingsOf(path, body) == DeepFindingsOf(path, body)
  {
    AllFoundAlike(path, Executed(body), Aliases(body, map[]), Deep(body, map[]));
  }

  /** The call runs at import and the import is followed, yet the name is looked up
      among the outermost imports only: the same two lines count or do not count
      by where the import stands. */
  lemma InnerImportIsNotResolved(path: Path, line: nat)
    ensures var use := Compound(Exprs(Call(line, Name("time"), NoExprs), NoExprs), NoBodies);
            var imp := ImportFrom(Some(["time"]), 0, [Alias(["time"], None)]);
            var inner := Compound(NoExprs, Bodies(Stmts(imp, NoStmts), NoBodies));
            && FindingsOf(path, Stmts(imp, Stmts(use, NoStmts))) == [Finding(path, line, ["time", "time"])]
            && FindingsOf(path, Stmts(inner, Stmts(use, NoStmts))) == []
            && Imported(Stmts(inner, Stmts(use, NoStmts)), []) == Imported(Stmts(imp, Stmts(use, NoStmts)), [])
  {
    var use := Compound(Exprs(Call(line, Name("time"), NoExprs), NoExprs), NoBodies);
    var imp := ImportFrom(Some(["time"]), 0, [Alias(["time"], None)]);
    var inner := Compound(NoExprs, Bodies(Stmts(imp, NoStmts), NoBodies));
    var e := Call(line, Name("time"), NoExprs);
    var tail := Stmts(use, NoStmts);
    assert Append(NoExprs, NoExprs) == NoExprs && ExecutedIn(NoBodies) == NoExprs && Executed(NoStmts) == NoExprs;
    assert Append(Exprs(e, NoExprs), NoExprs) == Exprs(e, NoExprs);
    assert ExecutedBy(use) == Exprs(e, NoExprs);
    assert Executed(tail) == Exprs(e, NoExprs);
    assert ExecutedBy(imp) == NoExprs && Executed(Stmts(imp, NoStmts)) == NoExprs;
    assert ExecutedIn(Bodies(Stmts(imp, NoStmts), NoBodies)) == NoExprs;
    assert ExecutedBy(inner) == NoExprs;
    var whole := map["time" := ["time", "time"]];
    var one := [Alias(["time"], None)];
    assert one[1..] == [] && ["time"] + ["time"] == ["time", "time"];
    assert AddFrom(["time"], one, map[]) == AddFrom(["time"], [], map["time" := ["time", "time"]]) == whole;
    var none: map<string, Dotted> := map[];
    assert Aliases(NoStmts, whole) == whole && Aliases(NoStmts, none) == none;
    assert Aliases(tail, whole) == Aliases(NoStmts, whole) && Aliases(tail, none) == Aliases(NoStmts, none);
    assert Aliases(Stmts(imp, tail), none) == whole && Aliases(Stmts(inner, tail), none) == none;
    OneCall(path, line, whole);
    OneCall(path, line, map[]);
    assert Imported(Stmts(imp, NoStmts), []) == ImportedBy(imp, []) + [] == ImportedBy(imp, []);
    assert ImportedIn(NoBodies, []) == [];
    assert ImportedIn(Bodies(Stmts(imp, NoStmts), NoBodies), []) == ImportedBy(imp, []) + [] == ImportedBy(imp, []);
  }

  lemma OneCall(path: Path, line: nat, aliases: map<string, Dotted>)
    requires aliases == map[] || aliases == map["time" := ["time", "time"]]
    ensures CallsInAll(path, Exprs(Call(line, Name("time"), NoExprs), NoExprs), aliases)
         == if aliases == map[] then [] else [Finding(path, line, ["time", "time"])]
  {
    assert ["time"][1..] == [] && ["time", "time"] + [] == ["time", "time"];
    assert CallsInAll(path, NoExprs, aliases) == [] && CallsIn(path, Name("time"), aliases) == [];
    assert DottedOf(Name("time")) == Some(["time"]);
    assert IsWatched(["time", "time"]);
    if aliases == map[] {
      assert Canonical(Name("time"), aliases) == None;
    } else {
      assert "time" in aliases;
      assert Canonical(Name("time"), aliases) == Some(["time", "time"]);
    }
  }
}
