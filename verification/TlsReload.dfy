/** `TlsContextReloader`: a listener's certificate, key and CA bundle replaced while
    others write the files (`_tls_reload.py`). */
module TlsReload {
  import opened Wrappers

  // ------------------------------------------------------------------
  // Files that change underneath
  // ------------------------------------------------------------------

  datatype Slot = Certificate | PrivateKey | CaBundle

  type Path = nat

  /** A file is missing, or has an identity (device, inode, size, time) and a content. */
  datatype File = Missing | File(stat: nat, content: nat)

  /** At every instant: the file each configured path resolves to, and what is there. */
  datatype Disk = Disk(link: (Slot, nat) -> Option<Path>, file: (Path, nat) -> File)

  datatype Found = Nothing | Found(path: Path, stat: nat, content: nat)

  function Find(disk: Disk, slot: Slot, t: nat): Found {
    match disk.link(slot, t)
    case None => Nothing
    case Some(path) =>
      (match disk.file(path, t) case Missing => Nothing case File(stat, content) => Found(path, stat, content))
  }

  /** A file, once replaced, never comes back: a stat seen at two instants was
      there, with one content, at every instant between. */
  ghost predicate NeverRecurs(disk: Disk, slot: Slot) {
    forall i: nat, j: nat, k: nat :: i <= j <= k && SameFile(Find(disk, slot, i), Find(disk, slot, k)) ==>
      Find(disk, slot, j) == Find(disk, slot, i)
  }

  predicate SameFile(a: Found, b: Found) { a.Found? && b.Found? && a.path == b.path && a.stat == b.stat }

  ghost predicate Steady(disk: Disk) { forall slot: Slot :: NeverRecurs(disk, slot) }

  /** `_FileVersion`: the path is resolved and its stat read first, the content of
      that file later. */
  datatype FileVersion = FileVersion(path: Path, stat: nat, content: nat)

  function ReadVersion(disk: Disk, slot: Slot, statAt: nat, contentAt: nat): Option<FileVersion> {
    match disk.link(slot, statAt)
    case None => None
    case Some(path) =>
      if disk.file(path, statAt).Missing? || disk.file(path, contentAt).Missing? then None
      else Some(FileVersion(path, disk.file(path, statAt).stat, disk.file(path, contentAt).content))
  }

  datatype Applied = Applied(certificate: FileVersion, privateKey: FileVersion, caBundle: Option<FileVersion>)

  /** The contents a context was built from. */
  datatype Context = Context(certificate: nat, privateKey: nat, caBundle: Option<nat>)

  function ContentsOf(a: Applied): Context {
    Context(a.certificate.content, a.privateKey.content, if a.caBundle.Some? then Some(a.caBundle.value.content) else None)
  }

  /** `content_fingerprint`: the resolved path and digest of each file there is. */
  function Fingerprint(a: Applied): seq<(Path, nat)> {
    [(a.certificate.path, a.certificate.content), (a.privateKey.path, a.privateKey.content)]
    + if a.caBundle.Some? then [(a.caBundle.value.path, a.caBundle.value.content)] else []
  }

  /** When each read of one pass happens, CA bundle first as the code does. */
  datatype Pass = Pass(caStat: nat, caContent: nat, certStat: nat, certContent: nat, keyStat: nat, keyContent: nat)

  predicate InOrder(p: Pass, from: nat, to: nat) {
    from <= p.caStat <= p.caContent <= p.certStat <= p.certContent <= p.keyStat <= p.keyContent <= to
  }

  /** `_version`; `None` is any exception. */
  function ReadAll(disk: Disk, hasCa: bool, p: Pass): Option<Applied> {
    var ca := if hasCa then ReadVersion(disk, CaBundle, p.caStat, p.caContent) else None;
    var cert := ReadVersion(disk, Certificate, p.certStat, p.certContent);
    var key := ReadVersion(disk, PrivateKey, p.keyStat, p.keyContent);
    if (hasCa && ca.None?) || cert.None? || key.None? then None
    else Some(Applied(cert.value, key.value, ca))
  }

  /** When the factory loads each file. */
  datatype Build = Build(cert: nat, key: nat, ca: nat)

  predicate Within(b: Build, from: nat, to: nat) {
    from <= b.cert <= to && from <= b.key <= to && from <= b.ca <= to
  }

  /** What the factory loads; it may also refuse what it finds. */
  function Load(disk: Disk, hasCa: bool, b: Build, accepts: Context -> bool): Option<Context> {
    var cert, key, ca := Find(disk, Certificate, b.cert), Find(disk, PrivateKey, b.key), Find(disk, CaBundle, b.ca);
    if cert.Nothing? || key.Nothing? || (hasCa && ca.Nothing?) then None
    else
      var c := Context(cert.content, key.content, if hasCa then Some(ca.content) else None);
      if accepts(c) then Some(c) else None
  }

  function AsFound(v: FileVersion): Found { Found(v.path, v.stat, v.content) }

  /** All three files hold `a` at instant `t`. */
  ghost predicate OnDisk(disk: Disk, hasCa: bool, a: Applied, t: nat) {
    && Find(disk, Certificate, t) == AsFound(a.certificate)
    && Find(disk, PrivateKey, t) == AsFound(a.privateKey)
    && (hasCa <==> a.caBundle.Some?)
    && (hasCa ==> Find(disk, CaBundle, t) == AsFound(a.caBundle.value))
  }

  lemma SteadyBetween(disk: Disk, slot: Slot, a: nat, b: nat, c: nat, d: nat, t: nat)
    requires Steady(disk) && a <= b <= t <= c <= d
    requires ReadVersion(disk, slot, a, b).Some? && ReadVersion(disk, slot, a, b) == ReadVersion(disk, slot, c, d)
    ensures Find(disk, slot, t) == AsFound(ReadVersion(disk, slot, a, b).value)
  {
    assert NeverRecurs(disk, slot);
    assert SameFile(Find(disk, slot, a), Find(disk, slot, c));
    assert Find(disk, slot, b) == Find(disk, slot, a) && Find(disk, slot, t) == Find(disk, slot, a);
  }

  /** Two equal passes pin all three files at every instant between them. */
  lemma EqualPassesPin(disk: Disk, hasCa: bool, before: Pass, after: Pass, t0: nat, t1: nat, t2: nat, t3: nat, t: nat)
    requires Steady(disk) && InOrder(before, t0, t1) && InOrder(after, t2, t3) && t1 <= t <= t2
    requires ReadAll(disk, hasCa, before).Some? && ReadAll(disk, hasCa, before) == ReadAll(disk, hasCa, after)
    ensures OnDisk(disk, hasCa, ReadAll(disk, hasCa, before).value, t)
  {
    hide Steady;
    SteadyBetween(disk, Certificate, before.certStat, before.certContent, after.certStat, after.certContent, t);
    SteadyBetween(disk, PrivateKey, before.keyStat, before.keyContent, after.keyStat, after.keyContent, t);
    if hasCa {
      SteadyBetween(disk, CaBundle, before.caStat, before.caContent, after.caStat, after.caContent, t);
    }
  }

  // ------------------------------------------------------------------
  // A change that is undone
  // ------------------------------------------------------------------

  /** When the two passes read and the factory loads. */
  datatype Schedule = Schedule(before: Pass, build: Build, after: Pass)

  ghost predicate Ordered(s: Schedule) {
    && InOrder(s.before, 0, s.before.keyContent)
    && Within(s.build, s.before.keyContent, s.after.caStat)
    && InOrder(s.after, s.after.caStat, s.after.keyContent)
  }

  /** The two passes agree, and the context is not built from what they found. */
  ghost predicate Fooled(disk: Disk, hasCa: bool, s: Schedule) {
    var found, loaded := ReadAll(disk, hasCa, s.before), Load(disk, hasCa, s.build, _ => true);
    && Ordered(s) && found.Some? && found == ReadAll(disk, hasCa, s.after)
    && loaded.Some? && loaded.value != ContentsOf(found.value)
  }

  /** One version is read of a file, then another content is there, then the same
      version is read again. */
  predicate UndoneAt(disk: Disk, slot: Slot, i: nat, j: nat, b: nat, k: nat, l: nat) {
    && i <= j <= b <= k <= l
    && ReadVersion(disk, slot, i, j).Some? && ReadVersion(disk, slot, i, j) == ReadVersion(disk, slot, k, l)
    && Find(disk, slot, b).Found? && Find(disk, slot, b).content != ReadVersion(disk, slot, i, j).value.content
  }

  ghost predicate NeverUndone(disk: Disk, slot: Slot) {
    forall i, j, b, k, l :: !UndoneAt(disk, slot, i, j, b, k, l)
  }

  ghost predicate Undisturbed(disk: Disk, slot: Slot) {
    Find(disk, slot, 0).Found? && forall t: nat :: Find(disk, slot, t) == Find(disk, slot, 0)
  }

  lemma SteadyNeverUndone(disk: Disk, slot: Slot)
    requires Steady(disk)
    ensures NeverUndone(disk, slot)
  {
    forall i, j, b, k, l ensures !UndoneAt(disk, slot, i, j, b, k, l) {
      if UndoneAt(disk, slot, i, j, b, k, l) {
        hide UndoneAt, ReadVersion;
        SteadyAt(disk, slot, i, j, b, k, l);
      }
    }
  }

  lemma SteadyAt(disk: Disk, slot: Slot, i: nat, j: nat, b: nat, k: nat, l: nat)
    requires Steady(disk)
    ensures !UndoneAt(disk, slot, i, j, b, k, l)
  {
    if i <= j <= b <= k <= l && ReadVersion(disk, slot, i, j).Some? && ReadVersion(disk, slot, i, j) == ReadVersion(disk, slot, k, l) {
      SteadyBetween(disk, slot, i, j, k, l, b);
    }
  }

  lemma NotFooled(disk: Disk, hasCa: bool, s: Schedule)
    requires forall slot: Slot :: NeverUndone(disk, slot)
    ensures !Fooled(disk, hasCa, s)
  {
    hide NeverUndone;
    if Ordered(s) {
      var p, b, q := s.before, s.build, s.after;
      LoadsItsContent(disk, Certificate, p.certStat, p.certContent, b.cert, q.certStat, q.certContent);
      LoadsItsContent(disk, PrivateKey, p.keyStat, p.keyContent, b.key, q.keyStat, q.keyContent);
      LoadsItsContent(disk, CaBundle, p.caStat, p.caContent, b.ca, q.caStat, q.caContent);
    }
  }

  lemma LoadsItsContent(disk: Disk, slot: Slot, i: nat, j: nat, b: nat, k: nat, l: nat)
    requires NeverUndone(disk, slot) && i <= j <= b <= k <= l
    ensures var first := ReadVersion(disk, slot, i, j);
            first.Some? && first == ReadVersion(disk, slot, k, l) && Find(disk, slot, b).Found? ==>
              Find(disk, slot, b).content == first.value.content
  {
    assert !UndoneAt(disk, slot, i, j, b, k, l);
  }

  /** While the other files stay as they are: the double read can be fooled exactly
      when this file can be replaced, loaded, and put back under a stat that was read
      before. It detects a change, not a change undone. */
  lemma UndoneChangeIsMissed(disk: Disk, hasCa: bool, slot: Slot)
    requires slot == CaBundle ==> hasCa
    requires forall other: Slot :: other != slot ==> Undisturbed(disk, other)
    ensures (exists s :: Fooled(disk, hasCa, s)) <==> !NeverUndone(disk, slot)
  {
    hide UndoneAt, Undisturbed, Fooled;
    if NeverUndone(disk, slot) {
      hide NeverUndone;
      forall other: Slot ensures NeverUndone(disk, other) {
        if other != slot { UndisturbedNeverUndone(disk, other); }
      }
      forall s ensures !Fooled(disk, hasCa, s) { NotFooled(disk, hasCa, s); }
    } else {
      var i, j, b, k, l :| UndoneAt(disk, slot, i, j, b, k, l);
      UndoneChangeFools(disk, hasCa, slot, i, j, b, k, l);
    }
  }

  lemma UndisturbedNeverUndone(disk: Disk, slot: Slot)
    requires Undisturbed(disk, slot)
    ensures NeverUndone(disk, slot)
  {
    forall i, j, b, k, l ensures !UndoneAt(disk, slot, i, j, b, k, l) {
      RestingFile(disk, slot, i, j);
      RestingFile(disk, slot, b, b);
    }
  }

  function ReadAround(slot: Slot, i: nat, j: nat): Pass {
    match slot
    case CaBundle => Pass(i, j, j, j, j, j)
    case Certificate => Pass(i, i, i, j, j, j)
    case PrivateKey => Pass(i, i, i, i, i, j)
  }

  function VersionOf(f: Found): FileVersion
    requires f.Found?
  {
    FileVersion(f.path, f.stat, f.content)
  }

  lemma RestingFile(disk: Disk, slot: Slot, x: nat, y: nat)
    requires Undisturbed(disk, slot)
    ensures Find(disk, slot, x) == Find(disk, slot, 0) && Find(disk, slot, 0).Found?
    ensures ReadVersion(disk, slot, x, y) == Some(VersionOf(Find(disk, slot, 0)))
  {
    assert Find(disk, slot, x) == Find(disk, slot, 0) && Find(disk, slot, y) == Find(disk, slot, 0);
  }

  lemma UndoneChangeFools(disk: Disk, hasCa: bool, slot: Slot, i: nat, j: nat, b: nat, k: nat, l: nat)
    requires slot == CaBundle ==> hasCa
    requires forall other: Slot :: other != slot ==> Undisturbed(disk, other)
    requires UndoneAt(disk, slot, i, j, b, k, l)
    ensures Fooled(disk, hasCa, Schedule(ReadAround(slot, i, j), Build(b, b, b), ReadAround(slot, k, l)))
  {
    forall other: Slot, x: nat, y: nat | other != slot
      ensures Find(disk, other, 0).Found? && ReadVersion(disk, other, x, y) == Some(VersionOf(Find(disk, other, 0)))
    {
      RestingFile(disk, other, x, y);
    }
    forall other: Slot | other != slot ensures Find(disk, other, b).Found? { RestingFile(disk, other, b, b); }
  }

  /** Files that never come back once replaced are never undone. */
  lemma SteadyIsNotFooled(disk: Disk, hasCa: bool, s: Schedule)
    requires Steady(disk)
    ensures !Fooled(disk, hasCa, s)
  {
    hide Steady;
    forall slot: Slot ensures NeverUndone(disk, slot) { SteadyNeverUndone(disk, slot); }
    NotFooled(disk, hasCa, s);
  }

  // ------------------------------------------------------------------
  // The reloader
  // ------------------------------------------------------------------

  datatype Outcome = Reloaded | Unchanged | Failed

  /** The fields of the reloader, as a value. */
  datatype Reloader = Reloader(
    hasCa: bool, factory: bool, listener: Option<Context>, current: Option<Context>, applied: Option<Applied>)
  {
    predicate Valid() { (current.Some? <==> applied.Some?) && (listener.Some? <==> factory) }

    /** The context in force is built from exactly the contents on record. */
    predicate Faithful() { Valid() && (current.Some? ==> current.value == ContentsOf(applied.value)) }
  }

  /** What `reload` answers, and the reloader afterwards. */
  function Reloading(r: Reloader, disk: Disk, s: Schedule, accepts: Context -> bool): (Outcome, Option<nat>, Reloader) {
    var first, second := ReadAll(disk, r.hasCa, s.before), ReadAll(disk, r.hasCa, s.after);
    var candidate := Load(disk, r.hasCa, s.build, accepts);
    if first.None? then (Failed, None, r)
    else if r.applied.Some? && Fingerprint(first.value) == Fingerprint(r.applied.value) then
      (Unchanged, Some(first.value.certificate.content), r)
    else if !r.factory || candidate.None? || first != second then (Failed, None, r)
    else (Reloaded, Some(first.value.certificate.content), r.(current := candidate, applied := first))
  }

  /** The context in force is built from what was just read. */
  predicate InForce(r: Reloader, disk: Disk, s: Schedule) {
    var read := ReadAll(disk, r.hasCa, s.before);
    r.Faithful() && read.Some? && r.current == Some(ContentsOf(read.value))
  }

  /** What a reload means: which answer says what about the record, the disk and the
      context in force; any answer but `Reloaded` leaves the reloader as it was. */
  lemma ReloadMeans(r: Reloader, disk: Disk, s: Schedule, accepts: Context -> bool)
    requires r.Valid() && Ordered(s)
    ensures var (outcome, fingerprint, after) := Reloading(r, disk, s, accepts);
            && after.Valid() && after.factory == r.factory && after.listener == r.listener && after.hasCa == r.hasCa
            && (!outcome.Reloaded? ==> after == r)
            && (outcome.Failed? ==> fingerprint == None)
            && (outcome.Reloaded? ==> after.applied.Some? && after.applied == ReadAll(disk, r.hasCa, s.before)
                                      && after.applied == ReadAll(disk, r.hasCa, s.after)
                                      && fingerprint == Some(after.applied.value.certificate.content)
                                      && accepts(after.current.value))
            && (outcome.Reloaded? ==> (after.Faithful() <==> !Fooled(disk, r.hasCa, s)))
            && (outcome.Reloaded? && Steady(disk) ==>
                  && after.Faithful()
                  && forall t: nat :: s.before.keyContent <= t <= s.after.caStat ==> OnDisk(disk, r.hasCa, after.applied.value, t))
            && (outcome.Unchanged? <==>
                  r.applied.Some? && ReadAll(disk, r.hasCa, s.before).Some?
                  && Fingerprint(ReadAll(disk, r.hasCa, s.before).value) == Fingerprint(r.applied.value))
            && (!outcome.Failed? && r.Faithful() && Steady(disk) ==> InForce(after, disk, s))
  {
    var (outcome, fingerprint, after) := Reloading(r, disk, s, accepts);
    if outcome.Reloaded? { AgreedPasses(disk, r.hasCa, s, accepts); }
    if outcome.Unchanged? { SameFingerprint(ReadAll(disk, r.hasCa, s.before).value, r.applied.value); }
    hide ReadAll, Load, Steady, Fooled, OnDisk, Fingerprint, Ordered;
  }

  lemma SameFingerprint(a: Applied, b: Applied)
    requires Fingerprint(a) == Fingerprint(b)
    ensures ContentsOf(a) == ContentsOf(b)
  {
    assert Fingerprint(a)[0] == Fingerprint(b)[0] && Fingerprint(a)[1] == Fingerprint(b)[1];
    assert |Fingerprint(a)| == |Fingerprint(b)|;
    assert a.caBundle.Some? ==> Fingerprint(a)[2] == Fingerprint(b)[2];
  }

  class TlsContextReloader {
    const hasCa: bool
    var factory: bool
    var listener: Option<Context>
    var current: Option<Context>
    var applied: Option<Applied>

    function View(): Reloader
      reads this
    {
      Reloader(hasCa, factory, listener, current, applied)
    }

    constructor (ca: bool)
      ensures View() == Reloader(ca, false, None, None, None)
    {
      hasCa := ca;
      factory, listener, current, applied := false, None, None, None;
    }

    /** `ssl_context_factory`: the same double read at start-up. */
    method Start(disk: Disk, s: Schedule, accepts: Context -> bool) returns (ok: bool)
      requires View().Valid() && Ordered(s)
      modifies this
      ensures View().Valid()
      ensures ok ==> factory && applied.Some? && accepts(current.value)
      ensures ok ==> applied == ReadAll(disk, hasCa, s.before) == ReadAll(disk, hasCa, s.after)
      ensures ok ==> (View().Faithful() <==> !Fooled(disk, hasCa, s))
      ensures ok && Steady(disk) ==>
                View().Faithful()
                && forall t: nat :: s.before.keyContent <= t <= s.after.caStat ==> OnDisk(disk, hasCa, applied.value, t)
      ensures !ok ==> View() == old(View())
    {
      var first := ReadAll(disk, hasCa, s.before);
      if first.None? { return false; }
      var context := Load(disk, hasCa, s.build, accepts);
      if context.None? { return false; }
      var second := ReadAll(disk, hasCa, s.after);
      if second.None? || first.value != second.value { return false; }
      AgreedPasses(disk, hasCa, s, accepts);
      factory, listener, current, applied := true, context, context, second;
      return true;
    }

    /** `reload`, under the lock; `ReloadMeans` says what its answers mean. */
    method Reload(disk: Disk, s: Schedule, accepts: Context -> bool) returns (outcome: Outcome,
          fingerprint: Option<nat>)
      requires View().Valid() && Ordered(s)
      modifies this
      ensures (outcome, fingerprint, View()) == Reloading(old(View()), disk, s, accepts)
      ensures View().Valid() && listener == old(listener) && factory == old(factory)
      ensures outcome.Reloaded? ==> (View().Faithful() <==> !Fooled(disk, hasCa, s))
      ensures outcome.Reloaded? && Steady(disk) ==>
                View().Faithful()
                && forall t: nat :: s.before.keyContent <= t <= s.after.caStat ==> OnDisk(disk, hasCa, applied.value, t)
      ensures !outcome.Reloaded? ==> View() == old(View())
    {
      ReloadMeans(View(), disk, s, accepts);
      hide ReadAll, Load, Fooled, Steady, OnDisk, Fingerprint, Ordered;
      var first := ReadAll(disk, hasCa, s.before);
      if first.None? { return Failed, None; }
      if applied.Some? && Fingerprint(first.value) == Fingerprint(applied.value) {
        return Unchanged, Some(first.value.certificate.content);
      }
      if !factory { return Failed, None; }
      var candidate := Load(disk, hasCa, s.build, accepts);
      if candidate.None? { return Failed, None; }
      var second := ReadAll(disk, hasCa, s.after);
      if second.None? || first.value != second.value { return Failed, None; }
      current := candidate;
      applied := second;
      return Reloaded, Some(second.value.certificate.content);
    }
  }

  /** What the reloader may conclude once the passes agree. */
  lemma AgreedPasses(disk: Disk, hasCa: bool, s: Schedule, accepts: Context -> bool)
    requires Ordered(s)
    requires ReadAll(disk, hasCa, s.before).Some? && ReadAll(disk, hasCa, s.before) == ReadAll(disk, hasCa, s.after)
    requires Load(disk, hasCa, s.build, accepts).Some?
    ensures var found, loaded := ReadAll(disk, hasCa, s.before).value, Load(disk, hasCa, s.build, accepts).value;
            && accepts(loaded)
            && (loaded == ContentsOf(found) <==> !Fooled(disk, hasCa, s))
            && (Steady(disk) ==>
                  && loaded == ContentsOf(found)
                  && forall t: nat :: s.before.keyContent <= t <= s.after.caStat ==> OnDisk(disk, hasCa, found, t))
  {
    hide Steady, ReadAll, OnDisk;
    if Steady(disk) {
      SteadyIsNotFooled(disk, hasCa, s);
      var t1, t2 := s.before.keyContent, s.after.caStat;
      forall t: nat | t1 <= t <= t2 ensures OnDisk(disk, hasCa, ReadAll(disk, hasCa, s.before).value, t) {
        EqualPassesPin(disk, hasCa, s.before, s.after, 0, t1, t2, s.after.keyContent, t);
      }
    }
  }
}
