/** What a reload command means to one worker, as a function of what the worker finds
    when it handles it (`_reload_local`, `_handle_cluster_command`). */
module TlsHandling {
  import opened Wrappers
  import opened Bytes
  import opened TlsReload
  import opened TlsMessages

  const HEX_DIGITS := "0123456789abcdef"

  /** The text of a digest, `n` digits of it. */
  function Hex(digest: nat, n: nat): (s: string)
    ensures |s| == n
  {
    if n == 0 then "" else Hex(digest / 16, n - 1) + [HEX_DIGITS[digest % 16]]
  }

  lemma {:induction false} HexIsAscii(digest: nat, n: nat)
    ensures IsAscii(Hex(digest, n))
  {
    if n > 0 {
      HexIsAscii(digest / 16, n - 1);
      var s := Hex(digest, n);
      forall i | 0 <= i < n ensures s[i] as int < 128 {
        if i < n - 1 { assert s[i] == Hex(digest / 16, n - 1)[i]; } else { assert s[i] == HEX_DIGITS[digest % 16]; }
      }
    }
  }

  /** An application listener; `active` once it serves TLS. */
  datatype Seen = Seen(serverId: string, reloader: Option<Reloader>, active: bool)

  /** A worker when it handles a command: its listeners, the files under them, when
      it reads and loads, what its factory accepts, and how an exception is called. */
  datatype Site = Site(
    index: int, listeners: seq<Seen>, disk: Disk, schedule: Schedule, accepts: Context -> bool, error: string)

  /** `_listeners`. */
  function Serving(listeners: seq<Seen>, serverId: string): seq<Seen> {
    if listeners == [] then []
    else (if listeners[0].serverId == serverId then [listeners[0]] else []) + Serving(listeners[1..], serverId)
  }

  /** The one active listener of that id, if there is one. */
  function Target(site: Site, serverId: string): Option<Reloader> {
    var found := Serving(site.listeners, serverId);
    if |found| == 1 && found[0].active then found[0].reloader else None
  }

  function Fails(site: Site, detail: string): WorkerResult { WorkerResult(site.index, Failed, None, Some(detail)) }

  function ResultOf(site: Site, outcome: Outcome, fingerprint: Option<nat>): WorkerResult {
    WorkerResult(site.index, outcome, if fingerprint.Some? then Some(Hex(fingerprint.value, 64)) else None,
                 if outcome.Failed? then Some(site.error) else None)
  }

  /** `_reload_local`. */
  function LocalResult(site: Site, serverId: string): WorkerResult {
    var found := Serving(site.listeners, serverId);
    if |found| != 1 then Fails(site, "ListenerUnavailable")
    else if found[0].reloader.None? || !found[0].active then Fails(site, "ListenerNotActive")
    else
      var (outcome, fingerprint, _) := Reloading(found[0].reloader.value, site.disk, site.schedule, site.accepts);
      ResultOf(site, outcome, fingerprint)
  }

  /** The one active listener of that id reloads, or finds nothing new. */
  predicate ReloadsHere(site: Site, serverId: string) {
    && Target(site, serverId).Some?
    && Success(Reloading(Target(site, serverId).value, site.disk, site.schedule, site.accepts).0)
  }

  /** And afterwards serves a context built from what it has just read. */
  predicate ServesWhatItRead(site: Site, serverId: string) {
    && Target(site, serverId).Some?
    && InForce(Reloading(Target(site, serverId).value, site.disk, site.schedule, site.accepts).2, site.disk, site.schedule)
  }

  /** No file of the worker comes back once replaced, and its record is true so far. */
  ghost predicate Undisputed(site: Site, serverId: string) {
    && Steady(site.disk) && Ordered(site.schedule)
    && Target(site, serverId).Some? && Target(site, serverId).value.Faithful()
  }

  lemma InForceAfter(r: Reloader, disk: Disk, s: Schedule, accepts: Context -> bool)
    requires r.Faithful() && Ordered(s) && Steady(disk)
    ensures var (outcome, _, after) := Reloading(r, disk, s, accepts); Success(outcome) ==> InForce(after, disk, s)
  {
    hide Ordered, Steady, Reloading;
    ReloadMeans(r, disk, s, accepts);
  }

  lemma LocalEncodes(site: Site, serverId: string)
    ensures EncodeResult(LocalResult(site, serverId)).Some?
  {
    hide Reloading, Serving, Hex;
    var found := Serving(site.listeners, serverId);
    if |found| == 1 && found[0].active && found[0].reloader.Some? {
      var (_, fingerprint, _) := Reloading(found[0].reloader.value, site.disk, site.schedule, site.accepts);
      if fingerprint.Some? { HexIsAscii(fingerprint.value, 64); }
    }
  }

  /** The result of a worker can always be told; it is a success exactly when its own
      listener's reload is; and then that listener serves what it has just read. */
  lemma LocalResultMeans(site: Site, serverId: string)
    ensures EncodeResult(LocalResult(site, serverId)).Some?
    ensures Success(LocalResult(site, serverId).outcome) <==> ReloadsHere(site, serverId)
    ensures ReloadsHere(site, serverId) && Undisputed(site, serverId) ==> ServesWhatItRead(site, serverId)
  {
    LocalEncodes(site, serverId);
    hide Reloading, Steady, Ordered, InForce, Hex, EncodeResult, Serving;
    if Undisputed(site, serverId) {
      InForceAfter(Target(site, serverId).value, site.disk, site.schedule, site.accepts);
    }
  }

  /** The bytes a worker sends for `body`. */
  function Reply(site: Site, body: seq<Byte>): seq<Byte> {
    match DecodeCommand(body)
    case None => ToAscii("unhandled")
    case Some(serverId) =>
      LocalResultMeans(site, serverId);
      EncodeResult(LocalResult(site, serverId)).value
  }

  /** A reply decodes to success exactly when the command names a server whose
      reload succeeds at that worker. */
  lemma ReplyMeans(site: Site, body: seq<Byte>, index: int)
    ensures Answers(body, LocalResult(site, OrEmpty(DecodeCommand(body))), Reply(site, body))
    ensures Success(DecodeResult(index, Reply(site, body)).outcome) <==>
            DecodeCommand(body).Some? && ReloadsHere(site, DecodeCommand(body).value)
  {
    hide EncodeResult, DecodeResult, DecodeCommand, LocalResult, ReloadsHere;
    var serverId := OrEmpty(DecodeCommand(body));
    LocalResultMeans(site, serverId);
    if DecodeCommand(body).None? { assert "unhandled" <= "unhandled" && OtherReply(ToAscii("unhandled")); }
    SuccessIsOwn(body, LocalResult(site, serverId), Reply(site, body), index);
  }
}
