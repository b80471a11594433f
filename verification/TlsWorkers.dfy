/** The objects of one worker that a reload command touches: each method proved to
    answer as `TlsHandling` says. */
module TlsWorkers {
  import opened Wrappers
  import opened Bytes
  import opened TlsReload
  import opened TlsMessages
  import H = TlsHandling

  datatype Listener = Listener(serverId: string, reloader: Option<TlsContextReloader>, active: bool)

  function ReloadersOf(listeners: seq<Listener>): set<TlsContextReloader> {
    set l | l in listeners && l.reloader.Some? :: l.reloader.value
  }

  /** `_listeners`. */
  function Serving(listeners: seq<Listener>, serverId: string): (r: seq<Listener>)
    ensures forall i :: 0 <= i < |r| ==> r[i] in listeners
  {
    if listeners == [] then []
    else (if listeners[0].serverId == serverId then [listeners[0]] else []) + Serving(listeners[1..], serverId)
  }

  function SeenOf(l: Listener): H.Seen
    reads if l.reloader.Some? then {l.reloader.value} else {}
  {
    H.Seen(l.serverId, if l.reloader.Some? then Some(l.reloader.value.View()) else None, l.active)
  }

  function AllSeen(listeners: seq<Listener>): (r: seq<H.Seen>)
    reads ReloadersOf(listeners)
    ensures |r| == |listeners|
  {
    if listeners == [] then []
    else
      assert listeners[0] in listeners && forall l :: l in listeners[1..] ==> l in listeners;
      [SeenOf(listeners[0])] + AllSeen(listeners[1..])
  }

  lemma {:induction false} SeenServing(listeners: seq<Listener>, serverId: string)
    ensures |H.Serving(AllSeen(listeners), serverId)| == |Serving(listeners, serverId)|
    ensures |Serving(listeners, serverId)| > 0 ==>
              Serving(listeners, serverId)[0] in listeners
              && H.Serving(AllSeen(listeners), serverId)[0] == SeenOf(Serving(listeners, serverId)[0])
  {
    if listeners != [] { SeenServing(listeners[1..], serverId); }
  }

  class TlsWorker {
    const index: int
    const listeners: seq<Listener>

    ghost predicate Valid()
      reads ReloadersOf(listeners)
    {
      forall l :: l in listeners && l.reloader.Some? ==> l.reloader.value.View().Valid()
    }

    constructor (i: int, ls: seq<Listener>)
      requires forall l :: l in ls && l.reloader.Some? ==> l.reloader.value.View().Valid()
      ensures index == i && listeners == ls && Valid()
    {
      index, listeners := i, ls;
    }

    /** What the worker finds when it handles a command. */
    function Here(disk: Disk, s: Schedule, accepts: Context -> bool, error: string): H.Site
      reads ReloadersOf(listeners)
    {
      H.Site(index, AllSeen(listeners), disk, s, accepts, error)
    }

    /** The reloader of the one active listener of that id. */
    function Target(serverId: string): Option<TlsContextReloader> {
      var found := Serving(listeners, serverId);
      if |found| == 1 && found[0].active then found[0].reloader else None
    }

    /** `_reload_local`: that one reloader reloads, and no other is touched. */
    method ReloadLocal(serverId: string, disk: Disk, s: Schedule, accepts: Context -> bool, error: string)
        returns (r: WorkerResult)
      requires Valid() && Ordered(s)
      modifies ReloadersOf(listeners)
      ensures Valid() && r == H.LocalResult(old(Here(disk, s, accepts, error)), serverId)
      ensures match Target(serverId)
              case None => true
              case Some(t) => t.View() == Reloading(old(t.View()), disk, s, accepts).2
      ensures forall l :: l in ReloadersOf(listeners) && Target(serverId) != Some(l) ==> unchanged(l)
    {
      hide Reloading, Steady, Fooled, OnDisk, Ordered;
      SeenServing(listeners, serverId);
      var found := Serving(listeners, serverId);
      if |found| != 1 { return WorkerResult(index, Failed, None, Some("ListenerUnavailable")); }
      var listener := found[0];
      if listener.reloader.None? || !listener.active {
        return WorkerResult(index, Failed, None, Some("ListenerNotActive"));
      }
      assert listener.reloader.value in ReloadersOf(listeners);
      var outcome, fingerprint := listener.reloader.value.Reload(disk, s, accepts);
      r := WorkerResult(index, outcome, if fingerprint.Some? then Some(H.Hex(fingerprint.value, 64)) else None,
                        if outcome.Failed? then Some(error) else None);
    }

    /** `_handle_cluster_command`, called by `dispatch_internal_control` and answered
        by `_execute_adapter_command`. */
    method HandleCommand(body: seq<Byte>, disk: Disk, s: Schedule, accepts: Context -> bool, error: string)
        returns (reply: seq<Byte>)
      requires Valid() && Ordered(s)
      modifies ReloadersOf(listeners)
      ensures Valid() && reply == H.Reply(old(Here(disk, s, accepts, error)), body)
      ensures DecodeCommand(body).Some? && Target(DecodeCommand(body).value).Some? ==>
                var t := Target(DecodeCommand(body).value).value;
                t.View() == Reloading(old(t.View()), disk, s, accepts).2
      ensures forall l ::
                (l in ReloadersOf(listeners) && (DecodeCommand(body).None? || Target(DecodeCommand(body).value) != Some(l))) ==>
                  unchanged(l)
    {
      hide EncodeResult, DecodeCommand, Reloading, Ordered, H.LocalResult;
      var serverId := DecodeCommand(body);
      if serverId.None? { return ToAscii("unhandled"); }
      H.LocalResultMeans(Here(disk, s, accepts, error), serverId.value);
      var result := ReloadLocal(serverId.value, disk, s, accepts, error);
      var encoded := EncodeResult(result).value;
      reply := if |encoded| > 495 then encoded[..495] else encoded;
      ResultRoundTrip(result, index);
    }
  }
}
