/** The command and the per-worker answer of a cluster-wide reload, and the verdict
    drawn from the answers (`_tls_reload.py`). */
module TlsMessages {
  import opened Wrappers
  import opened Bytes
  import opened TlsReload

  const COMMAND_VERSION: Byte := 1

  // ------------------------------------------------------------------
  // ASCII
  // ------------------------------------------------------------------

  predicate IsAscii(s: string) { forall i :: 0 <= i < |s| ==> s[i] as int < 128 }

  predicate AsciiBytes(bs: seq<Byte>) { forall i :: 0 <= i < |bs| ==> bs[i] < 128 }

  /** `encode("ascii", errors="replace")`. */
  function ToAscii(s: string): (bs: seq<Byte>)
    ensures |bs| == |s|
  {
    if s == [] then [] else [if s[0] as int < 128 then s[0] as int else 63] + ToAscii(s[1..])
  }

  function FromAscii(bs: seq<Byte>): (s: string)
    ensures |s| == |bs|
  {
    if bs == [] then [] else [(bs[0] as int) as char] + FromAscii(bs[1..])
  }

  lemma {:induction false} AsciiRoundTrip(s: string)
    requires IsAscii(s)
    ensures FromAscii(ToAscii(s)) == s
  {
    if s != [] {
      AsciiRoundTrip(s[1..]);
      assert ToAscii(s)[1..] == ToAscii(s[1..]);
      assert s == [s[0]] + s[1..];
    }
  }

  lemma {:induction false} BytesRoundTrip(bs: seq<Byte>)
    requires AsciiBytes(bs)
    ensures ToAscii(FromAscii(bs)) == bs && IsAscii(FromAscii(bs))
  {
    if bs != [] {
      BytesRoundTrip(bs[1..]);
      var s := FromAscii(bs);
      assert s[1..] == FromAscii(bs[1..]);
      forall i | 0 <= i < |s| ensures s[i] as int < 128 {
        if i > 0 { assert s[i] == s[1..][i - 1]; }
      }
      assert bs == [bs[0]] + bs[1..];
    }
  }

  lemma {:induction false} ToAsciiIsAscii(s: string)
    ensures AsciiBytes(ToAscii(s))
  {
    if s != [] {
      ToAsciiIsAscii(s[1..]);
      forall i | 0 <= i < |s| ensures ToAscii(s)[i] < 128 {
        if i > 0 { assert ToAscii(s)[i] == ToAscii(s[1..])[i - 1]; }
      }
    }
  }

  // ------------------------------------------------------------------
  // The command
  // ------------------------------------------------------------------

  function EncodeCommand(serverId: string): Option<seq<Byte>> {
    if !IsAscii(serverId) || serverId == [] || |serverId| > 64 then None
    else Some([COMMAND_VERSION, |serverId|] + ToAscii(serverId))
  }

  function DecodeCommand(payload: seq<Byte>): Option<string> {
    if |payload| < 3 || payload[0] != COMMAND_VERSION then None
    else
      var size: int := payload[1];
      if size < 1 || size > 64 || |payload| != size + 2 then None
      else if AsciiBytes(payload[2..]) then Some(FromAscii(payload[2..]))
      else None
  }

  /** Commands and server ids stand for each other, both ways. */
  lemma CommandIsItsServer(serverId: string, payload: seq<Byte>)
    ensures EncodeCommand(serverId) == Some(payload) <==> DecodeCommand(payload) == Some(serverId)
    ensures EncodeCommand(serverId).Some? ==> |EncodeCommand(serverId).value| <= 66
  {
    if EncodeCommand(serverId) == Some(payload) {
      assert payload[2..] == ToAscii(serverId);
      AsciiRoundTrip(serverId);
      ToAsciiIsAscii(serverId);
    }
    if DecodeCommand(payload) == Some(serverId) {
      BytesRoundTrip(payload[2..]);
      assert payload == [payload[0], payload[1]] + payload[2..];
    }
  }

  // ------------------------------------------------------------------
  // One worker's answer
  // ------------------------------------------------------------------

  datatype WorkerResult = WorkerResult(index: int, outcome: Outcome, fingerprint: Option<string>, detail: Option<string>)

  predicate Success(o: Outcome) { o.Reloaded? || o.Unchanged? }

  function StatusOf(o: Outcome): Byte {
    match o case Reloaded => 1 case Unchanged => 2 case Failed => 3
  }

  function OrEmpty(s: Option<string>): string { if s.Some? then s.value else "" }

  function OrNone(s: string): Option<string> { if s == "" then None else Some(s) }

  function Cut(bs: seq<Byte>): (r: seq<Byte>)
    ensures |r| <= 64
  {
    if |bs| > 64 then bs[..64] else bs
  }

  /** `_encode_worker_result`; `None` is an error raised on a fingerprint that is not
      ASCII or too long for its length byte. */
  function EncodeResult(r: WorkerResult): Option<seq<Byte>> {
    var fingerprint := OrEmpty(r.fingerprint);
    if !IsAscii(fingerprint) || |fingerprint| > 255 then None
    else
      var detail := Cut(ToAscii(OrEmpty(r.detail)));
      Some([StatusOf(r.outcome), |fingerprint|] + ToAscii(fingerprint) + [|detail|] + detail)
  }

  function Invalid(index: int): WorkerResult { WorkerResult(index, Failed, None, Some("InvalidAcknowledgement")) }

  function DecodeResult(index: int, payload: seq<Byte>): WorkerResult {
    if |payload| < 3 || payload[0] !in {1, 2, 3} then Invalid(index)
    else
      var end: nat := 2 + payload[1] as int;
      if end >= |payload| then Invalid(index)
      else
        var detailEnd: nat := end + 1 + payload[end] as int;
        if detailEnd != |payload| then Invalid(index)
        else if !AsciiBytes(payload[2..end]) || !AsciiBytes(payload[end + 1..]) then Invalid(index)
        else
          WorkerResult(index, if payload[0] == 1 then Reloaded else if payload[0] == 2 then Unchanged else Failed,
                       OrNone(FromAscii(payload[2..end])), OrNone(FromAscii(payload[end + 1..])))
  }

  /** An answer comes back as given, within the channel's bound; only its detail may
      be cut, and an empty text is no text. */
  lemma ResultRoundTrip(r: WorkerResult, index: int)
    requires EncodeResult(r).Some?
    ensures |EncodeResult(r).value| <= 322
    ensures OrEmpty(r.fingerprint) != "" || r.fingerprint.None? ==>
              DecodeResult(index, EncodeResult(r).value).fingerprint == r.fingerprint
    ensures DecodeResult(index, EncodeResult(r).value).outcome == r.outcome
    ensures DecodeResult(index, EncodeResult(r).value).index == index
    ensures r.detail == OrNone(OrEmpty(r.detail)) && IsAscii(OrEmpty(r.detail)) && |OrEmpty(r.detail)| <= 64 ==>
              DecodeResult(index, EncodeResult(r).value).detail == r.detail
  {
    hide ToAscii, FromAscii, IsAscii, AsciiBytes;
    var fp, text := OrEmpty(r.fingerprint), OrEmpty(r.detail);
    var detail := Cut(ToAscii(text));
    var p := EncodeResult(r).value;
    var end := 2 + |fp|;
    ResultLayout(StatusOf(r.outcome), ToAscii(fp), detail, p);
    ToAsciiIsAscii(fp);
    ToAsciiIsAscii(text);
    AsciiPrefix(ToAscii(text));
    AsciiRoundTrip(fp);
    if IsAscii(text) { AsciiRoundTrip(text); }
  }

  lemma ResultLayout(status: Byte, fp: seq<Byte>, detail: seq<Byte>, p: seq<Byte>)
    requires |fp| <= 255 && |detail| <= 64 && p == [status, |fp|] + fp + [|detail|] + detail
    ensures |p| == 3 + |fp| + |detail| && p[0] == status && p[1] == |fp| && p[2..2 + |fp|] == fp
    ensures p[2 + |fp|] == |detail| && p[2 + |fp| + 1..] == detail
  {}

  lemma AsciiPrefix(bs: seq<Byte>)
    requires AsciiBytes(bs)
    ensures AsciiBytes(Cut(bs))
  {}

  /** Nothing a worker sends without reloading counts as success: the answers for
      an unknown command and for an exception begin with a letter. */
  lemma OtherRepliesFail(index: int, reply: string)
    requires "unhandled" <= reply || "failed:" <= reply
    ensures DecodeResult(index, ToAscii(reply)) == Invalid(index)
  {
    assert reply[0] == 'u' || reply[0] == 'f';
  }

  /** The replies that are not a reload's: no handler took the command, or handling
      it raised. */
  ghost predicate OtherReply(reply: seq<Byte>) {
    exists text :: ("unhandled" <= text || "failed:" <= text) && reply == ToAscii(text)
  }

  /** `reply` is what a worker may send for `body` when its own reload gives `local`. */
  ghost predicate Answers(body: seq<Byte>, local: WorkerResult, reply: seq<Byte>) {
    OtherReply(reply) || (DecodeCommand(body).Some? && EncodeResult(local) == Some(reply))
  }

  /** A reply that decodes to success tells of a success at the worker that sent it. */
  lemma SuccessIsOwn(body: seq<Byte>, local: WorkerResult, reply: seq<Byte>, index: int)
    requires Answers(body, local, reply)
    ensures Success(DecodeResult(index, reply).outcome) <==>
            DecodeCommand(body).Some? && EncodeResult(local) == Some(reply) && Success(local.outcome)
  {
    hide DecodeResult, EncodeResult, DecodeCommand;
    if DecodeCommand(body).Some? && EncodeResult(local) == Some(reply) {
      ResultRoundTrip(local, index);
    } else {
      var text :| ("unhandled" <= text || "failed:" <= text) && reply == ToAscii(text);
      OtherRepliesFail(index, text);
    }
  }

  // ------------------------------------------------------------------
  // The verdict
  // ------------------------------------------------------------------

  datatype Verdict = AllReloaded | AllUnchanged | SomeFailed | TimedOut | NoneWorked

  datatype ReloadResult = ReloadResult(verdict: Verdict, workers: seq<WorkerResult>, missing: seq<int>)
  {
    /** `succeeded`. */
    predicate Succeeded() {
      && (verdict.AllReloaded? || verdict.AllUnchanged?)
      && workers != [] && missing == []
      && forall i :: 0 <= i < |workers| ==> Success(workers[i].outcome)
    }
  }

  /** The answers in order of worker index. */
  function Decoded(indices: seq<int>, acks: map<int, seq<Byte>>): (ws: seq<WorkerResult>)
    requires forall i :: i in indices ==> i in acks
    ensures |ws| == |indices|
    ensures forall k :: 0 <= k < |ws| ==> ws[k] == DecodeResult(indices[k], acks[indices[k]])
  {
    if indices == [] then []
    else [DecodeResult(indices[0], acks[indices[0]])] + Decoded(indices[1..], acks)
  }

  function VerdictOf(workers: seq<WorkerResult>, missing: seq<int>): Verdict {
    if missing != [] then if workers == [] then TimedOut else SomeFailed
    else if workers != [] && forall k :: 0 <= k < |workers| ==> Success(workers[k].outcome) then
      if forall k :: 0 <= k < |workers| ==> workers[k].outcome.Unchanged? then AllUnchanged else AllReloaded
    else if exists k :: 0 <= k < |workers| && Success(workers[k].outcome) then SomeFailed
    else NoneWorked
  }

  /** The clustered half of `reload_tls` once the answers are in; `answered` and
      `missing` are the sorted halves of the targets. */
  function Summary(answered: seq<int>, missing: seq<int>, acks: map<int, seq<Byte>>): ReloadResult
    requires forall i :: i in answered ==> i in acks
  {
    var workers := Decoded(answered, acks);
    ReloadResult(VerdictOf(workers, missing), workers, missing)
  }

  /** A reload succeeded exactly when every target has answered and every answer
      decodes to success. */
  lemma SucceededMeansEveryTarget(targets: seq<int>, answered: seq<int>, missing: seq<int>, acks: map<int, seq<Byte>>)
    requires targets != []
    requires forall i :: i in answered <==> i in targets && i in acks
    requires forall i :: i in missing <==> i in targets && i !in acks
    ensures Summary(answered, missing, acks).Succeeded() <==>
            forall t :: t in targets ==> t in acks && Success(DecodeResult(t, acks[t]).outcome)
  {
    hide DecodeResult, Success;
    var workers := Decoded(answered, acks);
    var t0 := FirstOf(targets);
    assert t0 in answered || t0 in missing;
    if forall t :: t in targets ==> t in acks && Success(DecodeResult(t, acks[t]).outcome) {
      if missing != [] { var m := FirstOf(missing); }
      assert t0 in answered;
      forall k | 0 <= k < |workers| ensures Success(workers[k].outcome) {
        assert answered[k] in answered;
      }
    }
    if Summary(answered, missing, acks).Succeeded() {
      forall t | t in targets ensures t in acks && Success(DecodeResult(t, acks[t]).outcome) {
        assert t in answered || t in missing;
        var k :| 0 <= k < |answered| && answered[k] == t;
        assert Success(workers[k].outcome);
      }
    }
  }

  lemma FirstOf(s: seq<int>) returns (x: int)
    requires s != []
    ensures x in s
  {
    x := s[0];
  }
}
