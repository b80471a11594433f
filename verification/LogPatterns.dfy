/** The three regular expressions of the native log parser, written out as
    deterministic scanners. A byte is a `char`; nothing depends on its code. */
module LogPatterns {
  import opened Wrappers

  type Bytes = string

  predicate IsDigit(c: char) { '0' <= c <= '9' }

  predicate IsHex(c: char) { IsDigit(c) || 'a' <= c <= 'f' || 'A' <= c <= 'F' }

  predicate IsSpace(c: char) { c == ' ' || '\t' <= c <= '\r' }

  predicate IsSerious(c: char) { c == 'W' || c == 'E' || c == 'F' }

  /** The first byte of a trace line: information, warning, error or fatal. */
  predicate IsSeverity(c: char) { c == 'I' || IsSerious(c) }

  predicate InSource(c: char) { c != ']' && c != '\r' && c != '\n' }

  /** First position at or after `i` whose byte is not in `p`: a greedy repetition. */
  function RunEnd(s: Bytes, i: nat, p: char -> bool): (j: nat)
    requires i <= |s|
    ensures i <= j <= |s|
    ensures forall k :: i <= k < j ==> p(s[k])
    ensures j < |s| ==> !p(s[j])
    decreases |s| - i
  {
    if i < |s| && p(s[i]) then RunEnd(s, i + 1, p) else i
  }

  /** One or more bytes in `p`, with something after them. */
  function Repeat(s: Bytes, i: nat, p: char -> bool): (j: Option<nat>)
    requires i <= |s|
    ensures j.Some? ==> i < j.value < |s|
  {
    var j := RunEnd(s, i, p);
    if i < j < |s| then Some(j) else None
  }

  predicate StartsAt(s: Bytes, i: nat, lit: Bytes) {
    i + |lit| <= |s| && s[i..i + |lit|] == lit
  }

  /** The position after the literal `lit`. */
  function Literal(s: Bytes, i: nat, lit: Bytes): (j: Option<nat>)
    ensures j.Some? ==> i + |lit| == j.value <= |s|
  {
    if StartsAt(s, i, lit) then Some(i + |lit|) else None
  }

  lemma {:induction false} RunEndExtend(s: Bytes, t: Bytes, i: nat, p: char -> bool)
    requires i <= |s| && RunEnd(s, i, p) < |s|
    ensures RunEnd(s + t, i, p) == RunEnd(s, i, p)
    decreases |s| - i
  {
    assert (s + t)[i] == s[i];
    if p(s[i]) { RunEndExtend(s, t, i + 1, p); }
  }

  lemma RepeatExtend(s: Bytes, t: Bytes, i: nat, p: char -> bool)
    requires i <= |s| && Repeat(s, i, p).Some?
    ensures Repeat(s + t, i, p) == Repeat(s, i, p)
  {
    RunEndExtend(s, t, i, p);
  }

  lemma LiteralExtend(s: Bytes, t: Bytes, i: nat, lit: Bytes)
    requires StartsAt(s, i, lit)
    ensures StartsAt(s + t, i, lit)
  {
    assert (s + t)[i..i + |lit|] == s[i..i + |lit|];
  }

  lemma LiteralHead(s: Bytes, i: nat, lit: Bytes)
    requires |lit| > 0
    ensures StartsAt(s, i, lit) ==> s[i] == lit[0]
  {
    if StartsAt(s, i, lit) { assert s[i] == s[i..i + |lit|][0]; }
  }

  predicate Contains(s: Bytes, lit: Bytes) {
    exists i: nat | i <= |s| :: StartsAt(s, i, lit)
  }

  /** A match of `_PREFIX`: the `source` group and the position after the match. */
  datatype Prefix = Prefix(source: Bytes, end: nat)

  /** `[IWEF]dddd dd:dd:`, the part of `_PREFIX` of fixed length. */
  predicate FixedHead(s: Bytes) {
    && |s| >= 12
    && IsSeverity(s[0])
    && IsDigit(s[1]) && IsDigit(s[2]) && IsDigit(s[3]) && IsDigit(s[4])
    && s[5] == ' '
    && IsDigit(s[6]) && IsDigit(s[7]) && s[8] == ':'
    && IsDigit(s[9]) && IsDigit(s[10]) && s[11] == ':'
  }

  /** `\d+\.\d+`, the seconds. */
  function SecondsEnd(s: Bytes, i: nat): (m: Option<nat>)
    requires i <= |s|
    ensures m.Some? ==> i < m.value < |s|
  {
    var whole :- Repeat(s, i, IsDigit);
    var point :- Literal(s, whole, ".");
    Repeat(s, point, IsDigit)
  }

  /** `\s+\d+ `, the thread number and the space after it. */
  function ThreadEnd(s: Bytes, i: nat): (m: Option<nat>)
    requires i <= |s|
    ensures m.Some? ==> i < m.value <= |s|
  {
    var gap :- Repeat(s, i, IsSpace);
    var thread :- Repeat(s, gap, IsDigit);
    Literal(s, thread, " ")
  }

  /** `_PREFIX.match`. Each repetition stops at a byte the next item cannot
      start with, so the greedy scan is the only possible match. */
  function MatchPrefix(s: Bytes): (m: Option<Prefix>)
    ensures m.Some? ==> FixedHead(s) && 12 < m.value.end <= |s|
  {
    if !FixedHead(s) then None else
    var fraction :- SecondsEnd(s, 12);
    var open :- ThreadEnd(s, fraction);
    var close :- Repeat(s, open, InSource);
    var end :- Literal(s, close, "] ");
    Some(Prefix(s[open..close], end))
  }

  lemma SecondsExtend(s: Bytes, t: Bytes, i: nat)
    requires i <= |s| && SecondsEnd(s, i).Some?
    ensures SecondsEnd(s + t, i) == SecondsEnd(s, i)
  {
    var whole := Repeat(s, i, IsDigit).value;
    RepeatExtend(s, t, i, IsDigit);
    LiteralExtend(s, t, whole, ".");
    RepeatExtend(s, t, whole + 1, IsDigit);
  }

  lemma ThreadExtend(s: Bytes, t: Bytes, i: nat)
    requires i <= |s| && ThreadEnd(s, i).Some?
    ensures ThreadEnd(s + t, i) == ThreadEnd(s, i)
  {
    var gap := Repeat(s, i, IsSpace).value;
    RepeatExtend(s, t, i, IsSpace);
    RepeatExtend(s, t, gap, IsDigit);
    LiteralExtend(s, t, Repeat(s, gap, IsDigit).value, " ");
  }

  lemma MatchPrefixExtend(s: Bytes, t: Bytes)
    requires MatchPrefix(s).Some?
    ensures MatchPrefix(s + t) == MatchPrefix(s)
  {
    hide FixedHead, SecondsEnd, ThreadEnd, Repeat;
    FixedHeadExtend(s, t);
    SecondsExtend(s, t, 12);
    var fraction := SecondsEnd(s, 12).value;
    ThreadExtend(s, t, fraction);
    var open := ThreadEnd(s, fraction).value;
    RepeatExtend(s, t, open, InSource);
    var close := Repeat(s, open, InSource).value;
    LiteralExtend(s, t, close, "] ");
    assert (s + t)[open..close] == s[open..close];
  }

  lemma FixedHeadExtend(s: Bytes, t: Bytes)
    requires FixedHead(s)
    ensures FixedHead(s + t)
  {
    assert forall k :: 0 <= k < 12 ==> (s + t)[k] == s[k];
  }

  /** `_STATUS_HEAD.match(s, i)`: the position after the match. */
  function MatchStatusHead(s: Bytes, i: nat): (m: Option<nat>)
    requires i <= |s|
    ensures m.Some? ==> i < m.value <= |s|
  {
    var who :- StatusLabel(s, i);
    Literal(s, who, " error=")
  }

  /** The alternation at the head of `_STATUS_HEAD`. */
  function StatusLabel(s: Bytes, i: nat): (m: Option<nat>)
    requires i <= |s|
    ensures m.Some? ==> i < m.value <= |s|
  {
    if StartsAt(s, i, "CallNextHandshakerLocked:") then Some(i + 25) else
    var pointer :- Literal(s, i, "handshake_manager ");
    var marked := StartsAt(s, pointer, "0x");
    var colon :- Repeat(s, if marked then pointer + 2 else pointer, IsHex);
    if marked || colon == pointer + 16 || colon == pointer + 8 then Literal(s, colon, ":") else None
  }

  lemma StatusHeadExtend(s: Bytes, t: Bytes, i: nat)
    requires i <= |s| && MatchStatusHead(s, i).Some?
    ensures MatchStatusHead(s + t, i) == MatchStatusHead(s, i)
  {
    StatusLabelExtend(s, t, i);
    LiteralExtend(s, t, StatusLabel(s, i).value, " error=");
  }

  lemma StatusLabelExtend(s: Bytes, t: Bytes, i: nat)
    requires i <= |s| && StatusLabel(s, i).Some?
    ensures StatusLabel(s + t, i) == StatusLabel(s, i)
  {
    hide Repeat;
    var first, second := "CallNextHandshakerLocked:", "handshake_manager ";
    if StartsAt(s, i, first) {
      LiteralExtend(s, t, i, first);
    } else {
      LiteralExtend(s, t, i, second);
      LiteralHead(s + t, i, second);
      LiteralHead(s + t, i, first);
      var pointer := i + |second|;
      var marked := StartsAt(s, pointer, "0x");
      var colon := Repeat(s, if marked then pointer + 2 else pointer, IsHex).value;
      RepeatExtend(s, t, if marked then pointer + 2 else pointer, IsHex);
      LiteralExtend(s, t, colon, ":");
      assert (s + t)[pointer..pointer + 2] == s[pointer..pointer + 2];
    }
  }

  /** `_END` matches at `i`: the literal, the two counters, then only white space
      (a final newline is white space too, so `\s*$` asks for nothing more). */
  predicate EndsAt(s: Bytes, i: nat) {
    StartsAt(s, i, "read_buffer.Length()=") &&
    var a := RunEnd(s, i + 21, IsDigit);
    a > i + 21 && StartsAt(s, a, ", exit_early=") &&
    var b := RunEnd(s, a + 13, IsDigit);
    b > a + 13 && StartsAt(s, b, "}") && RunEnd(s, b + 1, IsSpace) == |s|
  }

  /** `_END.search`. */
  predicate HasEnd(s: Bytes) {
    exists i: nat | i <= |s| :: EndsAt(s, i)
  }

  /** `NativeFramer._possible_prefix`. */
  predicate PossiblePrefix(data: Bytes) {
    && |data| > 0
    && IsSeverity(data[0])
    && (forall k :: 1 <= k < 5 && k < |data| ==> IsDigit(data[k]))
    && (|data| < 6 || data[5] == ' ')
  }

  /** A line whose head matches `_PREFIX` never looked impossible on the way in. */
  lemma PrefixImpliesPossible(line: Bytes, n: nat)
    requires MatchPrefix(line).Some? && 0 < n <= |line|
    ensures PossiblePrefix(line[..n])
  {
    hide MatchPrefix, IsDigit, IsSeverity;
    assert FixedHead(line);
    var data := line[..n];
    assert forall k :: 0 <= k < n ==> data[k] == line[k];
  }

  /** Once falsified, `_possible_prefix` stays false however the line grows. */
  lemma ImpossibleIsPermanent(data: Bytes, more: Bytes)
    requires |data| > 0 && PossiblePrefix(data + more)
    ensures PossiblePrefix(data)
  {
    forall k | 1 <= k < 5 && k < |data| ensures IsDigit(data[k]) {
      assert (data + more)[k] == data[k];
    }
    assert (data + more)[0] == data[0];
    assert |data| >= 6 ==> (data + more)[5] == data[5];
  }

  predicate IsHandshaker(source: Bytes) { Contains(source, "handshaker.cc:") }

  predicate IsManaged(source: Bytes) {
    || IsHandshaker(source)
    || Contains(source, "handshaker.h:")
    || Contains(source, "channel_trace.h:")
    || Contains(source, "security_handshaker.cc:")
  }

  /** `handshaker_payload`: what follows the status head of a handshaker record. */
  function HandshakerPayload(record: Bytes): Option<Bytes> {
    var prefix :- MatchPrefix(record);
    if !IsHandshaker(prefix.source) then None else
    var start :- MatchStatusHead(record, prefix.end);
    Some(record[start..])
  }

  lemma PayloadExtend(s: Bytes, t: Bytes)
    requires HandshakerPayload(s).Some?
    ensures HandshakerPayload(s + t) == Some(HandshakerPayload(s).value + t)
  {
    hide MatchPrefix, MatchStatusHead, IsHandshaker;
    MatchPrefixExtend(s, t);
    var end := MatchPrefix(s).value.end;
    StatusHeadExtend(s, t, end);
    var h := MatchStatusHead(s, end).value;
    assert (s + t)[h..] == s[h..] + t;
  }
}
