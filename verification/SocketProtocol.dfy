/** The wire frame of the socket adapter (`_protocol.py`). */
module SocketProtocol {
  import opened Wrappers
  import opened Bytes

  const MAGIC: seq<Byte> := [0x58, 0x4D]
  const VERSION: Byte := 1
  const HEADER_SIZE: nat := 16
  const MAX_PAYLOAD_SIZE: nat := 64 * 1024 * 1024

  const COMMAND_RESPONSE := 2
  const STREAM_START := 3
  const STREAM_CHUNK := 4
  const STREAM_END := 5
  const STREAM_RESPONSE := 6
  const ERROR := 7
  const CANCEL := 8

  datatype Frame = Frame(kind: nat, sid: nat, payload: seq<Byte>)

  /** What `struct.pack` can hold: one byte, eight and four. */
  predicate Packable(f: Frame) {
    f.kind < Power(1) && f.sid < Power(8) && |f.payload| < Power(4)
  }

  function Header(f: Frame): (bs: seq<Byte>)
    ensures |bs| == HEADER_SIZE
  {
    MAGIC + [VERSION] + Pack(f.kind, 1) + Pack(f.sid, 8) + Pack(|f.payload|, 4)
  }

  /** The bytes of a frame once packed. */
  function Encoded(f: Frame): seq<Byte> { Header(f) + f.payload }

  /** `encode_frame`; `None` is the error of `struct.pack`. */
  function EncodeFrame(f: Frame): Option<seq<Byte>> {
    if Packable(f) then Some(Encoded(f)) else None
  }

  datatype Read =
    | Got(frame: Frame, rest: seq<Byte>)
    | Incomplete
    | BadMagic
    | BadVersion
    | TooLarge(length: nat)

  /** `read_frame` on the bytes a connection delivers before it closes. */
  function Parse(s: seq<Byte>): Read {
    if |s| < HEADER_SIZE then Incomplete
    else
      var length := Unpack(s[12..16]);
      if s[..2] != MAGIC then BadMagic
      else if s[2] != VERSION then BadVersion
      else if length > MAX_PAYLOAD_SIZE then TooLarge(length)
      else if |s| < HEADER_SIZE + length then Incomplete
      else Got(Frame(Unpack(s[3..4]), Unpack(s[4..12]), s[16..16 + length]), s[16 + length..])
  }

  /** The header of a frame at the front of a stream, field by field. */
  lemma HeaderFields(f: Frame, s: seq<Byte>)
    requires Packable(f) && Header(f) <= s
    ensures |s| >= HEADER_SIZE && s[..2] == MAGIC && s[2] == VERSION
    ensures Unpack(s[3..4]) == f.kind && Unpack(s[4..12]) == f.sid && Unpack(s[12..16]) == |f.payload|
  {
    PackThenUnpack(f.kind, 1);
    PackThenUnpack(f.sid, 8);
    PackThenUnpack(|f.payload|, 4);
    var h := Header(f);
    assert s[..2] == h[..2] == MAGIC && s[2] == h[2];
    assert s[3..4] == h[3..4] == Pack(f.kind, 1);
    assert s[4..12] == h[4..12] == Pack(f.sid, 8);
    assert s[12..16] == h[12..16] == Pack(|f.payload|, 4);
  }

  /** A frame is read back as sent, leaving what follows it, exactly when its
      payload is within the reader's bound: the writer's bound is wider. */
  lemma FrameRoundTrip(f: Frame, rest: seq<Byte>)
    requires Packable(f)
    ensures Parse(Encoded(f) + rest) == if |f.payload| <= MAX_PAYLOAD_SIZE then Got(f, rest) else TooLarge(|f.payload|)
  {
    hide Header, Unpack, Packable;
    var s := Encoded(f) + rest;
    assert Header(f) <= s;
    HeaderFields(f, s);
    if |f.payload| <= MAX_PAYLOAD_SIZE {
      assert s[16..16 + |f.payload|] == f.payload;
      assert s[16 + |f.payload|..] == rest;
    }
  }

  /** Nothing is read out of a frame cut short. */
  lemma CutFrameIsIncomplete(f: Frame, n: nat)
    requires Packable(f) && n < |Encoded(f)| && |f.payload| <= MAX_PAYLOAD_SIZE
    ensures Parse(Encoded(f)[..n]) == Incomplete
  {
    hide Header, Unpack, Packable;
    var s := Encoded(f)[..n];
    if n >= HEADER_SIZE {
      assert s[..16] == Header(f);
      assert Header(f) <= s;
      HeaderFields(f, s);
    }
  }

  /** What is read is what some sender encoded: no two byte strings read alike. */
  lemma ReadIsEncoded(s: seq<Byte>)
    requires Parse(s).Got?
    ensures Packable(Parse(s).frame) && |Parse(s).frame.payload| <= MAX_PAYLOAD_SIZE
    ensures s == Encoded(Parse(s).frame) + Parse(s).rest
  {
    hide Power, Pack, Unpack;
    var f := Parse(s).frame;
    UnpackThenPack(s[3..4]);
    UnpackThenPack(s[4..12]);
    UnpackThenPack(s[12..16]);
    PowerValues();
    assert Header(f) == s[..2] + [s[2]] + s[3..4] + s[4..12] + s[12..16];
    assert s[..16] == Header(f);
    assert s == s[..16] + s[16..16 + |f.payload|] + s[16 + |f.payload|..];
  }

  // ------------------------------------------------------------------
  // Streams of frames
  // ------------------------------------------------------------------

  function Wire(fs: seq<Frame>): seq<Byte> {
    if fs == [] then [] else Encoded(fs[0]) + Wire(fs[1..])
  }

  /** Reading until the bytes run out or something is wrong: the frames and how
      the reading ended. */
  function ParseAll(s: seq<Byte>): (seq<Frame>, Read)
    decreases |s|
  {
    match Parse(s)
    case Got(f, rest) =>
      ParseShrinks(s);
      var (fs, end) := ParseAll(rest);
      ([f] + fs, end)
    case other => ([], other)
  }

  lemma ParseShrinks(s: seq<Byte>)
    requires Parse(s).Got?
    ensures |Parse(s).rest| < |s|
  {}

  predicate Sendable(f: Frame) { Packable(f) && |f.payload| <= MAX_PAYLOAD_SIZE }

  lemma {:induction false} WireRoundTrip(fs: seq<Frame>, tail: seq<Byte>)
    requires forall f :: f in fs ==> Sendable(f)
    ensures ParseAll(Wire(fs) + tail) == (fs + ParseAll(tail).0, ParseAll(tail).1)
  {
    hide Parse, Packable, Encoded;
    if fs == [] {
      assert Wire(fs) + tail == tail && fs + ParseAll(tail).0 == ParseAll(tail).0;
    } else {
      assert fs[0] in fs && Sendable(fs[0]);
      WireRoundTrip(fs[1..], tail);
      var rest := Wire(fs[1..]) + tail;
      assert Wire(fs) + tail == Encoded(fs[0]) + rest;
      FrameRoundTrip(fs[0], rest);
      assert fs + ParseAll(tail).0 == [fs[0]] + (fs[1..] + ParseAll(tail).0);
    }
  }

  lemma {:induction false} WireSnoc(fs: seq<Frame>, f: Frame)
    ensures Wire(fs + [f]) == Wire(fs) + Encoded(f)
  {
    hide Encoded;
    if fs == [] {
      assert fs + [f] == [f] && [f][1..] == [];
      assert Encoded(f) + [] == Encoded(f) && [] + Encoded(f) == Encoded(f);
    } else {
      WireSnoc(fs[1..], f);
      assert (fs + [f])[1..] == fs[1..] + [f];
      assert Encoded(fs[0]) + (Wire(fs[1..]) + Encoded(f)) == (Encoded(fs[0]) + Wire(fs[1..])) + Encoded(f);
    }
  }

  // ------------------------------------------------------------------
  // The reader
  // ------------------------------------------------------------------

  /** A stream whose peer has sent `data` and closed. */
  class StreamReader {
    var data: seq<Byte>

    constructor (bytes: seq<Byte>)
      ensures data == bytes
    {
      data := bytes;
    }

    /** `readexactly`; `None` is `IncompleteReadError`, which drains the buffer. */
    method ReadExactly(n: nat) returns (r: Option<seq<Byte>>)
      modifies this
      ensures if |old(data)| < n then r == None && data == [] else r == Some(old(data)[..n]) && data == old(data)[n..]
    {
      if |data| < n {
        data := [];
        return None;
      }
      r := Some(data[..n]);
      data := data[n..];
    }
  }

  /** `read_frame`. */
  method ReadFrame(reader: StreamReader) returns (r: Read)
    modifies reader
    ensures r == Parse(old(reader.data))
    ensures r.Got? ==> reader.data == r.rest
  {
    hide Unpack;
    ghost var s := reader.data;
    var header := reader.ReadExactly(HEADER_SIZE);
    if header.None? { return Incomplete; }
    var h := header.value;
    assert h[12..16] == s[12..16] && h[..2] == s[..2] && h[3..4] == s[3..4] && h[4..12] == s[4..12];
    var length := Unpack(h[12..16]);
    if h[..2] != MAGIC { return BadMagic; }
    if h[2] != VERSION { return BadVersion; }
    if length > MAX_PAYLOAD_SIZE { return TooLarge(length); }
    var payload := [];
    if length > 0 {
      var body := reader.ReadExactly(length);
      if body.None? { return Incomplete; }
      payload := body.value;
    }
    assert s[16..][..length] == s[16..16 + length] && s[16..][length..] == s[16 + length..];
    return Got(Frame(Unpack(h[3..4]), Unpack(h[4..12]), payload), reader.data);
  }
}
