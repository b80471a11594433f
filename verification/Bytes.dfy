/** Big-endian integers of fixed width, as `struct` packs them. */
module Bytes {
  type Byte = b: int | 0 <= b < 256

  function Power(n: nat): (p: nat)
    ensures p > 0
  {
    if n == 0 then 1 else 256 * Power(n - 1)
  }

  function Pack(v: nat, n: nat): (bs: seq<Byte>)
    ensures |bs| == n
  {
    if n == 0 then [] else Pack(v / 256, n - 1) + [v % 256]
  }

  function Unpack(bs: seq<Byte>): (v: nat)
    ensures v < Power(|bs|)
  {
    if bs == [] then 0 else Unpack(bs[..|bs| - 1]) * 256 + bs[|bs| - 1]
  }

  lemma {:induction false} PackThenUnpack(v: nat, n: nat)
    requires v < Power(n)
    ensures Unpack(Pack(v, n)) == v
  {
    if n > 0 {
      PackThenUnpack(v / 256, n - 1);
      assert Pack(v, n)[..n - 1] == Pack(v / 256, n - 1);
    }
  }

  lemma {:induction false} UnpackThenPack(bs: seq<Byte>)
    ensures Pack(Unpack(bs), |bs|) == bs
  {
    if bs != [] {
      UnpackThenPack(bs[..|bs| - 1]);
      assert Unpack(bs) / 256 == Unpack(bs[..|bs| - 1]) && Unpack(bs) % 256 == bs[|bs| - 1];
      assert bs == bs[..|bs| - 1] + [bs[|bs| - 1]];
    }
  }

  lemma PowerValues()
    ensures Power(1) == 256 && Power(4) == 0x1_0000_0000 && Power(8) == 0x1_0000_0000_0000_0000
  {
    assert Power(2) == 256 * Power(1) && Power(3) == 256 * Power(2) && Power(4) == 256 * Power(3);
    assert Power(5) == 256 * Power(4) && Power(6) == 256 * Power(5);
    assert Power(7) == 256 * Power(6) && Power(8) == 256 * Power(7);
  }
}
