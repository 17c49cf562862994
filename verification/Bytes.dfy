/** Bytes and the network byte order used by every wire header. */
module Bytes {

  type Byte = b: int | 0 <= b < 256

  /** 256 to the power `width`: the number of values that fit in `width` bytes. */
  function Range(width: nat): (r: nat)
    ensures r > 0
  {
    if width == 0 then 1 else 256 * Range(width - 1)
  }

  /** The low `width` bytes of `n`, most significant byte first (htonl, htons, htonll). */
  function ToNetwork(n: nat, width: nat): (s: seq<Byte>)
    ensures |s| == width
    decreases width
  {
    if width == 0 then [] else ToNetwork(n / 256, width - 1) + [n % 256]
  }

  /** The number whose network representation is `s` (ntohl, ntohs, ntohll). */
  function FromNetwork(s: seq<Byte>): (n: nat)
    ensures n < Range(|s|)
  {
    if s == [] then 0 else 256 * FromNetwork(s[..|s| - 1]) + s[|s| - 1]
  }

  lemma {:induction false} FromToNetwork(n: nat, width: nat)
    requires n < Range(width)
    ensures FromNetwork(ToNetwork(n, width)) == n
    decreases width
  {
    if width > 0 {
      var s := ToNetwork(n, width);
      assert s[..|s| - 1] == ToNetwork(n / 256, width - 1);
      FromToNetwork(n / 256, width - 1);
    }
  }

  lemma {:induction false} ToFromNetwork(s: seq<Byte>)
    ensures ToNetwork(FromNetwork(s), |s|) == s
  {
    if s != [] {
      ToFromNetwork(s[..|s| - 1]);
      assert FromNetwork(s) / 256 == FromNetwork(s[..|s| - 1]);
      assert s == s[..|s| - 1] + [s[|s| - 1]];
    }
  }

  /** Most significant byte first. */
  lemma {:induction false} TwoBytes(n: nat)
    ensures ToNetwork(n, 2) == [n / 0x100 % 256, n % 256]
  {
    assert ToNetwork(n / 256 / 256, 0) == [];
    assert ToNetwork(n / 256, 1) == [n / 256 % 256];
  }

  lemma {:induction false} FourBytes(n: nat)
    ensures ToNetwork(n, 4) == [n / 0x100_0000 % 256, n / 0x1_0000 % 256, n / 0x100 % 256, n % 256]
  {
    TwoBytes(n / 256 / 256);
    assert ToNetwork(n / 256, 3) == ToNetwork(n / 256 / 256, 2) + [n / 256 % 256];
    assert n / 256 / 256 == n / 0x1_0000 && n / 0x1_0000 / 0x100 == n / 0x100_0000;
  }

  lemma {:induction false} EightBytes(n: nat)
    ensures ToNetwork(n, 8) == ToNetwork(n / 0x1_0000_0000, 4) + ToNetwork(n, 4)
  {
    var n1, n2, n3, n4 := n / 256, n / 256 / 256, n / 256 / 256 / 256, n / 256 / 256 / 256 / 256;
    assert n4 == n / 0x1_0000_0000;
    assert ToNetwork(n3, 5) == ToNetwork(n4, 4) + [n3 % 256];
    assert ToNetwork(n2, 6) == ToNetwork(n3, 5) + [n2 % 256];
    assert ToNetwork(n1, 7) == ToNetwork(n2, 6) + [n1 % 256];
    FourBytes(n);
    hide ToNetwork;
    assert n1 % 256 == n / 0x100 % 256 && n2 % 256 == n / 0x1_0000 % 256 && n3 % 256 == n / 0x100_0000 % 256;
  }

  lemma {:induction false} FromNetworkZeros(s: seq<Byte>)
    requires forall i :: 0 <= i < |s| ==> s[i] == 0
    ensures FromNetwork(s) == 0
  {
    if s != [] {
      FromNetworkZeros(s[..|s| - 1]);
    }
  }

  /** All chunks one after the other. */
  function Concat(chunks: seq<seq<Byte>>): (s: seq<Byte>)
  {
    if chunks == [] then [] else Concat(chunks[..|chunks| - 1]) + chunks[|chunks| - 1]
  }

  lemma {:induction false} ConcatAppend(a: seq<seq<Byte>>, b: seq<seq<Byte>>)
    ensures Concat(a + b) == Concat(a) + Concat(b)
  {
    if b == [] {
      assert a + b == a;
    } else {
      var n := |b| - 1;
      assert (a + b)[..|a + b| - 1] == a + b[..n];
      ConcatAppend(a, b[..n]);
      assert Concat(a) + (Concat(b[..n]) + b[n]) == Concat(a) + Concat(b[..n]) + b[n];
    }
  }
}
