/** `hex_encode` of `src/audit.rs`: digests as lower-case text. */
module Hex {
  import opened Common

  const HEX: string := "0123456789abcdef"

  function HexPair(b: Byte): (s: string)
    ensures |s| == 2
  {
    [HEX[b / 16], HEX[b % 16]]
  }

  function HexOf(bytes: seq<Byte>): (s: string)
    ensures |s| == 2 * |bytes|
  {
    if bytes == [] then "" else HexOf(bytes[..|bytes| - 1]) + HexPair(bytes[|bytes| - 1])
  }

  /** What a lower-case hexadecimal digit stands for. */
  function DigitValue(ch: char): Option<nat> {
    if '0' <= ch <= '9' then Some(ch as int - '0' as int)
    else if 'a' <= ch <= 'f' then Some(ch as int - 'a' as int + 10)
    else None
  }

  /** The two digits at `k` spell the byte, high one first. */
  predicate Spells(out: string, k: nat, b: Byte)
    requires 2 * k + 1 < |out|
  {
    var high, low := DigitValue(out[2 * k]), DigitValue(out[2 * k + 1]);
    high.Some? && low.Some? && b == 16 * high.value + low.value
  }

  lemma {:induction false} HexSpells(bytes: seq<Byte>, k: nat)
    requires k < |bytes|
    ensures Spells(HexOf(bytes), k, bytes[k])
    decreases |bytes|
  {
    var n := |bytes| - 1;
    if k == n {
      PairSpells(bytes[n]);
      hide Spells, HexPair, DigitValue;
      assert HexOf(bytes)[2 * n] == HexPair(bytes[n])[0] && HexOf(bytes)[2 * n + 1] == HexPair(bytes[n])[1];
      SameSpelling(HexPair(bytes[n]), 0, HexOf(bytes), n, bytes[n]);
    } else {
      hide Spells, HexPair;
      HexSpells(bytes[..n], k);
      SameSpelling(HexOf(bytes[..n]), k, HexOf(bytes), k, bytes[k]);
    }
  }

  lemma SameSpelling(a: string, j: nat, b: string, k: nat, x: Byte)
    requires 2 * j + 1 < |a| && 2 * k + 1 < |b| && Spells(a, j, x)
    requires a[2 * j] == b[2 * k] && a[2 * j + 1] == b[2 * k + 1]
    ensures Spells(b, k, x)
  {}

  lemma PairSpells(b: Byte)
    ensures Spells(HexPair(b), 0, b)
  {
    DigitOf(b / 16);
    DigitOf(b % 16);
  }

  lemma DigitOf(i: nat)
    requires i < 16
    ensures DigitValue(HEX[i]) == Some(i)
  {}

  method HexEncode(bytes: seq<Byte>) returns (out: string)
    ensures out == HexOf(bytes)
    ensures |out| == 2 * |bytes| && forall k :: 0 <= k < |bytes| ==> Spells(out, k, bytes[k])
  {
    out := "";
    for k := 0 to |bytes|
      invariant out == HexOf(bytes[..k])
    {
      assert bytes[..k + 1][..k] == bytes[..k];
      var b := bytes[k];
      ghost var before := out;
      out := out + [HEX[b / 16]];
      out := out + [HEX[b % 16]];
      assert out == before + HexPair(b);
    }
    assert bytes[..|bytes|] == bytes;
    forall k | 0 <= k < |bytes| ensures Spells(out, k, bytes[k]) {
      HexSpells(bytes, k);
    }
  }

  /** Equal hex texts come from equal bytes: `hex_encode` adds no collisions. */
  lemma {:induction false} HexInjective(a: seq<Byte>, b: seq<Byte>)
    requires HexOf(a) == HexOf(b)
    ensures a == b
    decreases |a|
  {
    hide HexOf, HexPair;
    if a == [] || b == [] {
      assert |HexOf(a)| == |HexOf(b)|;
    } else {
      var m, n := |a| - 1, |b| - 1;
      LastPair(a);
      LastPair(b);
      SameSplit(HexOf(a[..m]), HexPair(a[m]), HexOf(b[..n]), HexPair(b[n]));
      HexInjective(a[..m], b[..n]);
      HexPairInjective(a[m], b[n]);
      assert a == a[..m] + [a[m]] && b == b[..n] + [b[n]];
    }
  }

  lemma LastPair(bytes: seq<Byte>)
    requires bytes != []
    ensures HexOf(bytes) == HexOf(bytes[..|bytes| - 1]) + HexPair(bytes[|bytes| - 1])
  {}

  lemma SameSplit(x: string, u: string, y: string, v: string)
    requires x + u == y + v && |u| == |v|
    ensures x == y && u == v
  {
    assert |x| == |y|;
    assert x == (x + u)[..|x|] && y == (y + v)[..|x|];
    assert u == (x + u)[|x|..] && v == (y + v)[|x|..];
  }

  lemma HexPairInjective(x: Byte, y: Byte)
    requires HexPair(x) == HexPair(y)
    ensures x == y
  {
    HexDigitInjective(x / 16, y / 16);
    HexDigitInjective(x % 16, y % 16);
  }

  lemma HexDigitInjective(i: nat, j: nat)
    requires i < 16 && j < 16 && HEX[i] == HEX[j]
    ensures i == j
  {}
}
