/** The BLOB codec of embedding vectors; an f32 is its 32-bit pattern. */
module EmbeddingCodec {
  import opened Common

  type Word = n: int | 0 <= n < 0x1_0000_0000

  const LE_F32: Byte := 0x01
  const BE_F32: Byte := 0x02

  datatype FormatError =
    | UnknownHeader(header: Byte)
    | BigEndianUnsupported
    | MalformedLength(length: nat)

  function ToLeBytes(n: Word): (b: seq<Byte>)
    ensures |b| == 4
  {
    [n % 0x100, n / 0x100 % 0x100, n / 0x1_0000 % 0x100, n / 0x100_0000]
  }

  function FromLeBytes(b: seq<Byte>): Word
    requires |b| == 4
  {
    var b0: int, b1: int, b2: int, b3: int := b[0], b[1], b[2], b[3];
    b0 + 0x100 * b1 + 0x1_0000 * b2 + 0x100_0000 * b3
  }

  lemma WordThroughBytes(n: Word)
    ensures FromLeBytes(ToLeBytes(n)) == n
  {
    var x, y := n / 0x100, n / 0x1_0000;
    assert x / 0x100 == y && y / 0x100 == n / 0x100_0000;
    assert n == n % 0x100 + 0x100 * x;
    assert x == x % 0x100 + 0x100 * y;
    assert y == y % 0x100 + 0x100 * (n / 0x100_0000);
  }

  lemma BytesThroughWord(b: seq<Byte>)
    requires |b| == 4
    ensures ToLeBytes(FromLeBytes(b)) == b
  {
    var n: int := FromLeBytes(b);
    var b1: int, b2: int, b3: int := b[1], b[2], b[3];
    assert n / 0x100 == b1 + 0x100 * b2 + 0x1_0000 * b3;
    assert n / 0x1_0000 == b2 + 0x100 * b3;
    assert n / 0x100_0000 == b3;
  }

  /** The payload of a vector, little end first. */
  function Payload(v: seq<Word>): (b: seq<Byte>)
    ensures |b| == 4 * |v|
  {
    if v == [] then [] else Payload(v[..|v| - 1]) + ToLeBytes(v[|v| - 1])
  }

  /** `chunks_exact(4)`: trailing bytes short of a word are dropped. */
  function Words(b: seq<Byte>): (v: seq<Word>)
    ensures |v| == |b| / 4
  {
    if |b| < 4 then [] else [FromLeBytes(b[..4])] + Words(b[4..])
  }

  method EncodeEmbeddingBlob(embedding: seq<Word>) returns (out: seq<Byte>)
    ensures out == [LE_F32] + Payload(embedding)
    ensures Decode(out) == Ok(embedding)
    ensures |out| == 1 + 4 * |embedding| && out[0] == 1
    ensures forall i :: 0 <= i < |embedding| ==> LittleEndian(out[1 + 4 * i..5 + 4 * i], embedding[i])
  {
    out := [LE_F32];
    for i := 0 to |embedding|
      invariant out == [LE_F32] + Payload(embedding[..i])
    {
      assert embedding[..i + 1][..i] == embedding[..i];
      out := out + ToLeBytes(embedding[i]);
    }
    assert embedding[..|embedding|] == embedding;
    DecodeEncoded(embedding);
    forall i | 0 <= i < |embedding| ensures LittleEndian(out[1 + 4 * i..5 + 4 * i], embedding[i]) {
      WordAt(embedding, i);
      assert out[1..][4 * i..4 * i + 4] == out[1 + 4 * i..5 + 4 * i];
    }
  }

  /** Four bytes whose weights rise by 256 from the first on. */
  predicate LittleEndian(b: seq<Byte>, n: Word) {
    |b| == 4 &&
    var b0: int, b1: int, b2: int, b3: int := b[0], b[1], b[2], b[3];
    n == b0 + 256 * (b1 + 256 * (b2 + 256 * b3))
  }

  lemma {:induction false} WordAt(v: seq<Word>, i: nat)
    requires i < |v|
    ensures LittleEndian(Payload(v)[4 * i..4 * i + 4], v[i])
    decreases |v|
  {
    var n := |v| - 1;
    if i == n {
      assert Payload(v)[4 * n..4 * n + 4] == ToLeBytes(v[n]);
      WordThroughBytes(v[n]);
    } else {
      hide LittleEndian, ToLeBytes;
      WordAt(v[..n], i);
      assert Payload(v)[4 * i..4 * i + 4] == Payload(v[..n])[4 * i..4 * i + 4];
    }
  }

  function Decode(bytes: seq<Byte>): Result<seq<Word>, FormatError> {
    if bytes == [] then Ok([])
    else if |bytes| % 4 == 1 then
      if bytes[0] == LE_F32 then Ok(Words(bytes[1..]))
      else if bytes[0] == BE_F32 then Err(BigEndianUnsupported)
      else Err(UnknownHeader(bytes[0]))
    else if |bytes| % 4 == 0 then Ok(Words(bytes))
    else Err(MalformedLength(|bytes|))
  }

  function DecodedDim(bytes: seq<Byte>): nat {
    if bytes == [] then 0
    else if |bytes| % 4 == 1 then (|bytes| - 1) / 4
    else |bytes| / 4
  }

  lemma {:induction false} WordsOfPayload(v: seq<Word>, rest: seq<Byte>)
    requires |rest| < 4
    ensures Words(Payload(v) + rest) == v
    decreases |v|
  {
    hide ToLeBytes, FromLeBytes;
    if v != [] {
      PayloadFront(v);
      var b := Payload(v) + rest;
      assert b[..4] == ToLeBytes(v[0]) && b[4..] == Payload(v[1..]) + rest;
      WordThroughBytes(v[0]);
      WordsOfPayload(v[1..], rest);
    }
  }

  lemma {:induction false} PayloadFront(v: seq<Word>)
    requires v != []
    ensures Payload(v) == ToLeBytes(v[0]) + Payload(v[1..])
    decreases |v|
  {
    hide ToLeBytes;
    var n := |v| - 1;
    if n == 0 {
      assert v[..0] == [] && v[1..] == [];
    } else {
      PayloadFront(v[..n]);
      assert v[..n][1..] == v[1..][..n - 1];
      assert v[1..][n - 1] == v[n];
    }
  }

  lemma {:induction false} PayloadOfWords(b: seq<Byte>)
    requires |b| % 4 == 0
    ensures Payload(Words(b)) == b
    decreases |b|
  {
    hide ToLeBytes, FromLeBytes;
    if b != [] {
      PayloadOfWords(b[4..]);
      PayloadFront(Words(b));
      assert Words(b)[1..] == Words(b[4..]);
      BytesThroughWord(b[..4]);
      assert b == b[..4] + b[4..];
    }
  }

  /** Round trip: an encoded vector decodes to itself, bit for bit. */
  lemma DecodeEncoded(v: seq<Word>)
    ensures Decode([LE_F32] + Payload(v)) == Ok(v)
  {
    hide Payload, Words;
    var b := [LE_F32] + Payload(v);
    assert b[1..] == Payload(v) + [];
    WordsOfPayload(v, []);
  }

  /**
   * What decodes, and what encoding it again gives: a headed row is
   * reproduced, a legacy row gets the header byte in front. The two never
   * overlap, and every other row is one of the three errors.
   */
  lemma DecodeClasses(bytes: seq<Byte>)
    ensures Decode(bytes).Ok? <==> |bytes| % 4 == 0 || (|bytes| % 4 == 1 && bytes[0] == 1)
    ensures Decode(bytes).Ok? ==>
              [1] + Payload(Decode(bytes).value) == if |bytes| % 4 == 0 then [1] + bytes else bytes
    ensures Decode(bytes) == Err(BigEndianUnsupported) <==> |bytes| % 4 == 1 && bytes[0] == 2
    ensures |bytes| % 4 == 1 && bytes[0] !in {1, 2} ==> Decode(bytes) == Err(UnknownHeader(bytes[0]))
    ensures Decode(bytes) == Err(MalformedLength(|bytes|)) <==> |bytes| % 4 in {2, 3}
    ensures Decode(bytes).Ok? ==> DecodedDim(bytes) == |Decode(bytes).value|
  {
    if |bytes| % 4 == 0 {
      PayloadOfWords(bytes);
    } else if |bytes| % 4 == 1 {
      PayloadOfWords(bytes[1..]);
      assert bytes == [bytes[0]] + bytes[1..];
    }
  }
}
