/** Octet strings and the big-endian 32-bit numbers of the remctl wire format. */
module Bytes {

  type byte = x: int | 0 <= x < 256

  type Data = seq<byte>

  const UINT32_LIMIT: int := 0x1_0000_0000

  datatype Option<+T> = None | Some(value: T)

  /** The value of an octet read through a signed C `char`. */
  function SignedChar(b: byte): (c: int)
    ensures -128 <= c < 128 && (c - b) % 256 == 0
  {
    if b < 128 then b else b - 256
  }

  function Pow256(k: nat): (p: nat)
    ensures p > 0
  {
    if k == 0 then 1 else 256 * Pow256(k - 1)
  }

  /** The k low octets of n, most significant first. */
  function BigEndian(n: nat, k: nat): (b: Data)
    ensures |b| == k
  {
    if k == 0 then [] else BigEndian(n / 256, k - 1) + [n % 256]
  }

  function OfBigEndian(b: Data): (n: nat)
    ensures n < Pow256(|b|)
  {
    if b == [] then
      0
    else
      var high, low: nat := OfBigEndian(b[..|b| - 1]), b[|b| - 1];
      256 * high + low
  }

  lemma {:induction false} DecodeBigEndian(n: nat, k: nat)
    requires n < Pow256(k)
    ensures OfBigEndian(BigEndian(n, k)) == n
  {
    if k > 0 {
      DecodeBigEndian(n / 256, k - 1);
      var b := BigEndian(n, k);
      assert b[..|b| - 1] == BigEndian(n / 256, k - 1);
    }
  }

  lemma {:induction false} EncodeBigEndian(b: Data)
    ensures BigEndian(OfBigEndian(b), |b|) == b
  {
    if b != [] {
      EncodeBigEndian(b[..|b| - 1]);
      assert OfBigEndian(b) / 256 == OfBigEndian(b[..|b| - 1]);
    }
  }

  /** `htonl((OM_uint32) n)`: the cast keeps the low 32 bits. */
  function U32(n: nat): (b: Data)
    ensures |b| == 4
  {
    BigEndian(n, 4)
  }

  /** `ntohl` of four octets. */
  function OfU32(b: Data): (n: nat)
    requires |b| == 4
    ensures n < UINT32_LIMIT
  {
    assert Pow256(4) == UINT32_LIMIT by { assert Pow256(2) == 0x1_0000; }
    OfBigEndian(b)
  }

  lemma DecodeEncodeU32(n: nat)
    requires n < UINT32_LIMIT
    ensures OfU32(U32(n)) == n
  {
    assert Pow256(2) == 0x1_0000;
    DecodeBigEndian(n, 4);
  }

  lemma EncodeDecodeU32(b: Data)
    requires |b| == 4
    ensures U32(OfU32(b)) == b
  {
    EncodeBigEndian(b);
  }

  lemma ConcatAssociative(x: Data, y: Data, z: Data)
    ensures x + (y + z) == (x + y) + z
  {
  }

  /** Concatenation of a list of pieces. */
  function Flatten(pieces: seq<Data>): (d: Data)
  {
    if pieces == [] then [] else pieces[0] + Flatten(pieces[1..])
  }

  lemma {:induction false} FlattenAppend(xs: seq<Data>, ys: seq<Data>)
    ensures Flatten(xs + ys) == Flatten(xs) + Flatten(ys)
  {
    if xs == [] {
      assert xs + ys == ys;
    } else {
      FlattenAppend(xs[1..], ys);
      ConcatAssociative(xs[0], Flatten(xs[1..]), Flatten(ys));
      assert (xs + ys)[1..] == xs[1..] + ys;
    }
  }

  lemma FlattenSnoc(xs: seq<Data>, y: Data)
    ensures Flatten(xs + [y]) == Flatten(xs) + y
  {
    FlattenAppend(xs, [y]);
    assert Flatten([y]) == y + Flatten([]);
  }

  /** What survives of an octet string copied by `strndup`: everything before the first nul. */
  function CString(d: Data): (s: Data)
    ensures |s| <= |d| && s == d[..|s|] && 0 !in s
    ensures |s| == |d| || d[|s|] == 0
  {
    if d == [] || d[0] == 0 then [] else [d[0]] + CString(d[1..])
  }

  /** `memcpy` into an allocated buffer. */
  method Memcpy(dst: array<byte>, at: nat, src: Data)
    requires at + |src| <= dst.Length
    modifies dst
    ensures dst[..] == old(dst[..at]) + src + old(dst[at + |src|..])
  {
    forall k | 0 <= k < |src| {
      dst[at + k] := src[k];
    }
  }
}
