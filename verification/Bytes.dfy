/** Bytes, 64-bit words and the little-endian layout of the structures stored on disk. */
module Bytes {

  const TWO_64: int := 0x1_0000_0000_0000_0000

  type byte = x: int | 0 <= x < 256

  type u64 = x: int | 0 <= x < TWO_64

  /** size_t addition: it wraps. */
  function Add64(a: u64, b: u64): (r: u64)
    ensures a + b < TWO_64 ==> r == a + b
  {
    (a + b) % TWO_64
  }

  /** size_t negation, the `-1 * n` that the source passes as a negative shift. */
  function Neg64(a: u64): (r: u64)
  {
    (TWO_64 - a) % TWO_64
  }

  /** A wrapped negative shift is a true subtraction whenever the value is large enough. */
  lemma AddNeg(a: u64, b: u64)
    requires b <= a
    ensures Add64(a, Neg64(b)) == a - b
  {
    if b != 0 {
      assert Neg64(b) == TWO_64 - b;
      assert a + Neg64(b) == (a - b) + TWO_64;
    }
  }

  function Pow256(n: nat): (r: nat)
    ensures r > 0
  {
    if n == 0 then 1 else 256 * Pow256(n - 1)
  }

  /** `n` bytes of `x`, least significant first. */
  function Le(x: nat, n: nat): (s: seq<byte>)
    ensures |s| == n
    decreases n
  {
    if n == 0 then [] else [x % 256] + Le(x / 256, n - 1)
  }

  /** Byte `j` of `x`. */
  function ByteOf(x: nat, j: nat): (b: byte)
    decreases j
  {
    if j == 0 then x % 256 else ByteOf(x / 256, j - 1)
  }

  lemma {:induction false} LeByte(x: nat, n: nat, j: nat)
    requires j < n
    ensures Le(x, n)[j] == ByteOf(x, j)
    decreases n
  {
    if j != 0 {
      LeByte(x / 256, n - 1, j - 1);
    }
  }

  lemma MulBeyond(d: nat, k: int)
    ensures k >= 1 ==> d * k >= d
    ensures k <= -1 ==> d * k <= 0 - d
  {
    assert d * k - d == d * (k - 1) && d * k + d == d * (k + 1);
  }

  lemma DivUnique(x: nat, d: nat, q: nat, r: nat)
    requires 0 < d && r < d && x == d * q + r
    ensures x / d == q
  {
    var k := x / d - q;
    assert d * k == r - x % d;
    MulBeyond(d, k);
  }

  lemma DivDiv(x: nat, b: nat)
    requires b > 0
    ensures x / 256 / b == x / (256 * b)
  {
    var q, r := x / 256, x % 256;
    var p, s := q / b, q % b;
    assert x == 256 * b * p + (256 * s + r);
    DivUnique(x, 256 * b, p, 256 * s + r);
  }

  /** Little-endian: byte `j` is the digit of weight 256^j. */
  lemma {:induction false} ByteOfDigit(x: nat, j: nat)
    ensures ByteOf(x, j) == x / Pow256(j) % 256
    decreases j
  {
    if j != 0 {
      ByteOfDigit(x / 256, j - 1);
      DivDiv(x, Pow256(j - 1));
    }
  }

  function FromLe(s: seq<byte>): (x: nat)
  {
    if s == [] then 0 else s[0] + 256 * FromLe(s[1..])
  }

  lemma {:induction false} LeRoundTrip(x: nat, n: nat)
    requires x < Pow256(n)
    ensures FromLe(Le(x, n)) == x
    decreases n
  {
    if n != 0 {
      LeRoundTrip(x / 256, n - 1);
      assert Le(x, n)[1..] == Le(x / 256, n - 1);
    }
  }

  lemma {:induction false} FromLeBound(s: seq<byte>)
    ensures FromLe(s) < Pow256(|s|)
  {
    if s != [] {
      FromLeBound(s[1..]);
    }
  }

  lemma {:induction false} LeOfFromLe(s: seq<byte>)
    ensures Le(FromLe(s), |s|) == s
  {
    if s != [] {
      LeOfFromLe(s[1..]);
      assert FromLe(s) % 256 == s[0] && FromLe(s) / 256 == FromLe(s[1..]);
      assert s == [s[0]] + s[1..];
    }
  }

  lemma Pow64()
    ensures Pow256(8) == TWO_64
  {
    assert Pow256(2) == 65536;
    assert Pow256(4) == 65536 * Pow256(2);
    assert Pow256(6) == 65536 * Pow256(4);
    assert Pow256(8) == 65536 * Pow256(6);
  }

  function Zeros(n: nat): (s: seq<byte>)
    ensures |s| == n
    ensures forall i :: 0 <= i < n ==> s[i] == 0
  {
    seq(n, _ => 0)
  }

  predicate AllZero(s: seq<byte>) {
    forall i :: 0 <= i < |s| ==> s[i] == 0
  }

  lemma {:induction false} FromLeZero(s: seq<byte>)
    requires AllZero(s)
    ensures FromLe(s) == 0
  {
    if s != [] {
      FromLeZero(s[1..]);
    }
  }

  /** A structure of 64-bit fields, as it lies in memory and on disk. */
  function Words(ws: seq<u64>): (s: seq<byte>)
    ensures |s| == 8 * |ws|
  {
    seq(8 * |ws|, p requires 0 <= p < 8 * |ws| => ByteOf(ws[p / 8], p % 8))
  }

  function FromWords(s: seq<byte>, n: nat): (ws: seq<u64>)
    requires |s| == 8 * n
    ensures |ws| == n
  {
    seq(n, i requires 0 <= i < n => WordOf(s[8 * i..8 * i + 8]))
  }

  function WordOf(s: seq<byte>): (x: u64)
    requires |s| == 8
  {
    FromLeBound(s);
    Pow64();
    FromLe(s)
  }

  /** Where word `i` of a structure lies. */
  lemma WordAt(ws: seq<u64>, i: nat)
    requires i < |ws|
    ensures Words(ws)[8 * i..8 * i + 8] == Le(ws[i], 8)
  {
    hide Words, Le, ByteOf;
    var s := Words(ws)[8 * i..8 * i + 8];
    var t := Le(ws[i], 8);
    forall j | 0 <= j < 8 ensures s[j] == t[j] {
      LeByte(ws[i], 8, j);
      ByteIn(ws, i, j);
    }
  }

  lemma ByteIn(ws: seq<u64>, i: nat, j: nat)
    requires i < |ws| && j < 8
    ensures Words(ws)[8 * i + j] == ByteOf(ws[i], j)
  {
    hide ByteOf;
    assert (8 * i + j) / 8 == i && (8 * i + j) % 8 == j;
  }

  /** A structure on disk: word by word, each least significant byte first. */
  lemma WordsBytes(ws: seq<u64>, i: nat, j: nat)
    requires i < |ws| && j < 8
    ensures Words(ws)[8 * i + j] == ws[i] / Pow256(j) % 256
  {
    hide Words, ByteOf;
    ByteIn(ws, i, j);
    ByteOfDigit(ws[i], j);
  }

  lemma WordsRoundTrip(ws: seq<u64>)
    ensures FromWords(Words(ws), |ws|) == ws
  {
    var r := FromWords(Words(ws), |ws|);
    forall i | 0 <= i < |ws| ensures r[i] == ws[i] {
      WordAt(ws, i);
      Pow64();
      LeRoundTrip(ws[i], 8);
    }
  }

  /** Overwriting the eight bytes of one field changes that field and no other. */
  lemma WordsUpdate(ws: seq<u64>, i: nat, x: u64, p: nat)
    requires i < |ws| && p < 8 * |ws|
    ensures Words(ws[i := x])[p] == if 8 * i <= p < 8 * i + 8 then Le(x, 8)[p - 8 * i] else Words(ws)[p]
  {
    if 8 * i <= p < 8 * i + 8 {
      LeByte(x, 8, p - 8 * i);
    }
  }

  lemma WordsConcat(a: seq<u64>, b: seq<u64>)
    ensures Words(a + b) == Words(a) + Words(b)
  {
    var s, t := Words(a + b), Words(a) + Words(b);
    forall p | 0 <= p < |s| ensures s[p] == t[p] {
      if p >= 8 * |a| {
        assert (p - 8 * |a|) / 8 == p / 8 - |a| && (p - 8 * |a|) % 8 == p % 8;
      }
    }
  }

  /** A non-zero field leaves a non-zero byte behind. */
  lemma NonZeroWord(ws: seq<u64>, i: nat) returns (q: nat)
    requires i < |ws| && ws[i] != 0
    ensures 8 * i <= q < 8 * i + 8 && Words(ws)[q] != 0
  {
    var l := Words(ws)[8 * i..8 * i + 8];
    if AllZero(l) {
      WordAt(ws, i);
      Pow64();
      LeRoundTrip(ws[i], 8);
      FromLeZero(l);
      assert false;
    }
    var j :| 0 <= j < 8 && l[j] != 0;
    q := 8 * i + j;
  }
}
