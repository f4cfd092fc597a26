/** The data file: random-access reads and writes of bytes. */
module Disk {
  import opened Bytes

  /** The byte at a position; what was never written reads as zero. */
  function At(d: seq<byte>, p: nat): (b: byte)
  {
    if p < |d| then d[p] else 0
  }

  /** The bytes `s` lie at `off`. */
  ghost predicate Holds(d: seq<byte>, off: nat, s: seq<byte>) {
    forall p :: off <= p < off + |s| ==> At(d, p) == s[p - off]
  }

  /** `d'` is `d` after `s` was written at `off`. */
  ghost predicate Written(d: seq<byte>, d': seq<byte>, off: nat, s: seq<byte>) {
    forall p: nat :: At(d', p) == if off <= p < off + |s| then s[p - off] else At(d, p)
  }

  /** No byte of [lo, hi) differs. */
  ghost predicate SameOn(d: seq<byte>, d': seq<byte>, lo: nat, hi: nat) {
    forall p: nat :: lo <= p < hi ==> At(d', p) == At(d, p)
  }

  /** No byte outside [lo, hi) differs. */
  ghost predicate SameOutside(d: seq<byte>, d': seq<byte>, lo: nat, hi: nat) {
    forall p: nat :: !(lo <= p < hi) ==> At(d', p) == At(d, p)
  }

  /** The same contents. */
  ghost predicate Same(d: seq<byte>, d': seq<byte>) {
    forall p: nat :: At(d', p) == At(d, p)
  }

  ghost predicate ZeroOn(d: seq<byte>, lo: nat, hi: nat) {
    forall p: nat :: lo <= p < hi ==> At(d, p) == 0
  }

  lemma HoldsFrame(d: seq<byte>, d': seq<byte>, lo: nat, hi: nat, off: nat, s: seq<byte>)
    requires Holds(d, off, s) && SameOn(d, d', lo, hi) && (s != [] ==> lo <= off && off + |s| <= hi)
    ensures Holds(d', off, s)
  {
    hide At;
  }

  /** Writing what is already there changes nothing. */
  lemma RewriteSame(d: seq<byte>, d': seq<byte>, off: nat, s: seq<byte>)
    requires Holds(d, off, s) && Written(d, d', off, s)
    ensures Same(d, d')
  {
    hide At;
  }

  lemma HoldsUnique(d: seq<byte>, off: nat, s: seq<byte>, t: seq<byte>)
    requires Holds(d, off, s) && Holds(d, off, t) && |s| == |t|
    ensures s == t
  {
    hide At;
    forall i | 0 <= i < |s| ensures s[i] == t[i] {
      assert At(d, off + i) == s[off + i - off];
      assert At(d, off + i) == t[off + i - off];
    }
  }

  lemma ZeroHolds(d: seq<byte>, off: nat, s: seq<byte>)
    requires Holds(d, off, s) && ZeroOn(d, off, off + |s|)
    ensures AllZero(s)
  {
    hide At;
    forall i | 0 <= i < |s| ensures s[i] == 0 {
      assert At(d, off + i) == s[off + i - off];
    }
  }

  class Disk {
    var bytes: seq<byte>

    constructor ()
      ensures bytes == []
    {
      bytes := [];
    }

    method Read(off: nat, n: nat) returns (s: seq<byte>)
      ensures |s| == n && Holds(bytes, off, s)
    {
      var d := bytes;
      s := seq<byte>(n, i requires 0 <= i => At(d, off + i));
    }

    method Write(off: nat, s: seq<byte>)
      modifies this
      ensures Written(old(bytes), bytes, off, s)
    {
      if s != [] {
        var d := if off + |s| <= |bytes| then bytes else bytes + Zeros(off + |s| - |bytes|);
        bytes := d[..off] + s + d[off + |s|..];
      }
    }
  }
}
