/** Machine words and their little-endian byte form, as the encoder writes and the decoder reads them. */
module Bytes {

  type byte = x: int | 0 <= x < 0x100
  type u32 = x: int | 0 <= x < 0x1_0000_0000
  type u64 = x: int | 0 <= x < 0x1_0000_0000_0000_0000

  const WORD32 := 0x1_0000_0000
  const WORD64 := 0x1_0000_0000_0000_0000

  /** `(uint32_t)-1`: "not emitted" as an instruction offset, "end of procedure" as a return address. */
  const NONE32: u32 := 0xFFFF_FFFF

  /** Number of values that fit in `n` bytes. */
  function Capacity(n: nat): (r: nat)
    ensures r > 0
  {
    if n == 0 then 1 else 256 * Capacity(n - 1)
  }

  /** The low `n` bytes of `v`, least significant first: a store through a pointer to an n-byte word. */
  function ToLE(v: nat, n: nat): (s: seq<byte>)
    ensures |s| == n
  {
    if n == 0 then [] else [v % 256] + ToLE(v / 256, n - 1)
  }

  /** The value of bytes stored least significant first, zero-extended. */
  function FromLE(s: seq<byte>): nat {
    if s == [] then 0 else s[0] + 256 * FromLE(s[1..])
  }

  lemma ModIsRemainder(v: int, d: int, q: int, r: int)
    requires d > 0 && 0 <= r < d && v == q * d + r
    ensures v % d == r && v / d == q
  {
    var p := v / d;
    assert v == p * d + v % d;
    assert (p - q) * d == r - v % d by { assert (p - q) * d == p * d - q * d; }
    if p > q {
      MulMono(1, p - q, d);
    } else if p < q {
      MulMono(p - q, -1, d);
    }
  }

  lemma MulMono(a: int, b: int, d: int)
    requires a <= b && d >= 0
    ensures a * d <= b * d
  {}

  /** Reading back a stored value yields it truncated to the stored width. */
  lemma {:induction false} LoadAfterStore(v: nat, n: nat)
    ensures FromLE(ToLE(v, n)) == v % Capacity(n)
  {
    if n > 0 {
      LoadAfterStore(v / 256, n - 1);
      var c := Capacity(n - 1);
      var m := (v / 256) % c;
      var k := (v / 256) / c;
      assert v / 256 == k * c + m;
      assert v == k * (256 * c) + (256 * m + v % 256) by {
        assert v == 256 * (v / 256) + v % 256;
        assert k * (256 * c) == 256 * (k * c);
      }
      ModIsRemainder(v, 256 * c, k, 256 * m + v % 256);
      assert ToLE(v, n)[1..] == ToLE(v / 256, n - 1);
    } else {
      ModIsRemainder(v, 1, v, 0);
    }
  }

  /** Storing the value of a byte string reproduces the string. */
  lemma {:induction false} StoreAfterLoad(s: seq<byte>)
    ensures FromLE(s) < Capacity(|s|)
    ensures ToLE(FromLE(s), |s|) == s
  {
    if s != [] {
      StoreAfterLoad(s[1..]);
      assert FromLE(s) / 256 == FromLE(s[1..]);
      assert FromLE(s) % 256 == s[0];
    }
  }

  lemma DivideTwice(v: nat, c: nat)
    requires c > 0
    ensures v / (256 * c) == (v / 256) / c
  {
    var (q, m) := ((v / 256) / c, (v / 256) % c);
    assert v == q * (256 * c) + (256 * m + v % 256) by {
      assert v / 256 == q * c + m && v == 256 * (v / 256) + v % 256;
      assert q * (256 * c) == 256 * (q * c);
    }
    ModIsRemainder(v, 256 * c, q, 256 * m + v % 256);
  }

  /** Least significant first: byte `k` of a stored word is its k-th digit in base 256. */
  lemma {:induction false} ByteOfWord(v: nat, n: nat, k: nat)
    requires k < n
    ensures ToLE(v, n)[k] == (v / Capacity(k)) % 256
  {
    if k == 0 {
      ModIsRemainder(v, 1, v, 0);
    } else {
      ByteOfWord(v / 256, n - 1, k - 1);
      DivideTwice(v, Capacity(k - 1));
    }
  }

  lemma LoadFitting(v: nat, n: nat)
    requires v < Capacity(n)
    ensures FromLE(ToLE(v, n)) == v
  {
    LoadAfterStore(v, n);
    ModIsRemainder(v, Capacity(n), 0, v);
  }

  lemma Capacities()
    ensures Capacity(0) == 1 && Capacity(1) == 0x100 && Capacity(2) == 0x1_0000
    ensures Capacity(3) == 0x100_0000 && Capacity(4) == WORD32 && Capacity(8) == WORD64
  {
    assert Capacity(4) == WORD32;
    assert Capacity(5) == 256 * WORD32;
    assert Capacity(6) == 65536 * WORD32;
  }

  /** `s` with the bytes `t` written over it from position `at`. */
  function Splice(s: seq<byte>, at: nat, t: seq<byte>): (r: seq<byte>)
    requires at + |t| <= |s|
    ensures |r| == |s|
  {
    s[..at] + t + s[at + |t|..]
  }

  /** A load sees a store to the same place, and not one to a disjoint place. */
  lemma SpliceReads(s: seq<byte>, at: nat, t: seq<byte>, from: nat, n: nat)
    requires at + |t| <= |s| && from + n <= |s|
    ensures from == at && n == |t| ==> Splice(s, at, t)[from..from + n] == t
    ensures from + n <= at || at + |t| <= from ==> Splice(s, at, t)[from..from + n] == s[from..from + n]
  {}

  /** `t` stands in `s` at position `at`. */
  predicate Holds(s: seq<byte>, at: nat, t: seq<byte>) {
    at + |t| <= |s| && s[at..at + |t|] == t
  }

  lemma HoldsInPrefix(s: seq<byte>, u: seq<byte>, at: nat, t: seq<byte>)
    requires Holds(s, at, t)
    ensures Holds(s + u, at, t)
  {}

  lemma HoldsAtEnd(s: seq<byte>, t: seq<byte>)
    ensures Holds(s + t, |s|, t)
  {}

  lemma HoldsWithin(s: seq<byte>, at: nat, t: seq<byte>, off: nat, u: seq<byte>)
    requires Holds(s, at, t) && Holds(t, off, u)
    ensures Holds(s, at + off, u)
  {
    forall k | 0 <= k < |u|
      ensures s[at + off + k] == u[k]
    {
      assert s[at..at + |t|][off + k] == t[off + k];
      assert t[off..off + |u|][k] == u[k];
    }
  }

  lemma HoldsAfter(h: seq<byte>, t: seq<byte>, off: nat, u: seq<byte>)
    requires Holds(t, off, u)
    ensures Holds(h + t, |h| + off, u)
  {
    HoldsAtEnd(h, t);
    HoldsWithin(h + t, |h|, t, off, u);
  }

  lemma HoldsInside(s: seq<byte>, at: nat, t: seq<byte>)
    requires Holds(s, at, t)
    ensures at + |t| <= |s|
  {}

  lemma ByteHeld(s: seq<byte>, at: nat, b: byte)
    requires Holds(s, at, [b])
    ensures at < |s| && s[at] == b
  {
    assert s[at..at + 1][0] == b;
  }

  lemma HoldsAtStart(t: seq<byte>, u: seq<byte>)
    ensures Holds(t + u, 0, t)
  {}

  lemma HoldsSpliced(s: seq<byte>, at: nat, t: seq<byte>)
    requires at + |t| <= |s|
    ensures Holds(Splice(s, at, t), at, t)
  {}

  lemma HoldsElsewhere(s: seq<byte>, at: nat, t: seq<byte>, from: nat, u: seq<byte>)
    requires at + |t| <= |s| && Holds(s, from, u) && (from + |u| <= at || at + |t| <= from)
    ensures Holds(Splice(s, at, t), from, u)
  {
    SpliceReads(s, at, t, from, |u|);
  }
}
