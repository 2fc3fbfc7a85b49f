/** Bytes, and a seekable stream of them. */
module Bytes {
  type Byte = b: int | 0 <= b < 256

  function Zeros(n: nat): (z: seq<Byte>)
    ensures |z| == n && forall i :: 0 <= i < n ==> z[i] == 0
  {
    if n == 0 then [] else Zeros(n - 1) + [0]
  }

  /** The bytes with `data` written over them at `pos`; a gap before it is filled with zeros. */
  function Put(bytes: seq<Byte>, pos: nat, data: seq<Byte>): seq<Byte> {
    if data == [] then bytes
    else
      (if pos <= |bytes| then bytes[..pos] else bytes + Zeros(pos - |bytes|)) + data +
      (if pos + |data| <= |bytes| then bytes[pos + |data|..] else [])
  }

  /** The `n` bytes at `pos`, or as many as there are; all the rest, if `n` is negative. */
  function Get(bytes: seq<Byte>, pos: nat, n: int): seq<Byte> {
    if pos >= |bytes| then [] else if 0 <= n <= |bytes| - pos then bytes[pos..pos + n] else bytes[pos..]
  }

  class Stream {
    var bytes: seq<Byte>
    var pos: nat

    constructor (contents: seq<Byte>)
      ensures bytes == contents && pos == 0
    {
      bytes, pos := contents, 0;
    }

    method Seek(to: nat)
      modifies this`pos
      ensures pos == to
    {
      pos := to;
    }

    method Tell() returns (at: nat)
      ensures at == pos
    {
      return pos;
    }

    method Write(data: seq<Byte>)
      modifies this
      ensures bytes == Put(old(bytes), old(pos), data)
      ensures pos == old(pos) + |data|
    {
      bytes := Put(bytes, pos, data);
      pos := pos + |data|;
    }

    method Read(n: int) returns (data: seq<Byte>)
      modifies this`pos
      ensures data == Get(bytes, old(pos), n)
      ensures pos == old(pos) + |data|
    {
      data := Get(bytes, pos, n);
      pos := pos + |data|;
    }
  }

  /** Writing on where the last write ended is writing both at once. */
  lemma PutAppend(bytes: seq<Byte>, x: seq<Byte>, y: seq<Byte>)
    ensures Put(Put(bytes, 0, x), |x|, y) == Put(bytes, 0, x + y)
  {
    if x == [] { assert x + y == y; }
    else if y == [] { assert x + y == x; }
    else {
      var a, b := Put(Put(bytes, 0, x), |x|, y), Put(bytes, 0, x + y);
      assert |a| == |b|;
      forall i | 0 <= i < |a| ensures a[i] == b[i] {}
    }
  }

  lemma PutInside(bytes: seq<Byte>, x: seq<Byte>, pos: nat, y: seq<Byte>)
    requires pos + |y| <= |x|
    ensures Put(Put(bytes, 0, x), pos, y) == Put(bytes, 0, Put(x, pos, y))
  {
    var a, b := Put(Put(bytes, 0, x), pos, y), Put(bytes, 0, Put(x, pos, y));
    if x != [] && y != [] {
      assert |a| == |b|;
      forall i | 0 <= i < |a| ensures a[i] == b[i] {}
    }
  }

  lemma PutMiddle(a: seq<Byte>, b: seq<Byte>, c: seq<Byte>, y: seq<Byte>)
    requires |b| == |y| && y != []
    ensures Put(a + b + c, |a|, y) == a + y + c
  {
  }

  // ---- little-endian numbers -------------------------------------------------------------------

  function Pow256(n: nat): (p: nat)
    ensures p >= 1
  {
    if n == 0 then 1 else 256 * Pow256(n - 1)
  }

  /** `n.to_bytes(width, "little")`. */
  function ToLittle(n: nat, width: nat): (r: seq<Byte>)
    requires n < Pow256(width)
    ensures |r| == width
  {
    if width == 0 then [] else [n % 256] + ToLittle(n / 256, width - 1)
  }

  /** `struct.unpack` of a little-endian number. */
  function FromLittle(bytes: seq<Byte>): nat {
    if bytes == [] then 0 else bytes[0] + 256 * FromLittle(bytes[1..])
  }

  lemma {:induction false} LittleRoundTrip(n: nat, width: nat)
    requires n < Pow256(width)
    ensures FromLittle(ToLittle(n, width)) == n
  {
    if width > 0 {
      LittleRoundTrip(n / 256, width - 1);
      assert ToLittle(n, width)[1..] == ToLittle(n / 256, width - 1);
    }
  }

  /** The `i`-th byte counts multiples of 256 to the `i`: the least come first. */
  lemma {:induction false} LittleAt(n: nat, width: nat, i: nat)
    requires n < Pow256(width) && i < width
    ensures Pow256(0) == 1 && Pow256(i + 1) == 256 * Pow256(i)
    ensures ToLittle(n, width)[i] == (n / Pow256(i)) % 256
  {
    if i > 0 {
      LittleAt(n / 256, width - 1, i - 1);
      assert ToLittle(n, width)[i] == ToLittle(n / 256, width - 1)[i - 1];
      DivideTwice(n, 256, Pow256(i - 1));
    }
  }

  lemma {:induction false} DivideTwice(n: nat, a: nat, b: nat)
    requires a > 0 && b > 0
    ensures a * b > 0 && (n / a) / b == n / (a * b)
  {
    Positive(a, b);
    Parts(n, a);
    Parts(n / a, b);
    Regroup(n, a, b, n / a, n % a, n / a / b, n / a % b);
    Divided(n, a * b, n / a / b, a * (n / a % b) + n % a);
  }

  lemma Parts(n: nat, a: nat)
    requires a > 0
    ensures n == a * (n / a) + n % a && n % a < a
  {
  }

  lemma Regroup(n: nat, a: nat, b: nat, q: nat, r: nat, x: nat, y: nat)
    requires n == a * q + r && q == b * x + y && r < a && y < b
    ensures n == (a * b) * x + (a * y + r) && a * y + r < a * b
  {
    assert a * q == a * (b * x) + a * y;
    assert a * (b * x) == (a * b) * x;
    Below(a, b, y, r);
  }

  lemma Positive(a: nat, b: nat)
    requires a > 0 && b > 0
    ensures a * b > 0
  {
  }

  lemma Below(a: nat, b: nat, y: nat, r: nat)
    requires y < b && r < a
    ensures a * y + r < a * b
  {
    assert a * b == a * y + a * (b - y);
    AtLeast(a, b - y);
  }

  lemma AtLeast(a: nat, k: nat)
    requires k >= 1
    ensures a * k >= a
  {
  }

  lemma Divided(n: nat, d: nat, q: nat, r: nat)
    requires d > 0 && n == d * q + r && r < d
    ensures n / d == q
  {
    var k := n / d - q;
    assert d * (n / d) <= n < d * (n / d) + d;
    assert d * (n / d) == d * q + d * k;
    if k >= 1 { AtLeast(d, k); }
    assert d * k == -(d * (-k));
    if k <= -1 { AtLeast(d, -k); }
  }

  lemma {:induction false} Pow256Grows(n: nat, m: nat)
    requires n <= m
    ensures Pow256(n) <= Pow256(m)
  {
    if n < m { Pow256Grows(n, m - 1); }
  }
}
