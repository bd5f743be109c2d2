/** Byte strings, little-endian integers, two's complement and the order of byte strings, shared by the codecs. */
module Bytes {

  type byte = x: int | 0 <= x < 0x100
  type uint16 = x: int | 0 <= x < 0x1_0000
  type uint32 = x: int | 0 <= x < 0x1_0000_0000
  type uint64 = x: int | 0 <= x < 0x1_0000_0000_0000_0000
  type int64 = x: int | -0x8000_0000_0000_0000 <= x < 0x8000_0000_0000_0000

  /** The result of reading at a position: a value and the position after it, or a refusal. */
  datatype Parsed<+T> = Refused | Parsed(value: T, next: nat) {
    predicate IsFailure() {
      Refused?
    }

    function PropagateFailure<U>(): Parsed<U>
      requires Refused?
    {
      Refused
    }

    function Extract(): (T, nat)
      requires Parsed?
    {
      (value, next)
    }
  }

  /** What a read reports: success with the value, leaving the reader after it, or failure. */
  ghost predicate Reads<T>(r: Parsed<T>, ok: bool, value: T, position: nat) {
    if r.Parsed? then ok && value == r.value && position == r.next else !ok
  }

  /** The elements read so far, `done`, followed by those that `rest` gives, are what `whole` gives. */
  ghost predicate Continues<T(!new)>(whole: Parsed<seq<T>>, done: seq<T>, rest: Parsed<seq<T>>) {
    && (whole.Parsed? <==> rest.Parsed?)
    && (whole.Parsed? ==> whole.value == done + rest.value && whole.next == rest.next)
  }

  /** The bytes `e` stand in `d` at position `p`. */
  ghost predicate At(d: seq<byte>, p: nat, e: seq<byte>) {
    p + |e| <= |d| && d[p..p + |e|] == e
  }

  lemma AtSplit(d: seq<byte>, p: nat, a: seq<byte>, b: seq<byte>)
    ensures At(d, p, a + b) <==> At(d, p, a) && At(d, p + |a|, b)
  {
    if p + |a + b| <= |d| {
      assert d[p..p + |a + b|] == d[p..p + |a|] + d[p + |a|..p + |a| + |b|];
      if d[p..p + |a + b|] == a + b {
        assert d[p..p + |a|] == (a + b)[..|a|] == a;
        assert d[p + |a|..p + |a| + |b|] == (a + b)[|a|..] == b;
      }
    }
  }

  /** `d` and `e` begin with the same `k` bytes. */
  ghost predicate SamePrefix(d: seq<byte>, e: seq<byte>, k: nat) {
    k <= |d| && k <= |e| && d[..k] == e[..k]
  }

  lemma SamePrefixSlice(d: seq<byte>, e: seq<byte>, k: nat, p: nat, q: nat)
    requires SamePrefix(d, e, k) && p <= q <= k
    ensures d[p..q] == e[p..q]
  {
    assert d[p..q] == d[..k][p..q];
    assert e[p..q] == e[..k][p..q];
  }

  function Pow256(n: nat): (p: nat)
    ensures p > 0
  {
    if n == 0 then 1 else 0x100 * Pow256(n - 1)
  }

  lemma Pow256Values()
    ensures Pow256(1) == 0x100 && Pow256(2) == 0x1_0000
    ensures Pow256(4) == 0x1_0000_0000 && Pow256(8) == 0x1_0000_0000_0000_0000
  {
    assert Pow256(3) == 0x100_0000;
    assert Pow256(4) == 0x100 * Pow256(3);
    assert Pow256(5) == 0x100 * Pow256(4);
    assert Pow256(6) == 0x100 * Pow256(5);
    assert Pow256(7) == 0x100 * Pow256(6);
  }

  /** The low `n` bytes of `v`, least significant first. */
  function LittleEndian(v: nat, n: nat): (s: seq<byte>)
    ensures |s| == n
  {
    if n == 0 then [] else [v % 0x100] + LittleEndian(v / 0x100, n - 1)
  }

  function FromLittleEndian(s: seq<byte>): nat {
    if s == [] then 0 else s[0] + 0x100 * FromLittleEndian(s[1..])
  }

  /** A number that fits in `n` bytes is read back from them. */
  lemma {:induction false} LittleEndianRoundTrip(v: nat, n: nat)
    requires v < Pow256(n)
    ensures FromLittleEndian(LittleEndian(v, n)) == v
  {
    if n == 0 {
    } else {
      LittleEndianRoundTrip(v / 0x100, n - 1);
      assert LittleEndian(v, n)[1..] == LittleEndian(v / 0x100, n - 1);
    }
  }

  lemma {:induction false} FromLittleEndianBound(s: seq<byte>)
    ensures FromLittleEndian(s) < Pow256(|s|)
  {
    if s == [] {
    } else {
      FromLittleEndianBound(s[1..]);
    }
  }

  /** The number shifted right by `i` bytes. */
  function ShiftBytes(v: nat, i: nat): nat {
    if i == 0 then v else ShiftBytes(v / 0x100, i - 1)
  }

  lemma {:induction false} LittleEndianAt(v: nat, n: nat, i: nat)
    requires i < n
    ensures LittleEndian(v, n)[i] as nat == ShiftBytes(v, i) % 0x100
  {
    if i == 0 {
    } else {
      LittleEndianAt(v / 0x100, n - 1, i - 1);
    }
  }

  /** Or-ing in one more byte above the bytes read so far. */
  lemma {:induction false} FromLittleEndianSnoc(s: seq<byte>, b: byte)
    ensures FromLittleEndian(s + [b]) == FromLittleEndian(s) + b * Pow256(|s|)
  {
    if s == [] {
      assert s + [b] == [b];
      assert FromLittleEndian([b]) == b + 0x100 * FromLittleEndian([]);
    } else {
      assert (s + [b])[1..] == s[1..] + [b];
      FromLittleEndianSnoc(s[1..], b);
      assert b * (0x100 * Pow256(|s| - 1)) == 0x100 * (b * Pow256(|s| - 1));
    }
  }

  /** The unsigned reading of a signed number in a word of `modulus` values, and back. */
  function ToUnsigned(i: int, modulus: nat): nat
    requires modulus > 0
  {
    i % modulus
  }

  function ToSigned(u: nat, modulus: nat): int {
    if 2 * u < modulus then u else u - modulus
  }

  predicate IsWordSize(modulus: nat) {
    modulus in {0x100, 0x1_0000, 0x1_0000_0000, 0x1_0000_0000_0000_0000}
  }

  lemma TwosComplement(i: int, modulus: nat)
    requires IsWordSize(modulus)
    requires -(modulus as int) <= 2 * i < modulus
    ensures ToSigned(ToUnsigned(i, modulus), modulus) == i
  {
    if modulus == 0x100 {
    } else if modulus == 0x1_0000 {
    } else if modulus == 0x1_0000_0000 {
    } else {
    }
  }

  /** The bytes of an ASCII text. */
  function Ascii(text: string): seq<byte>
    requires forall i :: 0 <= i < |text| ==> text[i] as int < 0x80
  {
    seq(|text|, i requires 0 <= i < |text| => text[i] as int)
  }

  /** The lexicographic order of byte strings. */
  predicate Less(a: seq<byte>, b: seq<byte>) {
    if b == [] then false
    else if a == [] then true
    else a[0] < b[0] || (a[0] == b[0] && Less(a[1..], b[1..]))
  }

  lemma {:induction false} LessIsTransitive(a: seq<byte>, b: seq<byte>, c: seq<byte>)
    requires Less(a, b) && Less(b, c)
    ensures Less(a, c)
    decreases |a|
  {
    if a != [] && a[0] == b[0] && b[0] == c[0] {
      LessIsTransitive(a[1..], b[1..], c[1..]);
    }
  }

  lemma {:induction false} LessIsAsymmetric(a: seq<byte>, b: seq<byte>)
    requires Less(a, b)
    ensures !Less(b, a) && a != b
    decreases |a|
  {
    if a != [] && a[0] == b[0] {
      LessIsAsymmetric(a[1..], b[1..]);
    }
  }

  lemma {:induction false} LessIsTotal(a: seq<byte>, b: seq<byte>)
    ensures Less(a, b) || a == b || Less(b, a)
    decreases |a|
  {
    if a != [] && b != [] && a[0] == b[0] {
      LessIsTotal(a[1..], b[1..]);
      assert a == [a[0]] + a[1..] && b == [b[0]] + b[1..];
    }
  }

  /** The shorter of two strings that agree as far as it goes is the lesser; otherwise their first difference decides. */
  lemma {:induction false} LessByFirstDifference(a: seq<byte>, b: seq<byte>)
    ensures Less(a, b) <==> exists k ::
      && 0 <= k <= |a| && k < |b| && a[..k] == b[..k]
      && (k == |a| || a[k] < b[k])
    decreases |a|
  {
    if a == [] || b == [] || a[0] != b[0] {
      if Less(a, b) {
        assert a[..0] == b[..0];
      }
    } else {
      LessByFirstDifference(a[1..], b[1..]);
      if Less(a, b) {
        var k :| 0 <= k <= |a[1..]| && k < |b[1..]| && a[1..][..k] == b[1..][..k] && (k == |a[1..]| || a[1..][k] < b[1..][k]);
        assert a[..k + 1] == [a[0]] + a[1..][..k] && b[..k + 1] == [b[0]] + b[1..][..k];
      }
      if k :| 0 <= k <= |a| && k < |b| && a[..k] == b[..k] && (k == |a| || a[k] < b[k]) {
        assert a[1..][..k - 1] == a[..k][1..] && b[1..][..k - 1] == b[..k][1..];
      }
    }
  }
}
