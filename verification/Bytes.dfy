/** Octets, fixed-width big-endian integers, and the order of byte strings. */
module Bytes {
  type byte = b: int | 0 <= b < 256

  function Pow(base: nat, k: nat): (r: nat)
    ensures base > 0 ==> r > 0
  {
    if k == 0 then 1 else base * Pow(base, k - 1)
  }

  /** `to_be_bytes` at a fixed width. */
  function BigEndian(n: nat, width: nat): (s: seq<byte>)
    requires n < Pow(256, width)
    ensures |s| == width
  {
    if width == 0 then [] else BigEndian(n / 256, width - 1) + [n % 256]
  }

  function FromBigEndian(s: seq<byte>): (n: nat)
    ensures n < Pow(256, |s|)
  {
    if s == [] then 0 else 256 * FromBigEndian(s[..|s| - 1]) + s[|s| - 1]
  }

  lemma {:induction false} FromBigEndianOfBigEndian(n: nat, width: nat)
    requires n < Pow(256, width)
    ensures FromBigEndian(BigEndian(n, width)) == n
  {
    if width > 0 {
      FromBigEndianOfBigEndian(n / 256, width - 1);
      var s := BigEndian(n, width);
      assert s[..|s| - 1] == BigEndian(n / 256, width - 1);
    }
  }

  lemma {:induction false} BigEndianOfFromBigEndian(s: seq<byte>)
    ensures BigEndian(FromBigEndian(s), |s|) == s
  {
    if s != [] {
      BigEndianOfFromBigEndian(s[..|s| - 1]);
      assert s == s[..|s| - 1] + [s[|s| - 1]];
    }
  }

  /** The most significant octet comes first: what is in front weighs 256 to the
      number of octets behind it. */
  lemma {:induction false} FrontWeighsMore(front: seq<byte>, back: seq<byte>)
    ensures FromBigEndian(front + back) == FromBigEndian(front) * Pow(256, |back|) + FromBigEndian(back)
    ensures |front| == 1 ==> FromBigEndian(front) == front[0]
    decreases |back|
  {
    if back == [] {
      assert front + back == front;
      assert |front| == 1 ==> FromBigEndian(front[..0]) == 0;
    } else {
      var less, last := back[..|back| - 1], back[|back| - 1];
      FrontWeighsMore(front, less);
      assert (front + back)[..|front + back| - 1] == front + less;
      ScaledProduct(FromBigEndian(front), Pow(256, |less|));
    }
  }

  lemma ScaledProduct(x: nat, p: nat)
    ensures 256 * (x * p) == x * (256 * p)
  {
  }

  lemma WordSizes()
    ensures Pow(256, 2) == 0x1_0000
    ensures Pow(256, 4) == 0x1_0000_0000
    ensures Pow(256, 8) == 0x1_0000_0000_0000_0000
  {
    assert Pow(256, 1) == 256 * Pow(256, 0);
    assert Pow(256, 2) == 256 * Pow(256, 1);
    assert Pow(256, 3) == 256 * Pow(256, 2);
    assert Pow(256, 4) == 256 * Pow(256, 3);
    assert Pow(256, 5) == 256 * Pow(256, 4);
    assert Pow(256, 6) == 256 * Pow(256, 5);
    assert Pow(256, 7) == 256 * Pow(256, 6);
    assert Pow(256, 8) == 256 * Pow(256, 7);
  }

  /** Big-endian words of one width are equal only for equal numbers. */
  lemma BigEndianInjective(m: nat, n: nat, width: nat)
    requires m < Pow(256, width) && n < Pow(256, width)
    requires BigEndian(m, width) == BigEndian(n, width)
    ensures m == n
  {
    FromBigEndianOfBigEndian(m, width);
    FromBigEndianOfBigEndian(n, width);
  }

  // ---------- Lexicographic order ----------

  /** The strict order of byte strings; ASCII text compares the same way. */
  predicate Before<T(==)>(less: (T, T) -> bool, left: seq<T>, right: seq<T>) {
    if right == [] then false
    else if left == [] then true
    else if left[0] == right[0] then Before(less, left[1..], right[1..])
    else less(left[0], right[0])
  }

  ghost predicate StrictTotal<T(!new)>(less: (T, T) -> bool) {
    && (forall a :: !less(a, a))
    && (forall a, b :: a != b ==> less(a, b) != less(b, a))
    && (forall a, b, c :: less(a, b) && less(b, c) ==> less(a, c))
  }

  /** A common-length front decides unless it is equal. */
  lemma {:induction false} BeforeAppend<T>(less: (T, T) -> bool, a: seq<T>, b: seq<T>, x: seq<T>, y: seq<T>)
    requires |a| == |b|
    ensures Before(less, a + x, b + y) <==> (Before(less, a, b) || (a == b && Before(less, x, y)))
    decreases |a|
  {
    if a == [] {
      assert a + x == x && b + y == y;
    } else {
      assert (a + x)[1..] == a[1..] + x && (b + y)[1..] == b[1..] + y;
      BeforeAppend(less, a[1..], b[1..], x, y);
      if a[0] == b[0] && a[1..] == b[1..] {
        assert a == [a[0]] + a[1..] && b == [b[0]] + b[1..];
      }
    }
  }

  lemma {:induction false} BeforeIrreflexive<T(!new)>(less: (T, T) -> bool, a: seq<T>)
    ensures !Before(less, a, a)
  {
    if a != [] { BeforeIrreflexive(less, a[1..]); }
  }

  lemma {:induction false} BeforeTotal<T(!new)>(less: (T, T) -> bool, a: seq<T>, b: seq<T>)
    requires StrictTotal(less) && a != b
    ensures Before(less, a, b) != Before(less, b, a)
    decreases |a|
  {
    if a != [] && b != [] && a[0] == b[0] {
      assert a == [a[0]] + a[1..] && b == [b[0]] + b[1..];
      BeforeTotal(less, a[1..], b[1..]);
    }
  }

  lemma {:induction false} BeforeTransitive<T(!new)>(less: (T, T) -> bool, a: seq<T>, b: seq<T>, c: seq<T>)
    requires StrictTotal(less) && Before(less, a, b) && Before(less, b, c)
    ensures Before(less, a, c)
    decreases |a|
  {
    if a != [] && a[0] == b[0] && b[0] == c[0] {
      BeforeTransitive(less, a[1..], b[1..], c[1..]);
    }
  }
}
