/** Natural numbers as big-endian bytes. */
module BigEndian {
  import opened ChainTypes

  function Pow256(n: nat): (p: nat)
    ensures p > 0
  {
    if n == 0 then 1 else 256 * Pow256(n - 1)
  }

  /** The number the bytes stand for. */
  function Nat(b: Bytes): nat {
    if b == [] then 0 else Nat(b[..|b| - 1]) * 256 + b[|b| - 1] as int
  }

  /** The lowest `width` bytes of n. */
  function Fixed(n: nat, width: nat): (b: Bytes)
    ensures |b| == width
  {
    if width == 0 then [] else Fixed(n / 256, width - 1) + [n % 256]
  }

  /** The bytes of n without leading zeros. */
  function Minimal(n: nat): Bytes {
    if n == 0 then [] else Minimal(n / 256) + [n % 256]
  }

  lemma {:induction false} NatBound(b: Bytes)
    ensures Nat(b) < Pow256(|b|)
  {
    if b != [] {
      NatBound(b[..|b| - 1]);
    }
  }

  lemma {:induction false} NatOfFixed(n: nat, width: nat)
    requires n < Pow256(width)
    ensures Nat(Fixed(n, width)) == n
  {
    if width > 0 {
      NatOfFixed(n / 256, width - 1);
      assert Fixed(n, width)[..width - 1] == Fixed(n / 256, width - 1);
    }
  }

  lemma FixedOne(n: nat)
    ensures Fixed(n, 1) == [n % 256]
  {
    assert Fixed(n / 256, 0) == [];
  }

  lemma {:induction false} NatOfMinimal(n: nat)
    ensures Nat(Minimal(n)) == n
  {
    if n > 0 {
      NatOfMinimal(n / 256);
      var b := Minimal(n);
      assert b[..|b| - 1] == Minimal(n / 256);
    }
  }

  lemma {:induction false} MinimalLength(n: nat, width: nat)
    ensures |Minimal(n)| <= width <==> n < Pow256(width)
    decreases n
  {
    if n > 0 {
      if width > 0 {
        MinimalLength(n / 256, width - 1);
      } else {
        assert Minimal(n) != [];
      }
    }
  }

  /** n zero bytes. */
  function Zeros(n: nat): (b: Bytes)
    ensures |b| == n
  {
    seq(n, _ => 0)
  }

  lemma {:induction false} FixedOfZero(width: nat)
    ensures Fixed(0, width) == Zeros(width)
  {
    if width > 0 {
      FixedOfZero(width - 1);
    }
  }

  /** Padding the shortest form on the left gives the fixed form. */
  lemma {:induction false} PadMinimal(n: nat, width: nat)
    requires |Minimal(n)| <= width
    ensures Zeros(width - |Minimal(n)|) + Minimal(n) == Fixed(n, width)
    decreases n
  {
    if n == 0 {
      FixedOfZero(width);
      assert Zeros(width) + [] == Zeros(width);
    } else {
      PadMinimal(n / 256, width - 1);
      assert Zeros(width - |Minimal(n)|) + Minimal(n)
          == Zeros(width - |Minimal(n)|) + Minimal(n / 256) + [n % 256];
    }
  }
}
