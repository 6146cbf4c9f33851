/** Positions of a byte stream and their residues modulo the ring size. */
module Modular {

  predicate Lap(k: int) { true }

  /**
    The residue of stream position `p` on a ring of `b` cells; ResIsMod says that it is
    `p % b`. The definition is stated lap by lap, so that it is inert until a lap is named.
   */
  ghost function Res(p: nat, b: nat): (r: nat)
    requires 0 < b
    ensures r < b
  {
    ModIsResidue(p, b);
    var r: nat :| IsResidue(p, b, r);
    r
  }

  ghost predicate IsResidue(p: nat, b: nat, r: nat) {
    r < b && forall k {:trigger Lap(k)} :: Lap(k) && k * b <= p < k * b + b ==> r == p - k * b
  }

  lemma ModIsResidue(p: nat, b: nat)
    requires 0 < b
    ensures IsResidue(p, b, p % b)
  {
    forall k {:trigger Lap(k)} | Lap(k) && k * b <= p < k * b + b
      ensures p % b == p - k * b
    {
      DivModUnique(p, k, p - k * b, b);
    }
  }

  lemma DivModUnique(p: int, q: int, r: nat, b: nat)
    requires 0 < b && r < b && p == b * q + r
    ensures p % b == r
  {
    var d := p / b - q;
    assert b * d == r - p % b by {
      assert p == b * (p / b) + p % b;
    }
    assert d >= 1 ==> b * d >= b;
    assert d <= -1 ==> b * d + b <= 0;
  }

  /** Division with remainder has one result. */
  lemma Unique(d: nat, a: nat, r: nat, b: nat, t: nat)
    requires r < d && t < d && a * d + r == b * d + t
    ensures a == b && r == t
  {
    MulGrows(a, b + 1, d);
    MulGrows(b, a + 1, d);
  }

  lemma MulGrows(a: nat, b: nat, d: nat)
    ensures a >= b ==> a * d >= b * d
  {
  }

  lemma ResIsMod(p: nat, b: nat)
    requires 0 < b
    ensures Res(p, b) == p % b
  {
    var k := p / b;
    assert p == b * k + p % b;
    assert Lap(k);
  }

  lemma ResSmall(p: nat, b: nat)
    requires p < b
    ensures Res(p, b) == p
  {
    ResIsMod(p, b);
    DivModUnique(p, 0, p, b);
  }

  /** The source's `%`, for sums of two residues; see ModIsRemainder. */
  function Mod(p: nat, b: nat): (r: nat)
    requires 0 < b
    ensures r < b
    ensures p < b ==> r == p
    ensures b <= p < 2 * b ==> r == p - b
  {
    if p < b then p else Mod(p - b, b)
  }

  lemma {:induction false} ModIsRemainder(p: nat, b: nat)
    requires 0 < b
    ensures Mod(p, b) == p % b == Res(p, b)
  {
    ResIsMod(p, b);
    if p < b {
      ResSmall(p, b);
    } else {
      ModIsRemainder(p - b, b);
      ResIsMod(p - b, b);
      ResAdd(p - b, b, b);
    }
  }

  /** How far `to` lies ahead of `from` on a circle of `b` cells. */
  function Offset(from: nat, to: nat, b: nat): (o: nat)
    requires from < b && to < b
    ensures o < b
  {
    if from <= to then to - from else b - from + to
  }

  /** Moving forward by at most one lap wraps at most once. */
  lemma ResAdd(p: nat, k: nat, b: nat)
    requires 0 < b && k <= b
    ensures Res(p + k, b) == if Res(p, b) + k < b then Res(p, b) + k else Res(p, b) + k - b
  {
    ResIsMod(p, b);
    ResIsMod(p + k, b);
    var q, r := p / b, p % b;
    assert p == b * q + r;
    if r + k < b {
      DivModUnique(p + k, q, r + k, b);
    } else {
      assert b * (q + 1) == b * q + b;
      DivModUnique(p + k, q + 1, r + k - b, b);
    }
  }

  /** Within one lap a residue determines the position. */
  lemma OffsetOfRes(p: nat, q: nat, b: nat)
    requires 0 < b && p <= q < p + b
    ensures Offset(Res(p, b), Res(q, b), b) == q - p
  {
    ResAdd(p, q - p, b);
  }

  lemma ResInjective(p: nat, q: nat, b: nat)
    requires 0 < b && p <= q < p + b && Res(p, b) == Res(q, b)
    ensures p == q
  {
    OffsetOfRes(p, q, b);
  }

  /** The position `Offset` ahead of `p` has the residue asked for. */
  lemma ResOfOffset(p: nat, t: nat, b: nat)
    requires t < b
    ensures Res(p + Offset(Res(p, b), t, b), b) == t
  {
    ResAdd(p, Offset(Res(p, b), t, b), b);
  }

  /** A position less than one lap behind shows up at the far end of the circle. */
  lemma OffsetBehind(p: nat, q: nat, b: nat)
    requires 0 < b && q < p <= q + b
    ensures Offset(Res(p, b), Res(q, b), b) == if p == q + b then 0 else b - (p - q)
  {
    ResAdd(q, p - q, b);
  }
}
