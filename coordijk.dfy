// coordijk.c: the IJK+ hexagonal lattice.  A CoordIJK is a mutable record
// of three integer components; the three axes are 120 degrees apart, so
// (i, j, k) and (i + t, j + t, k + t) name the same cell and the IJ pair
// (i - k, j - k) is what a coordinate really means.  Every in-place
// operation is proved against a function on values, and those functions
// are related to each other by lemmas: normalization picks the unique
// non-negative representative, the two rotations undo each other, the
// lattice rotation agrees with the digit rotation, and the IJ and cube
// conversions round-trip.

module CoordIjk {
  import opened H3Api

  /** The value of a CoordIJK. */
  datatype Ijk = Ijk(i: int, j: int, k: int)

  /** CoordIJ: two axial components. */
  datatype Ij = Ij(i: int, j: int)

  function Plus(a: Ijk, b: Ijk): Ijk { Ijk(a.i + b.i, a.j + b.j, a.k + b.k) }
  function Minus(a: Ijk, b: Ijk): Ijk { Ijk(a.i - b.i, a.j - b.j, a.k - b.k) }
  function Times(a: Ijk, f: int): Ijk { Ijk(a.i * f, a.j * f, a.k * f) }

  /** The cell a coordinate names: its position in the IJ plane. */
  function IjOf(c: Ijk): Ij { Ij(c.i - c.k, c.j - c.k) }

  /** IJK+ normal form: no negative component and at least one zero. */
  predicate IsNormalized(c: Ijk)
  {
    c.i >= 0 && c.j >= 0 && c.k >= 0 && (c.i == 0 || c.j == 0 || c.k == 0)
  }

  function Min3(a: int, b: int, c: int): int
  {
    if a <= b && a <= c then a else if b <= c then b else c
  }

  /** The normal form of c, built from its IJ pair (a, b): the smallest
      of a, b and 0 is subtracted from (a, b, 0). */
  function Normalized(c: Ijk): Ijk
  {
    var a, b := c.i - c.k, c.j - c.k;
    var m := Min3(a, b, 0);
    Ijk(a - m, b - m, -m)
  }

  /** The normal form is normalized and names the same cell. */
  lemma NormalizedIsNormal(c: Ijk)
    ensures IsNormalized(Normalized(c))
    ensures IjOf(Normalized(c)) == IjOf(c)
  {
  }

  /** A cell has exactly one normal form. */
  lemma NormalizedUnique(c: Ijk, d: Ijk)
    requires IsNormalized(c) && IsNormalized(d) && IjOf(c) == IjOf(d)
    ensures c == d
  {
  }

  /** Normalizing depends only on the cell and keeps a normal form fixed. */
  lemma NormalizedCanonical(c: Ijk, d: Ijk)
    ensures Normalized(c) == Normalized(d) <==> IjOf(c) == IjOf(d)
    ensures IsNormalized(c) <==> Normalized(c) == c
  {
    NormalizedIsNormal(c);
    NormalizedIsNormal(d);
    if IsNormalized(c) {
      NormalizedUnique(c, Normalized(c));
    }
  }

  /** Adding coordinates is adding cells: the sum does not depend on which
      representative of each cell is used. */
  lemma PlusRespectsCells(a: Ijk, a': Ijk, b: Ijk)
    requires IjOf(a) == IjOf(a')
    ensures Normalized(Plus(a, b)) == Normalized(Plus(a', b))
  {
    NormalizedCanonical(Plus(a, b), Plus(a', b));
  }

  /** UNIT_VECS of coordijk.h: the vector of each direction digit 0..6. */
  function UnitVec(d: int): Ijk
    requires 0 <= d < NUM_DIGITS
  {
    if d == 0 then Ijk(0, 0, 0)
    else if d == 1 then Ijk(0, 0, 1)
    else if d == 2 then Ijk(0, 1, 0)
    else if d == 3 then Ijk(0, 1, 1)
    else if d == 4 then Ijk(1, 0, 0)
    else if d == 5 then Ijk(1, 0, 1)
    else Ijk(1, 1, 0)
  }

  /** c is one of the seven unit vectors. */
  predicate IsUnitVec(c: Ijk)
  {
    exists d | 0 <= d < NUM_DIGITS :: UnitVec(d) == c
  }

  /** The unit vectors are normalized and name seven different cells. */
  lemma UnitVecsDistinct(d: int, e: int)
    requires 0 <= d < NUM_DIGITS && 0 <= e < NUM_DIGITS
    ensures IsNormalized(UnitVec(d))
    ensures IjOf(UnitVec(d)) == IjOf(UnitVec(e)) <==> d == e
  {
    if d == 0 { if e == 0 {} else if e == 1 {} else if e == 2 {} else if e == 3 {} else if e == 4 {} else if e == 5 {} else if e == 6 {} }
    else if d == 1 { if e == 0 {} else if e == 1 {} else if e == 2 {} else if e == 3 {} else if e == 4 {} else if e == 5 {} else if e == 6 {} }
    else if d == 2 { if e == 0 {} else if e == 1 {} else if e == 2 {} else if e == 3 {} else if e == 4 {} else if e == 5 {} else if e == 6 {} }
    else if d == 3 { if e == 0 {} else if e == 1 {} else if e == 2 {} else if e == 3 {} else if e == 4 {} else if e == 5 {} else if e == 6 {} }
    else if d == 4 { if e == 0 {} else if e == 1 {} else if e == 2 {} else if e == 3 {} else if e == 4 {} else if e == 5 {} else if e == 6 {} }
    else if d == 5 { if e == 0 {} else if e == 1 {} else if e == 2 {} else if e == 3 {} else if e == 4 {} else if e == 5 {} else if e == 6 {} }
    else if d == 6 { if e == 0 {} else if e == 1 {} else if e == 2 {} else if e == 3 {} else if e == 4 {} else if e == 5 {} else if e == 6 {} }
  }

  // ------------------------------------------------------- digit rotation

  /** _rotate60ccw: 1 -> 5 -> 4 -> 6 -> 2 -> 3 -> 1; other values unchanged. */
  function Rotate60ccwDigit(d: int): int
  {
    if d == K_AXES_DIGIT then IK_AXES_DIGIT
    else if d == IK_AXES_DIGIT then I_AXES_DIGIT
    else if d == I_AXES_DIGIT then IJ_AXES_DIGIT
    else if d == IJ_AXES_DIGIT then J_AXES_DIGIT
    else if d == J_AXES_DIGIT then JK_AXES_DIGIT
    else if d == JK_AXES_DIGIT then K_AXES_DIGIT
    else d
  }

  /** _rotate60cw: 1 -> 3 -> 2 -> 6 -> 4 -> 5 -> 1; other values unchanged. */
  function Rotate60cwDigit(d: int): int
  {
    if d == K_AXES_DIGIT then JK_AXES_DIGIT
    else if d == JK_AXES_DIGIT then J_AXES_DIGIT
    else if d == J_AXES_DIGIT then IJ_AXES_DIGIT
    else if d == IJ_AXES_DIGIT then I_AXES_DIGIT
    else if d == I_AXES_DIGIT then IK_AXES_DIGIT
    else if d == IK_AXES_DIGIT then K_AXES_DIGIT
    else d
  }

  /** The two digit rotations undo each other, keep the digit range, fix
      the center and the invalid digit, and never produce 0 or 7 from a
      real direction. */
  lemma RotateDigitInverse(d: int)
    ensures Rotate60cwDigit(Rotate60ccwDigit(d)) == d
    ensures Rotate60ccwDigit(Rotate60cwDigit(d)) == d
    ensures IsDigit(d) ==> IsDigit(Rotate60ccwDigit(d)) && IsDigit(Rotate60cwDigit(d))
    ensures (d == CENTER_DIGIT || d == INVALID_DIGIT) ==> Rotate60ccwDigit(d) == d && Rotate60cwDigit(d) == d
    ensures 1 <= d <= 6 ==> 1 <= Rotate60ccwDigit(d) <= 6 && 1 <= Rotate60cwDigit(d) <= 6
  {
  }

  /** Six sixty-degree turns are a full turn. */
  lemma RotateDigitSix(d: int)
    ensures Rotate60ccwDigit(Rotate60ccwDigit(Rotate60ccwDigit(
      Rotate60ccwDigit(Rotate60ccwDigit(Rotate60ccwDigit(d)))))) == d
  {
  }

  // ----------------------------------------------------- lattice rotation

  /** The value _ijkRotate60ccw leaves: the unit vectors i, j, k sent to
      (1,1,0), (0,1,1), (1,0,1), then normalized. */
  function RotateCcw(c: Ijk): Ijk
  {
    Normalized(Ijk(c.i + c.k, c.i + c.j, c.j + c.k))
  }

  /** The value _ijkRotate60cw leaves: i, j, k sent to (1,0,1), (1,1,0), (0,1,1). */
  function RotateCw(c: Ijk): Ijk
  {
    Normalized(Ijk(c.i + c.j, c.j + c.k, c.i + c.k))
  }

  /** In the IJ plane the rotations are (a, b) -> (a - b, a) and its inverse. */
  lemma RotateIj(c: Ijk)
    ensures IjOf(RotateCcw(c)) == Ij(IjOf(c).i - IjOf(c).j, IjOf(c).i)
    ensures IjOf(RotateCw(c)) == Ij(IjOf(c).j, IjOf(c).j - IjOf(c).i)
  {
  }

  /** Rotating back and forth returns the normal form of the start. */
  lemma RotateInverse(c: Ijk)
    ensures RotateCw(RotateCcw(c)) == Normalized(c)
    ensures RotateCcw(RotateCw(c)) == Normalized(c)
  {
    RotateIj(c);
    RotateIj(RotateCcw(c));
    RotateIj(RotateCw(c));
    NormalizedCanonical(RotateCw(RotateCcw(c)), c);
    NormalizedCanonical(RotateCcw(RotateCw(c)), c);
  }

  lemma RotateCcwUnit0() ensures RotateCcw(UnitVec(0)) == UnitVec(0) {}
  lemma RotateCwUnit0() ensures RotateCw(UnitVec(0)) == UnitVec(0) {}
  lemma RotateCcwUnit1() ensures RotateCcw(UnitVec(1)) == UnitVec(5) {}
  lemma RotateCwUnit1() ensures RotateCw(UnitVec(1)) == UnitVec(3) {}
  lemma RotateCcwUnit2() ensures RotateCcw(UnitVec(2)) == UnitVec(3) {}
  lemma RotateCwUnit2() ensures RotateCw(UnitVec(2)) == UnitVec(6) {}
  lemma RotateCcwUnit3() ensures RotateCcw(UnitVec(3)) == UnitVec(1) {}
  lemma RotateCwUnit3() ensures RotateCw(UnitVec(3)) == UnitVec(2) {}
  lemma RotateCcwUnit4() ensures RotateCcw(UnitVec(4)) == UnitVec(6) {}
  lemma RotateCwUnit4() ensures RotateCw(UnitVec(4)) == UnitVec(5) {}
  lemma RotateCcwUnit5() ensures RotateCcw(UnitVec(5)) == UnitVec(4) {}
  lemma RotateCwUnit5() ensures RotateCw(UnitVec(5)) == UnitVec(1) {}
  lemma RotateCcwUnit6() ensures RotateCcw(UnitVec(6)) == UnitVec(2) {}
  lemma RotateCwUnit6() ensures RotateCw(UnitVec(6)) == UnitVec(4) {}

  /** Rotating a unit vector is rotating its digit. */
  lemma RotateUnitVec(d: int)
    requires 0 <= d < NUM_DIGITS
    ensures RotateCcw(UnitVec(d)) == UnitVec(Rotate60ccwDigit(d))
    ensures RotateCw(UnitVec(d)) == UnitVec(Rotate60cwDigit(d))
  {
    if d == 0 {
      assert Rotate60ccwDigit(d) == 0 && Rotate60cwDigit(d) == 0;
      RotateCcwUnit0(); RotateCwUnit0();
    } else if d == 1 {
      assert Rotate60ccwDigit(d) == 5 && Rotate60cwDigit(d) == 3;
      RotateCcwUnit1(); RotateCwUnit1();
    } else if d == 2 {
      assert Rotate60ccwDigit(d) == 3 && Rotate60cwDigit(d) == 6;
      RotateCcwUnit2(); RotateCwUnit2();
    } else if d == 3 {
      assert Rotate60ccwDigit(d) == 1 && Rotate60cwDigit(d) == 2;
      RotateCcwUnit3(); RotateCwUnit3();
    } else if d == 4 {
      assert Rotate60ccwDigit(d) == 6 && Rotate60cwDigit(d) == 5;
      RotateCcwUnit4(); RotateCwUnit4();
    } else if d == 5 {
      assert Rotate60ccwDigit(d) == 4 && Rotate60cwDigit(d) == 1;
      RotateCcwUnit5(); RotateCwUnit5();
    } else {
      assert Rotate60ccwDigit(d) == 2 && Rotate60cwDigit(d) == 4;
      RotateCcwUnit6(); RotateCwUnit6();
    }
  }

  // ---------------------------------------------------------- distance

  function Abs(x: int): int { if x < 0 then -x else x }
  function Max(a: int, b: int): int { if a >= b then a else b }

  /** The value ijkDistance returns: the largest component of the
      normalized difference. */
  function Distance(a: Ijk, b: Ijk): int
  {
    var d := Normalized(Minus(a, b));
    Max(Abs(d.i), Max(Abs(d.j), Abs(d.k)))
  }

  /** The distance of two cells on the hexagonal lattice, from their IJ
      difference (a, b): max(|a|, |b|) when both point the same way,
      |a| + |b| otherwise. */
  function HexDistance(a: Ij, b: Ij): int
  {
    var x, y := a.i - b.i, a.j - b.j;
    if (x >= 0 && y >= 0) || (x <= 0 && y <= 0) then Max(Abs(x), Abs(y)) else Abs(x) + Abs(y)
  }

  /** ijkDistance is the lattice distance of the two cells, so it is
      non-negative, zero exactly on the same cell, and symmetric. */
  lemma DistanceIsHexDistance(a: Ijk, b: Ijk)
    ensures Distance(a, b) == HexDistance(IjOf(a), IjOf(b))
    ensures Distance(a, b) >= 0
    ensures Distance(a, b) == 0 <==> IjOf(a) == IjOf(b)
    ensures Distance(a, b) == Distance(b, a)
  {
    DistanceOfIj(a, b);
    DistanceOfIj(b, a);
    HexDistanceMetric(IjOf(a), IjOf(b));
  }

  lemma DistanceOfIj(a: Ijk, b: Ijk)
    ensures Distance(a, b) == HexDistance(IjOf(a), IjOf(b))
  {
    var x, y := IjOf(a).i - IjOf(b).i, IjOf(a).j - IjOf(b).j;
    assert IjOf(Minus(a, b)) == Ij(x, y);
    if x >= 0 && y >= 0 {
      assert Normalized(Minus(a, b)) == Ijk(x, y, 0);
    } else if x <= y {
      assert Normalized(Minus(a, b)) == Ijk(0, y - x, -x);
    } else {
      assert Normalized(Minus(a, b)) == Ijk(x - y, 0, -y);
    }
  }

  /** The hexagonal lattice distance is a metric on IJ coordinates. */
  lemma HexDistanceMetric(p: Ij, q: Ij)
    ensures HexDistance(p, q) >= 0
    ensures HexDistance(p, q) == 0 <==> p == q
    ensures HexDistance(p, q) == HexDistance(q, p)
  {
  }


  // ------------------------------------------------------ IJ and cube

  /** The value ijToIjk produces. */
  function FromIj(ij: Ij): Ijk { Normalized(Ijk(ij.i, ij.j, 0)) }

  /** The two IJ conversions round-trip. */
  lemma IjRoundTrip(c: Ijk, ij: Ij)
    ensures FromIj(IjOf(c)) == Normalized(c)
    ensures IjOf(FromIj(ij)) == ij
  {
    NormalizedCanonical(Ijk(c.i - c.k, c.j - c.k, 0), c);
  }

  /** The value ijkToCube leaves; each line reads the components already
      written by the lines before it. */
  function ToCube(c: Ijk): Ijk
  {
    var i := -c.i + c.k;
    var j := c.j - c.k;
    Ijk(i, j, -i - j)
  }

  /** The value cubeToIjk leaves. */
  function FromCube(c: Ijk): Ijk { Normalized(Ijk(-c.i, c.j, 0)) }

  predicate IsCube(c: Ijk) { c.i + c.j + c.k == 0 }

  /** Cube coordinates sum to zero, and the two conversions round-trip. */
  lemma CubeRoundTrip(c: Ijk, x: Ijk)
    requires IsCube(x)
    ensures IsCube(ToCube(c))
    ensures FromCube(ToCube(c)) == Normalized(c)
    ensures ToCube(FromCube(x)) == x
  {
    NormalizedCanonical(Ijk(c.i - c.k, c.j - c.k, 0), c);
  }

  // ---------------------------------------------------------- the record

  class CoordIJK {
    var i: int
    var j: int
    var k: int

    function Value(): Ijk
      reads this
    {
      Ijk(i, j, k)
    }

    constructor (i0: int, j0: int, k0: int)
      ensures Value() == Ijk(i0, j0, k0)
    {
      i, j, k := i0, j0, k0;
    }

    /** _setIJK */
    method SetIjk(i0: int, j0: int, k0: int)
      modifies this
      ensures Value() == Ijk(i0, j0, k0)
    {
      i := i0;
      j := j0;
      k := k0;
    }

    /** _ijkMatches */
    predicate Matches(other: CoordIJK)
      reads this, other
    {
      i == other.i && j == other.j && k == other.k
    }

    /** _ijkScale */
    method Scale(factor: int)
      modifies this
      ensures Value() == Times(old(Value()), factor)
    {
      i := i * factor;
      j := j * factor;
      k := k * factor;
    }

    /** _ijkNormalize: shift away negative components, then the minimum. */
    method Normalize()
      modifies this
      ensures Value() == Normalized(old(Value()))
    {
      if i < 0 {
        j := j - i;
        k := k - i;
        i := 0;
      }
      assert IjOf(Value()) == IjOf(old(Value())) && i >= 0;
      if j < 0 {
        i := i - j;
        k := k - j;
        j := 0;
      }
      assert IjOf(Value()) == IjOf(old(Value())) && i >= 0 && j >= 0;
      if k < 0 {
        i := i - k;
        j := j - k;
        k := 0;
      }
      assert IjOf(Value()) == IjOf(old(Value())) && i >= 0 && j >= 0 && k >= 0;
      var min := i;
      if j < min { min := j; }
      if k < min { min := k; }
      if min > 0 {
        i := i - min;
        j := j - min;
        k := k - min;
      }
      assert IsNormalized(Value()) && IjOf(Value()) == IjOf(old(Value()));
      NormalizedIsNormal(old(Value()));
      NormalizedUnique(Value(), Normalized(old(Value())));
    }

    /** _ijkRotate60ccw */
    method Rotate60ccw()
      modifies this
      ensures Value() == RotateCcw(old(Value()))
    {
      // the scaled rotated unit vectors summed: i * (1,1,0) + j * (0,1,1) + k * (1,0,1)
      i, j, k := i + k, i + j, j + k;
      Normalize();
    }

    /** _ijkRotate60cw */
    method Rotate60cw()
      modifies this
      ensures Value() == RotateCw(old(Value()))
    {
      // the scaled rotated unit vectors summed: i * (1,0,1) + j * (1,1,0) + k * (0,1,1)
      i, j, k := i + j, j + k, i + k;
      Normalize();
    }

    /** _neighbor: step one cell in a direction 1..6; the center and
        out-of-range digits leave the coordinate unchanged. */
    method Neighbor(digit: int)
      modifies this
      ensures CENTER_DIGIT < digit < NUM_DIGITS ==> Value() == Normalized(Plus(old(Value()), UnitVec(digit)))
      ensures !(CENTER_DIGIT < digit < NUM_DIGITS) ==> Value() == old(Value())
    {
      if CENTER_DIGIT < digit < NUM_DIGITS {
        var unit := new CoordIJK(UnitVec(digit).i, UnitVec(digit).j, UnitVec(digit).k);
        Add(this, unit, this);
        Normalize();
      }
    }

    /** ijToIjk */
    method SetFromIj(ij: Ij)
      modifies this
      ensures Value() == FromIj(ij)
    {
      i := ij.i;
      j := ij.j;
      k := 0;
      Normalize();
    }

    /** ijkToCube, in place */
    method ToCubeInPlace()
      modifies this
      ensures Value() == ToCube(old(Value()))
    {
      i := -i + k;
      j := j - k;
      k := -i - j;
    }

    /** cubeToIjk, in place */
    method FromCubeInPlace()
      modifies this
      ensures Value() == FromCube(old(Value()))
    {
      i := -i;
      k := 0;
      Normalize();
    }
  }

  /** _ijkAdd; the output may be one of the inputs. */
  method Add(h1: CoordIJK, h2: CoordIJK, sum: CoordIJK)
    modifies sum
    ensures sum.Value() == Plus(old(h1.Value()), old(h2.Value()))
  {
    sum.i := h1.i + h2.i;
    sum.j := h1.j + h2.j;
    sum.k := h1.k + h2.k;
  }

  /** _ijkSub; the output may be one of the inputs. */
  method Sub(h1: CoordIJK, h2: CoordIJK, diff: CoordIJK)
    modifies diff
    ensures diff.Value() == Minus(old(h1.Value()), old(h2.Value()))
  {
    diff.i := h1.i - h2.i;
    diff.j := h1.j - h2.j;
    diff.k := h1.k - h2.k;
  }

  /** _unitIjkToDigit: the digit whose unit vector is the normalized input,
      or INVALID_DIGIT when the input is not a unit vector. */
  method UnitIjkToDigit(ijk: CoordIJK) returns (digit: int)
    ensures 0 <= digit <= INVALID_DIGIT
    ensures digit < NUM_DIGITS ==> UnitVec(digit) == Normalized(ijk.Value())
    ensures digit == INVALID_DIGIT <==> !IsUnitVec(Normalized(ijk.Value()))
  {
    var c := new CoordIJK(ijk.i, ijk.j, ijk.k);
    c.Normalize();
    digit := INVALID_DIGIT;
    var d := CENTER_DIGIT;
    while d < NUM_DIGITS
      invariant 0 <= d <= NUM_DIGITS
      invariant c.Value() == Normalized(ijk.Value())
      invariant forall e | 0 <= e < d :: UnitVec(e) != c.Value()
      decreases NUM_DIGITS - d
    {
      var u := UnitVec(d);
      if c.i == u.i && c.j == u.j && c.k == u.k {
        digit := d;
        break;
      }
      d := d + 1;
    }
  }

  /** ijkDistance */
  method IjkDistance(c1: CoordIJK, c2: CoordIJK) returns (dist: int)
    ensures dist == Distance(c1.Value(), c2.Value())
  {
    var diff := new CoordIJK(0, 0, 0);
    Sub(c1, c2, diff);
    diff.Normalize();
    var ai, aj, ak := Abs(diff.i), Abs(diff.j), Abs(diff.k);
    dist := Max(ai, Max(aj, ak));
  }

  /** ijkToIj */
  method IjkToIj(ijk: CoordIJK) returns (ij: Ij)
    ensures ij == IjOf(ijk.Value())
  {
    ij := Ij(ijk.i - ijk.k, ijk.j - ijk.k);
  }

  /** The unit vectors map to their own digits, the non-normalized
      (2,2,2) to the center, and (2,0,0), which is not a unit step,
      to INVALID_DIGIT. */
  lemma UnitIjkToDigitCases()
    ensures forall d | 0 <= d < NUM_DIGITS :: Normalized(UnitVec(d)) == UnitVec(d)
    ensures Normalized(Ijk(2, 2, 2)) == UnitVec(CENTER_DIGIT)
    ensures !IsUnitVec(Normalized(Ijk(2, 0, 0)))
  {
    forall d | 0 <= d < NUM_DIGITS
      ensures Normalized(UnitVec(d)) == UnitVec(d) && UnitVec(d).i <= 1
    {
      UnitVecNormal(d);
    }
    assert Normalized(Ijk(2, 0, 0)) == Ijk(2, 0, 0);
  }

  lemma UnitVecNormal(d: int)
    requires 0 <= d < NUM_DIGITS
    ensures Normalized(UnitVec(d)) == UnitVec(d) && UnitVec(d).i <= 1
  {
    if d == 0 {} else if d == 1 {} else if d == 2 {} else if d == 3 {}
    else if d == 4 {} else if d == 5 {} else {}
  }

}
