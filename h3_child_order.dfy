// The order in which iterStepChild of iterators.c visits the descendants of
// a cell.  Counting up the relative digits ds below the parent like an
// odometer in base 7 -- and, below a pentagon, stepping over the deleted
// digit 1 where it would be the first nonzero digit -- moves from each
// descendant to the one whose position (H3ChildPos.Pos) is one more.

module H3ChildOrder {
  import opened H3Api
  import opened H3Hierarchy
  import opened H3ChildPos
  import opened H3IndexFields
  import opened H3IndexOrder

  /** n digits 0. */
  function Zeros(n: nat): (s: seq<int>)
    ensures |s| == n
  {
    seq(n, i => CENTER_DIGIT)
  }

  /** Every digit of s is 0. */
  predicate AllZero(s: seq<int>)
  {
    forall i | 0 <= i < |s| :: s[i] == CENTER_DIGIT
  }

  /** Every digit of ds after index j is 6, the largest real digit. */
  predicate SixesAfter(ds: seq<int>, j: int)
  {
    forall t | 0 <= t < |ds| && j < t :: ds[t] == 6
  }

  /** ds with digit j replaced by y and every later digit cleared. */
  function Bumped(ds: seq<int>, j: int, y: int): (s: seq<int>)
    requires 0 <= j < |ds|
    ensures |s| == |ds|
  {
    ds[..j] + [y] + Zeros(|ds| - j - 1)
  }

  /** The digit the odometer writes at j when the digits after j roll
      over: one more, except that the first nonzero digit below a
      pentagon goes from 0 straight to 2. */
  function NextDigit(ds: seq<int>, inPent: bool, j: int): int
    requires 0 <= j < |ds|
  {
    if inPent && AllZero(ds[..j]) && ds[j] == CENTER_DIGIT then 2 else ds[j] + 1
  }

  // ------------------------------------------------------ the extremes

  /** All digits 0: the first descendant, at position 0. */
  lemma {:induction false} PosZeros(n: nat, inPent: bool)
    ensures ValidRel(Zeros(n), inPent) && Pos(Zeros(n), inPent) == 0
    decreases n
  {
    if n > 0 {
      assert Zeros(n)[1..] == Zeros(n - 1);
      PosZeros(n - 1, inPent);
    }
  }

  /** Position 0 decodes to all digits 0. */
  lemma DecodeZero(n: nat, inPent: bool)
    ensures Decode(0, n, inPent) == Zeros(n)
  {
    PosZeros(n, inPent);
    DecodePos(Zeros(n), inPent);
  }

  /** All digits 6: the last descendant, one below the count. */
  lemma {:induction false} PosSixes(ds: seq<int>, inPent: bool)
    requires SixesAfter(ds, -1)
    ensures Pos(ds, inPent) + 1 == Size(|ds|, inPent)
    decreases |ds|
  {
    if |ds| > 0 {
      var e := |ds| - 1;
      assert SixesAfter(ds[1..], -1);
      PosSixes(ds[1..], false);
      TimesIsMul(4, Pow7(e));
      TimesIsMul(5, Pow7(e));
      if inPent {
        assert DigitOffset(6, true, e) == PentagonChildCount(e) + Times(4, Pow7(e));
      } else {
        assert DigitOffset(6, false, e) == Pow7(e) + Times(5, Pow7(e));
      }
    }
  }

  // ------------------------------------------------------ one step

  /** Counting up digit j when every later digit is 6 gives checked
      digits whose position is one more. */
  lemma {:induction false} PosBumped(ds: seq<int>, inPent: bool, j: int)
    requires ValidRel(ds, inPent) && 0 <= j < |ds| && ds[j] != 6 && SixesAfter(ds, j)
    ensures ValidRel(Bumped(ds, j, NextDigit(ds, inPent, j)), inPent)
    ensures Pos(Bumped(ds, j, NextDigit(ds, inPent, j)), inPent) == Pos(ds, inPent) + 1
    decreases j
  {
    var y := NextDigit(ds, inPent, j);
    var ds' := Bumped(ds, j, y);
    var inner := inPent && ds[0] == CENTER_DIGIT;
    ValidRelDigits(ds, inPent);
    if j == 0 {
      assert ds'[1..] == Zeros(|ds| - 1);
      assert SixesAfter(ds[1..], -1);
      PosSixes(ds[1..], inner);
      PosZeros(|ds| - 1, inPent && y == CENTER_DIGIT);
      assert y == if inner then 2 else ds[0] + 1;
    } else {
      var tail := ds[1..];
      assert tail[..j - 1] + [y] + Zeros(|ds| - j - 1) == ds'[1..];
      assert AllZero(ds[..j]) <==> ds[0] == CENTER_DIGIT && AllZero(tail[..j - 1]) by {
        assert ds[..j] == [ds[0]] + tail[..j - 1];
      }
      assert tail[j - 1] == ds[j];
      assert NextDigit(tail, inner, j - 1) == y;
      PosBumped(tail, inner, j - 1);
      assert ds'[0] == ds[0];
    }
  }

  /** The step in positions: the bumped digits decode from the next
      position, which is still below the count. */
  lemma DecodeNext(pos: int, n: nat, inPent: bool, j: int)
    requires 0 <= pos < Size(n, inPent)
    requires 0 <= j < n
    requires Decode(pos, n, inPent)[j] != 6 && SixesAfter(Decode(pos, n, inPent), j)
    ensures pos + 1 < Size(n, inPent)
    ensures Decode(pos + 1, n, inPent)
      == Bumped(Decode(pos, n, inPent), j, NextDigit(Decode(pos, n, inPent), inPent, j))
  {
    var ds := Decode(pos, n, inPent);
    PosDecode(pos, n, inPent);
    PosBumped(ds, inPent, j);
    DecodePos(Bumped(ds, j, NextDigit(ds, inPent, j)), inPent);
  }

  /** When every digit is 6 the position is the last one. */
  lemma DecodeLast(pos: int, n: nat, inPent: bool)
    requires 0 <= pos < Size(n, inPent)
    requires SixesAfter(Decode(pos, n, inPent), -1)
    ensures pos + 1 == Size(n, inPent)
  {
    PosDecode(pos, n, inPent);
    PosSixes(Decode(pos, n, inPent), inPent);
  }

  // ------------------------------------------------------ the skip digit

  /** t counts the leading 0 digits of ds, as the skip digit of a pentagon
      iteration does (relative to the parent's resolution). */
  predicate LeadingZeros(ds: seq<int>, t: int)
  {
    0 <= t <= |ds| && AllZero(ds[..t]) && (t < |ds| ==> ds[t] != CENTER_DIGIT)
  }

  /** A digit inside an all-zero prefix is 0. */
  lemma ZeroIn(ds: seq<int>, t: int, q: int)
    requires 0 <= q < t <= |ds| && AllZero(ds[..t])
    ensures ds[q] == CENTER_DIGIT
  {
    assert ds[..t][q] == ds[q];
  }

  /** At the digit j where counting stops, the skip test of iterStepChild
      (j is the skip position and the counted-up digit is 1) fires exactly
      when the odometer must jump from 0 to 2; the leading-zero count
      then drops by one, and otherwise stays. */
  lemma SkipAt(ds: seq<int>, t: int, j: int)
    requires LeadingZeros(ds, t) && 0 <= j < |ds| && 0 <= ds[j] < 6 && SixesAfter(ds, j)
    ensures (j + 1 == t && ds[j] == CENTER_DIGIT) <==> NextDigit(ds, true, j) == 2 && ds[j] == CENTER_DIGIT
    ensures j + 1 == t && ds[j] == CENTER_DIGIT ==> LeadingZeros(Bumped(ds, j, 2), t - 1)
    ensures !(j + 1 == t && ds[j] == CENTER_DIGIT) ==> LeadingZeros(Bumped(ds, j, NextDigit(ds, true, j)), t)
  {
    if t > j + 1 {
      ZeroIn(ds, t, j + 1);
      assert false;
    }
    if t == j + 1 {
      assert AllZero(ds[..j]) by {
        assert forall q | 0 <= q < j :: ds[..j][q] == ds[..t][q];
      }
      assert ds[..t][j] == ds[j];
      assert Bumped(ds, j, 2)[..t - 1] == ds[..j];
    } else {
      var ds' := Bumped(ds, j, NextDigit(ds, true, j));
      if t < j {
        assert ds'[t] == ds[t];
      }
      assert ds'[..t] == ds[..t];
    }
  }

  // ------------------------------------------------------ word order

  /** The last index of ds whose digit is not 6, or -1 when every digit
      is 6: the digit the odometer counts up. */
  function LastNotSix(ds: seq<int>): (j: int)
    ensures -1 <= j < |ds| && SixesAfter(ds, j)
    ensures j >= 0 ==> ds[j] != 6
    decreases |ds|
  {
    if |ds| == 0 then -1
    else if ds[|ds| - 1] != 6 then |ds| - 1
    else LastNotSix(ds[..|ds| - 1])
  }

  /** The counted-up digit is larger than the digit it replaces. */
  lemma NextDigitLarger(ds: seq<int>, inPent: bool, j: int)
    requires 0 <= j < |ds|
    ensures NextDigit(ds, inPent, j) > ds[j]
  {
  }

  /** The descendants at positions pos and pos + 1 agree above some
      resolution r, where the one at pos + 1 has the larger digit. */
  lemma NextChildAbove(parent: View, c: int, pos: int) returns (r: int)
    requires WellFormedView(parent) && parent.res <= c <= MAX_H3_RES && 0 <= pos
    requires pos + 1 < Size(c - parent.res, PentagonAbove(parent, parent.res))
    ensures parent.res < r <= c
    ensures SameAbove(ChildAt(parent, c, pos), ChildAt(parent, c, pos + 1), r)
    ensures ChildAt(parent, c, pos).digits[r - 1] < ChildAt(parent, c, pos + 1).digits[r - 1]
  {
    var m, inPent := c - parent.res, PentagonAbove(parent, parent.res);
    var ds := Decode(pos, m, inPent);
    var j := LastNotSix(ds);
    if j < 0 {
      DecodeLast(pos, m, inPent);
      assert false;
    }
    DecodeNext(pos, m, inPent, j);
    NextDigitLarger(ds, inPent, j);
    var ds' := Decode(pos + 1, m, inPent);
    assert ds'[..j] == ds[..j];
    var a, b := ChildAt(parent, c, pos), ChildAt(parent, c, pos + 1);
    r := parent.res + j + 1;
    forall q | 0 <= q < r - 1
      ensures a.digits[q] == b.digits[q]
    {
      if q >= parent.res {
        assert a.digits[q] == ds[q - parent.res];
        assert b.digits[q] == ds'[q - parent.res];
        assert ds[..j][q - parent.res] == ds'[..j][q - parent.res];
      }
    }
    assert a.digits[r - 1] == ds[j] && b.digits[r - 1] == ds'[j];
  }

  /** childPosToCell numbers the descendants of a cell in the unsigned
      order of their index words: the word at position pos + 1 is larger. */
  lemma ChildWordsIncrease(a: H3Index, b: H3Index, parent: View, c: int, pos: int)
    requires WellFormedView(parent) && parent.res <= c <= MAX_H3_RES && 0 <= pos
    requires pos + 1 < Size(c - parent.res, PentagonAbove(parent, parent.res))
    requires ViewOf(a) == ChildAt(parent, c, pos) && ViewOf(b) == ChildAt(parent, c, pos + 1)
    ensures a < b
  {
    var r := NextChildAbove(parent, c, pos);
    WordLessView(a, b, r);
  }
}
