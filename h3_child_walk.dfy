// The walk of iterStepChild of iterators.c over the descendants of a
// cell, on the values of the iterator's fields.  The word h of the child
// at position pos is counted up digit by digit from the child resolution
// towards the parent's (_incrementResDigit, carrying out of a digit 7),
// and the model proves that the word reached is the child at position
// pos + 1 in the order of childPosToCell (H3ChildPos), or that pos was
// the last position.

module H3ChildWalk {
  import opened H3Api
  import opened H3IndexBits
  import opened H3IndexFields
  import opened H3IndexCarry
  import opened H3Hierarchy
  import opened H3ChildPos
  import opened H3ChildOrder

  // ------------------------------------------ adding a unit to a digit

  /** One more than a digit word below 7 is the word of one more. */
  lemma DigitSucc(d: bv3)
    requires d != 7
    ensures DigitValue(d) + 1 <= INVALID_DIGIT && DigitWord(DigitValue(d) + 1) == d + 1
  {
  }

  /** _incrementResDigit on a digit below 7, as bit fields. */
  lemma IncrementBits(h: H3Index, r: int)
    requires 1 <= r <= MAX_H3_RES && IndexDigitBits(h, r) != 7
    ensures h + DigitUnit(r) == WithIndexDigitBits(h, r, IndexDigitBits(h, r) + 1)
  {
    IndexDigitDecode(h, r);
    AddUnitNoCarry(h, r);
  }

  /** _incrementResDigit on a digit below 7 sets that digit to one more. */
  lemma IncrementWord(h: H3Index, r: int)
    requires 1 <= r <= MAX_H3_RES && GetIndexDigit(h, r) != INVALID_DIGIT
    ensures h + DigitUnit(r) == SetIndexDigit(h, r, GetIndexDigit(h, r) + 1)
  {
    IncrementBits(h, r);
    DigitSucc(IndexDigitBits(h, r));
  }

  /** _incrementResDigit on a digit 7, as bit fields. */
  lemma CarryBits(h: H3Index, r: int)
    requires 2 <= r <= MAX_H3_RES && IndexDigitBits(h, r) == 7 && IndexDigitBits(h, r - 1) != 7
    ensures h + DigitUnit(r) == WithIndexDigitBits(WithIndexDigitBits(h, r, 0), r - 1, IndexDigitBits(h, r - 1) + 1)
  {
    IndexDigitDecode(h, r);
    IndexDigitDecode(h, r - 1);
    AddUnitCarry(h, r);
  }

  /** The setters written as bit-field updates. */
  lemma SetTwoDigitsBits(h: H3Index, r: int, d: bv3)
    requires 2 <= r <= MAX_H3_RES && d != 7
    ensures SetIndexDigit(SetIndexDigit(h, r, CENTER_DIGIT), r - 1, DigitValue(d) + 1)
      == WithIndexDigitBits(WithIndexDigitBits(h, r, 0), r - 1, d + 1)
  {
    DigitSucc(d);
  }

  /** _incrementResDigit on a digit 7 clears it and sets the digit of the
      coarser resolution to one more, when that one is below 7. */
  lemma CarryWord(h: H3Index, r: int)
    requires 2 <= r <= MAX_H3_RES && GetIndexDigit(h, r) == INVALID_DIGIT
    requires GetIndexDigit(h, r - 1) != INVALID_DIGIT
    ensures h + DigitUnit(r)
      == SetIndexDigit(SetIndexDigit(h, r, CENTER_DIGIT), r - 1, GetIndexDigit(h, r - 1) + 1)
  {
    CarryBits(h, r);
    SetTwoDigitsBits(h, r, IndexDigitBits(h, r - 1));
  }

  /** Setting digit r and then digit r - 1 changes those two digits of
      the view. */
  lemma SetTwoDigitsView(h: H3Index, r: int, x: int, y: int)
    requires 2 <= r <= MAX_H3_RES && IsDigit(x) && IsDigit(y)
    ensures ViewOf(SetIndexDigit(SetIndexDigit(h, r, x), r - 1, y))
      == ViewOf(h).(digits := ViewOf(h).digits[r - 1 := x][r - 2 := y])
  {
    var h1 := SetIndexDigit(h, r, x);
    SetIndexDigitView(h, r, x);
    SetIndexDigitView(h1, r - 1, y);
    DigitsTwice(ViewOf(h), ViewOf(h1), ViewOf(SetIndexDigit(h1, r - 1, y)), r - 1, x, r - 2, y);
  }

  /** Two digit updates in a row. */
  lemma DigitsTwice(v: View, v1: View, v2: View, i: int, x: int, j: int, y: int)
    requires 0 <= i < |v.digits| && 0 <= j < |v.digits|
    requires v1 == v.(digits := v.digits[i := x]) && v2 == v1.(digits := v1.digits[j := y])
    ensures v2 == v.(digits := v.digits[i := x][j := y])
  {
  }

  /** _incrementResDigit on a digit below 7 adds one to that digit only. */
  lemma IncrementView(h: H3Index, r: int)
    requires 1 <= r <= MAX_H3_RES && GetIndexDigit(h, r) != INVALID_DIGIT
    ensures ViewOf(h + DigitUnit(r)) == ViewOf(h).(digits := ViewOf(h).digits[r - 1 := ViewOf(h).digits[r - 1] + 1])
  {
    IncrementWord(h, r);
    GetIndexDigitView(h, r);
    SetIndexDigitView(h, r, GetIndexDigit(h, r) + 1);
  }

  /** _incrementResDigit on a digit 7 clears it and adds one to the digit
      of the coarser resolution, when that one is below 7. */
  lemma CarryView(h: H3Index, r: int)
    requires 2 <= r <= MAX_H3_RES && GetIndexDigit(h, r) == INVALID_DIGIT
    requires GetIndexDigit(h, r - 1) != INVALID_DIGIT
    ensures ViewOf(h + DigitUnit(r))
      == ViewOf(h).(digits := ViewOf(h).digits[r - 1 := CENTER_DIGIT][r - 2 := ViewOf(h).digits[r - 2] + 1])
  {
    CarryWord(h, r);
    GetIndexDigitView(h, r - 1);
    SetTwoDigitsView(h, r, CENTER_DIGIT, GetIndexDigit(h, r - 1) + 1);
  }

  // ------------------------------------------ the digits during a step

  /** The digits while iterStepChild carries at resolution i: digit i is
      y, the digits of resolutions i+1..c have rolled over to 0, the rest
      are those of a. */
  function Carried(a: seq<int>, i: int, c: int, y: int): (s: seq<int>)
    requires 1 <= i <= c <= |a|
    ensures |s| == |a| && s[i - 1] == y
    ensures forall q | 0 <= q < i - 1 :: s[q] == a[q]
  {
    a[..i - 1] + [y] + Zeros(c - i) + a[c..]
  }

  /** The first increment, at the child's own resolution. */
  lemma CarriedStart(a: seq<int>, c: int)
    requires 1 <= c <= |a|
    ensures a[c - 1 := a[c - 1] + 1] == Carried(a, c, c, a[c - 1] + 1)
  {
  }

  /** Rewriting the carried digit. */
  lemma CarriedSet(a: seq<int>, i: int, c: int, y: int, y': int)
    requires 1 <= i <= c <= |a|
    ensures Carried(a, i, c, y)[i - 1 := y'] == Carried(a, i, c, y')
  {
  }

  /** A digit that reached 7 rolls over and the carry moves one
      resolution up. */
  lemma CarryShift(a: seq<int>, i: int, c: int)
    requires 2 <= i <= c <= |a|
    ensures Carried(a, i, c, INVALID_DIGIT)[i - 1 := CENTER_DIGIT][i - 2 := a[i - 2] + 1]
      == Carried(a, i - 1, c, a[i - 2] + 1)
  {
  }

  /** The relative digits of the child at position pos. */
  ghost function RelDigits(parent: View, c: int, pos: int): (ds: seq<int>)
    requires WellFormedView(parent) && parent.res <= c <= MAX_H3_RES && pos >= 0
    ensures |ds| == c - parent.res
  {
    H3ChildPos.Decode(pos, c - parent.res, PentagonAbove(parent, parent.res))
  }

  /** The digits of a child carried at resolution i are the parent's
      digits around the relative digits with digit i - parentRes - 1 bumped;
      and the digits of the child itself are the relative ones. */
  lemma ChildDigits(parent: View, c: int, pos: int)
    requires WellFormedView(parent) && parent.res <= c <= MAX_H3_RES && pos >= 0
    ensures forall q | parent.res <= q < c :: ChildAt(parent, c, pos).digits[q] == RelDigits(parent, c, pos)[q - parent.res]
  {
    var p := parent.res;
    var ds := RelDigits(parent, c, pos);
    var a := ChildAt(parent, c, pos).digits;
    assert a == parent.digits[..p] + ds + parent.digits[c..];
  }

  lemma CarriedChild(parent: View, c: int, pos: int, i: int, y: int)
    requires WellFormedView(parent) && parent.res < i <= c <= MAX_H3_RES && pos >= 0
    ensures Carried(ChildAt(parent, c, pos).digits, i, c, y)
      == parent.digits[..parent.res] + Bumped(RelDigits(parent, c, pos), i - parent.res - 1, y) + parent.digits[c..]
  {
    var p := parent.res;
    var ds := RelDigits(parent, c, pos);
    var a := ChildAt(parent, c, pos).digits;
    assert a == parent.digits[..p] + ds + parent.digits[c..];
    ChildDigits(parent, c, pos);
    var lhs := Carried(a, i, c, y);
    var rhs := parent.digits[..p] + Bumped(ds, i - p - 1, y) + parent.digits[c..];
    assert forall q | 0 <= q < |a| :: lhs[q] == rhs[q];
  }

  /** When the carry stops at resolution i the digits are those of the
      child at the next position. */
  lemma NextChildView(parent: View, c: int, pos: int, i: int)
    requires WellFormedView(parent) && parent.res < i <= c <= MAX_H3_RES
    requires 0 <= pos < Size(c - parent.res, PentagonAbove(parent, parent.res))
    requires RelDigits(parent, c, pos)[i - parent.res - 1] != 6
    requires SixesAfter(RelDigits(parent, c, pos), i - parent.res - 1)
    ensures pos + 1 < Size(c - parent.res, PentagonAbove(parent, parent.res))
    ensures ChildAt(parent, c, pos).(digits := Carried(ChildAt(parent, c, pos).digits, i, c,
              NextDigit(RelDigits(parent, c, pos), PentagonAbove(parent, parent.res), i - parent.res - 1)))
      == ChildAt(parent, c, pos + 1)
    ensures RelDigits(parent, c, pos + 1)
      == Bumped(RelDigits(parent, c, pos), i - parent.res - 1,
                NextDigit(RelDigits(parent, c, pos), PentagonAbove(parent, parent.res), i - parent.res - 1))
  {
    var pa := PentagonAbove(parent, parent.res);
    var ds := RelDigits(parent, c, pos);
    var j := i - parent.res - 1;
    CarriedChild(parent, c, pos, i, NextDigit(ds, pa, j));
    DecodeNext(pos, c - parent.res, pa, j);
  }

  /** The lowest bit of the base cell field: what _incrementResDigit adds
      for resolution 0. */
  const BASE_CELL_UNIT: H3Index := 0x0000_2000_0000_0000

  // ------------------------------------------ the live iterator

  /** The state of a live child iterator apart from its word: the
      descendant of parent at resolution childRes and position pos exists,
      and below a pentagon the skip digit stands at the end of the leading
      run of 0 digits. */
  ghost predicate LiveAt(parentRes: int, skipDigit: int, parent: View, childRes: int, pos: int)
  {
    WellFormedView(parent) && parent.res == parentRes && parent.res <= childRes <= MAX_H3_RES
    && 0 <= pos < Size(childRes - parent.res, PentagonAbove(parent, parent.res))
    && (if PentagonAbove(parent, parent.res)
        then LeadingZeros(RelDigits(parent, childRes, pos), skipDigit - parent.res)
        else skipDigit == -1)
  }

  /** ... whose word has the fields of that descendant. */
  ghost predicate LiveView(v: View, parentRes: int, skipDigit: int, parent: View, childRes: int, pos: int)
  {
    LiveAt(parentRes, skipDigit, parent, childRes, pos) && v == ChildAt(parent, childRes, pos)
  }

  /** A live child iterator. */
  ghost predicate Live(h: H3Index, parentRes: int, skipDigit: int, parent: View, childRes: int, pos: int)
  {
    h != H3_NULL && LiveView(ViewOf(h), parentRes, skipDigit, parent, childRes, pos)
  }

  /** The fields of a child iterator: the null iterator (_null_iter), or a
      live one. */
  ghost predicate ChildIter(h: H3Index, parentRes: int, skipDigit: int, parent: View, childRes: int, pos: int)
  {
    if h == H3_NULL then parentRes == -1 && skipDigit == -1
    else Live(h, parentRes, skipDigit, parent, childRes, pos)
  }

  /** The loop of iterStepChild on the fields (h, _parentRes, _skipDigit)
      of a live iterator at position pos: the fields of the iterator at
      position pos + 1, or those of the null iterator after the last
      descendant. */
  method StepChild(h: H3Index, parentRes: int, skipDigit: int, ghost parent: View, ghost c: int, ghost pos: int)
    returns (h': H3Index, parentRes': int, skipDigit': int, ghost pos': int)
    requires Live(h, parentRes, skipDigit, parent, c, pos)
    ensures h' != H3_NULL <==> pos + 1 < Size(c - parent.res, PentagonAbove(parent, parent.res))
    ensures pos' == if h' == H3_NULL then pos else pos + 1
    ensures h' != H3_NULL ==> WordBefore(h, h')
    ensures ChildIter(h', parentRes', skipDigit', parent, c, pos')
  {
    pos' := pos;
    var res;
    ghost var w;
    res, h', w := StartStep(h, parentRes, skipDigit, parent, c, pos);
    var found;
    h', skipDigit', found := CarryUp(h', res, parentRes, skipDigit, w, parent, c, pos);
    if !found {
      return H3_NULL, -1, -1, pos;
    }
    parentRes', pos' := parentRes, pos + 1;
    NextLive(h, h', parentRes, skipDigit, skipDigit', parent, c, pos);
  }

  /** The index word a is smaller than b. */
  predicate WordBefore(a: H3Index, b: H3Index)
  {
    a < b
  }

  /** The word found by the loop is that of the next live iterator. */
  lemma NextLive(h: H3Index, h': H3Index, pr: int, sk: int, sk': int, parent: View, c: int, pos: int)
    requires Live(h, pr, sk, parent, c, pos) && LiveView(ViewOf(h'), pr, sk', parent, c, pos + 1)
    ensures Live(h', pr, sk', parent, c, pos + 1) && WordBefore(h, h')
    ensures pos + 1 < Size(c - parent.res, PentagonAbove(parent, parent.res))
  {
    ChildWordsIncrease(h, h', parent, c, pos);
  }

  /** Stepping a live iterator to the next position moves to a larger
      index word. */
  lemma LiveWordsIncrease(h: H3Index, h': H3Index, pr: int, sk: int, sk': int, parent: View, c: int, pos: int)
    requires Live(h, pr, sk, parent, c, pos) && Live(h', pr, sk', parent, c, pos + 1)
    ensures h < h'
  {
    ChildWordsIncrease(h, h', parent, c, pos);
  }

  /** The loop of iterStepChild from resolution res down to the parent's,
      on the word h of the child at position pos incremented at res: found
      when it stops at the child at position pos + 1, not found when it
      reaches the parent's resolution, which happens after the last
      child. */
  method CarryUp(h: H3Index, res: int, parentRes: int, skipDigit: int, ghost w0: View,
                 ghost parent: View, ghost c: int, ghost pos: int)
    returns (h': H3Index, skipDigit': int, found: bool)
    requires w0 == ViewOf(h) && LiveAt(parentRes, skipDigit, parent, c, pos) && res == c
    requires res > parentRes ==> Pending(w0, parentRes, skipDigit, parent, c, pos, res)
    ensures found ==> LiveView(ViewOf(h'), parentRes, skipDigit', parent, c, pos + 1)
    ensures !found ==> pos + 1 == Size(c - parent.res, PentagonAbove(parent, parent.res))
  {
    h', skipDigit' := h, skipDigit;
    ghost var w := w0;
    var i := res;
    while i >= parentRes
      invariant parentRes <= i <= c
      invariant LiveAt(parentRes, skipDigit', parent, c, pos)
      invariant SixesAfter(RelDigits(parent, c, pos), i - parentRes - 1)
      invariant w == ViewOf(h')
      invariant i > parentRes ==> Pending(w, parentRes, skipDigit', parent, c, pos, i)
      decreases i
    {
      if i == parentRes {
        LastChild(parentRes, skipDigit', parent, c, pos, i);
        return h', skipDigit', false;
      }
      var done: bool;
      h', skipDigit', done, w := StepDigit(h', i, skipDigit', w, parentRes, parent, c, pos);
      if done {
        return h', skipDigit', true;
      }
      i := i - 1;
    }
    // NEVER: the test i == parentRes ends the loop first.
    assert false;
  }

  /** When the carry reaches the parent's resolution every relative digit
      was 6: the child was the last one. */
  lemma LastChild(pr: int, sk: int, parent: View, c: int, pos: int, i: int)
    requires LiveAt(pr, sk, parent, c, pos) && SixesAfter(RelDigits(parent, c, pos), i - pr - 1) && i == pr
    ensures pos + 1 == Size(c - parent.res, PentagonAbove(parent, parent.res))
  {
    DecodeLast(pos, c - parent.res, PentagonAbove(parent, parent.res));
  }

  /** The first _incrementResDigit of iterStepChild, at the resolution of
      the current child: the carried digits of resolution res, unless res
      is the parent's own. */
  method StartStep(h: H3Index, ghost pr: int, ghost sk: int, ghost parent: View, ghost c: int, ghost pos: int)
    returns (res: int, h': H3Index, ghost w: View)
    requires Live(h, pr, sk, parent, c, pos)
    ensures res == c && w == ViewOf(h') && LiveAt(pr, sk, parent, c, pos)
    ensures res > pr ==> Pending(w, pr, sk, parent, c, pos, res)
  {
    FieldsOfView(h);
    res := GetResolution(h);
    h' := IncrementResDigit(h, res);
    if res > pr {
      StartBranch(h, h', ViewOf(h), pr, sk, parent, c, pos);
    }
    w := ViewOf(h');
  }

  /** _incrementResDigit: one unit of the digit at resolution res added
      to the whole word (for resolution 0 the lowest base cell bit). */
  function IncrementResDigit(h: H3Index, res: int): H3Index
    requires 0 <= res <= MAX_H3_RES
  {
    if res == 0 then h + BASE_CELL_UNIT else h + DigitUnit(res)
  }

  /** One pass of the loop of iterStepChild at resolution i, above the
      parent's, on the word h of the child at position pos carried up to
      i: the skipped digit of a pentagon or a digit below 7 ends the step
      (done) at the child at position pos + 1; a digit 7 carries on to
      resolution i - 1. */
  method StepDigit(h: H3Index, i: int, skipDigit: int, ghost v: View,
                   ghost pr: int, ghost parent: View, ghost c: int, ghost pos: int)
    returns (h': H3Index, skipDigit': int, done: bool, ghost v': View)
    requires v == ViewOf(h) && Pending(v, pr, skipDigit, parent, c, pos, i)
    ensures v' == ViewOf(h')
    ensures done ==> LiveView(v', pr, skipDigit', parent, c, pos + 1)
    ensures !done ==> skipDigit' == skipDigit && SixesAfter(RelDigits(parent, c, pos), i - pr - 2)
    ensures !done && i - 1 > pr ==> Pending(v', pr, skipDigit, parent, c, pos, i - 1)
  {
    GetIndexDigitView(h, i);
    if i == skipDigit && GetIndexDigit(h, i) == K_AXES_DIGIT {
      h' := IncrementResDigit(h, i);
      v' := ViewOf(h');
      SkipBranch(h, v, v', pr, skipDigit, parent, c, pos, i);
      return h', skipDigit - 1, true, v';
    }
    if GetIndexDigit(h, i) == INVALID_DIGIT {
      h' := IncrementResDigit(h, i);
      v' := ViewOf(h');
      CarryBranch(h, v, v', pr, skipDigit, parent, c, pos, i);
      return h', skipDigit, false, v';
    }
    StopView(v, pr, skipDigit, parent, c, pos, i);
    return h, skipDigit, true, v;
  }


  /** The word iterInitParent builds: the parent at resolution c with
      digits from its own resolution to c cleared. */
  lemma FirstChildWord(h0: H3Index, c: int, first: H3Index)
    requires ViewOf(h0).res <= c <= MAX_H3_RES
    requires first == SetResolution(ZeroIndexDigits(h0, ViewOf(h0).res + 1, c), c)
    ensures ViewOf(first) == ViewOf(h0).(res := c, digits := Fill(ViewOf(h0).digits, ViewOf(h0).res, c, CENTER_DIGIT))
  {
    var z := ZeroIndexDigits(h0, ViewOf(h0).res + 1, c);
    ZeroIndexDigitsView(h0, ViewOf(h0).res + 1, c);
    SetResolutionView(z, c);
  }

  /** ... which is the child at position 0, with every relative digit 0. */
  lemma FirstChildAt(v: View, c: int, w: View)
    requires WellFormedView(v) && v.res <= c <= MAX_H3_RES
    requires w == v.(res := c, digits := Fill(v.digits, v.res, c, CENTER_DIGIT))
    ensures w == ChildAt(v, c, 0) && 0 < Size(c - v.res, PentagonAbove(v, v.res))
    ensures LeadingZeros(RelDigits(v, c, 0), c - v.res)
    ensures PentagonAbove(w, c) <==> PentagonAbove(v, v.res)
  {
    var p := v.res;
    DecodeZero(c - p, PentagonAbove(v, p));
    assert w.digits == v.digits[..p] + Zeros(c - p) + v.digits[c..];
    assert Zeros(c - p)[..c - p] == Zeros(c - p);
    assert forall i | 0 <= i < c :: w.digits[i] == if i < p then v.digits[i] else CENTER_DIGIT;
  }

  /** The first descendant is not H3_NULL: its resolution is c, and when
      c is 0 it is h0 itself. */
  lemma FirstChildNotNull(h0: H3Index, c: int, first: H3Index)
    requires h0 != H3_NULL && ViewOf(h0).res <= c <= MAX_H3_RES
    requires ViewOf(first) == ViewOf(h0).(res := c, digits := Fill(ViewOf(h0).digits, ViewOf(h0).res, c, CENTER_DIGIT))
    ensures first != H3_NULL
  {
    if first == H3_NULL {
      FieldsOfView(H3_NULL);
      FillEmpty(ViewOf(h0).digits, ViewOf(h0).res, c, CENTER_DIGIT);
      ViewInjective(first, h0);
    }
  }

  /** The first descendant is live, with the skip digit at c exactly when
      it is a pentagon. */
  lemma FirstChild(h0: H3Index, c: int, first: H3Index)
    requires h0 != H3_NULL && ViewOf(h0).res <= c <= MAX_H3_RES
    requires first == SetResolution(ZeroIndexDigits(h0, ViewOf(h0).res + 1, c), c)
    ensures ViewOf(first) == ViewOf(h0).(res := c, digits := Fill(ViewOf(h0).digits, ViewOf(h0).res, c, CENTER_DIGIT))
    ensures Live(first, ViewOf(h0).res, if IsPentagon(first) then c else -1, ViewOf(h0), c, 0)
  {
    FirstChildWord(h0, c, first);
    FirstChildAt(ViewOf(h0), c, ViewOf(first));
    FirstChildNotNull(h0, c, first);
    IsPentagonDigits(first);
  }

  // ------------------------------------------ the steps of iterStepChild

  // Each step is proved twice over: on the fields (the ...View lemmas,
  // pure sequence reasoning) and on the words (the ...Branch lemmas, which
  // only connect the increment to the fields).

  /** After the increments at the resolutions below i: digit i of v is one
      more than in v0 and the digits after it rolled over to 0. */
  ghost predicate Carrying(v: View, v0: View, i: int, c: int)
    requires 1 <= i <= c <= |v0.digits|
  {
    v == v0.(digits := Carried(v0.digits, i, c, v0.digits[i - 1] + 1))
  }

  /** Inside iterStepChild at resolution i: the child at position pos
      (live), whose relative digits after i are all 6, carried up to i. */
  ghost predicate Pending(v: View, pr: int, sk: int, parent: View, c: int, pos: int, i: int)
  {
    LiveAt(pr, sk, parent, c, pos) && pr < i <= c
    && SixesAfter(RelDigits(parent, c, pos), i - pr - 1)
    && Carrying(v, ChildAt(parent, c, pos), i, c)
  }

  /** The digits of a live child between the two resolutions are its
      relative digits, none of them 7. */
  lemma LiveDigits(pr: int, sk: int, parent: View, c: int, pos: int)
    requires LiveAt(pr, sk, parent, c, pos)
    ensures forall q | pr <= q < c :: ChildAt(parent, c, pos).digits[q] == RelDigits(parent, c, pos)[q - pr]
    ensures forall q | 0 <= q < c - pr :: 0 <= RelDigits(parent, c, pos)[q] < INVALID_DIGIT
  {
    ChildDigits(parent, c, pos);
    RelDigitsBelow(parent, c, pos);
  }

  /** The relative digits of a child in range are digits other than 7. */
  lemma RelDigitsBelow(parent: View, c: int, pos: int)
    requires WellFormedView(parent) && parent.res <= c <= MAX_H3_RES
    requires 0 <= pos < Size(c - parent.res, PentagonAbove(parent, parent.res))
    ensures forall q | 0 <= q < c - parent.res :: 0 <= RelDigits(parent, c, pos)[q] < INVALID_DIGIT
  {
    var pa := PentagonAbove(parent, parent.res);
    PosDecode(pos, c - parent.res, pa);
    ValidRelDigits(RelDigits(parent, c, pos), pa);
  }

  /** The child's own digit is below 7 ... */
  lemma StartDigit(v0: View, pr: int, sk: int, parent: View, c: int, pos: int)
    requires LiveView(v0, pr, sk, parent, c, pos) && pr < c
    ensures v0.digits[c - 1] != INVALID_DIGIT
  {
    LiveDigits(pr, sk, parent, c, pos);
  }

  /** ... and adding one to it starts the carry at the child's resolution. */
  lemma StartView(v0: View, w: View, pr: int, sk: int, parent: View, c: int, pos: int)
    requires LiveView(v0, pr, sk, parent, c, pos) && pr < c
    requires w == v0.(digits := v0.digits[c - 1 := v0.digits[c - 1] + 1])
    ensures Pending(w, pr, sk, parent, c, pos, c)
  {
    CarriedStart(v0.digits, c);
  }

  /** A digit at 7 means the relative digit was 6, and the next coarser
      digit (when it is still below the parent's resolution) is below 7. */
  lemma CarryDigits(v: View, pr: int, sk: int, parent: View, c: int, pos: int, i: int)
    requires Pending(v, pr, sk, parent, c, pos, i) && v.digits[i - 1] == INVALID_DIGIT
    ensures SixesAfter(RelDigits(parent, c, pos), i - pr - 2)
    ensures i - 1 > pr ==> v.digits[i - 2] != INVALID_DIGIT
  {
    LiveDigits(pr, sk, parent, c, pos);
  }

  /** ... and the carry moves one resolution up. */
  lemma CarryMoves(v: View, w: View, pr: int, sk: int, parent: View, c: int, pos: int, i: int)
    requires Pending(v, pr, sk, parent, c, pos, i) && v.digits[i - 1] == INVALID_DIGIT && i - 1 > pr
    requires w == v.(digits := v.digits[i - 1 := CENTER_DIGIT][i - 2 := v.digits[i - 2] + 1])
    ensures Pending(w, pr, sk, parent, c, pos, i - 1)
  {
    CarryDigits(v, pr, sk, parent, c, pos, i);
    CarryShift(ChildAt(parent, c, pos).digits, i, c);
  }

  /** A digit below 7 stops the carry: the next child, with the skip digit
      where it was. */
  lemma StopView(v: View, pr: int, sk: int, parent: View, c: int, pos: int, i: int)
    requires Pending(v, pr, sk, parent, c, pos, i)
    requires v.digits[i - 1] != INVALID_DIGIT && !(i == sk && v.digits[i - 1] == K_AXES_DIGIT)
    ensures LiveView(v, pr, sk, parent, c, pos + 1)
  {
    var ds := RelDigits(parent, c, pos);
    LiveDigits(pr, sk, parent, c, pos);
    if PentagonAbove(parent, pr) {
      SkipAt(ds, sk - pr, i - pr - 1);
    }
    NextChildView(parent, c, pos, i);
  }

  /** The skip digit of a pentagon at 1: it goes on to 2 and the skip
      digit moves one resolution up. */
  lemma SkipView(v: View, w: View, pr: int, sk: int, parent: View, c: int, pos: int, i: int)
    requires Pending(v, pr, sk, parent, c, pos, i) && i == sk && v.digits[i - 1] == K_AXES_DIGIT
    requires w == v.(digits := v.digits[i - 1 := v.digits[i - 1] + 1])
    ensures LiveView(w, pr, sk - 1, parent, c, pos + 1)
  {
    var ds := RelDigits(parent, c, pos);
    LiveDigits(pr, sk, parent, c, pos);
    SkipAt(ds, sk - pr, i - pr - 1);
    CarriedSet(ChildAt(parent, c, pos).digits, i, c, K_AXES_DIGIT, 2);
    NextChildView(parent, c, pos, i);
  }

  /** _incrementResDigit on a digit of the view below 7. */
  lemma IncrementDigitView(h: H3Index, r: int)
    requires 1 <= r <= MAX_H3_RES && ViewOf(h).digits[r - 1] != INVALID_DIGIT
    ensures ViewOf(h + DigitUnit(r)) == ViewOf(h).(digits := ViewOf(h).digits[r - 1 := ViewOf(h).digits[r - 1] + 1])
  {
    GetIndexDigitView(h, r);
    IncrementView(h, r);
  }

  /** _incrementResDigit on a digit of the view at 7 whose coarser digit
      is below 7. */
  lemma CarryDigitView(h: H3Index, r: int)
    requires 2 <= r <= MAX_H3_RES && ViewOf(h).digits[r - 1] == INVALID_DIGIT
    requires ViewOf(h).digits[r - 2] != INVALID_DIGIT
    ensures ViewOf(h + DigitUnit(r))
      == ViewOf(h).(digits := ViewOf(h).digits[r - 1 := CENTER_DIGIT][r - 2 := ViewOf(h).digits[r - 2] + 1])
  {
    GetIndexDigitView(h, r);
    GetIndexDigitView(h, r - 1);
    CarryView(h, r);
  }

  /** The first increment, on the word. */
  lemma StartBranch(h: H3Index, h': H3Index, v: View, pr: int, sk: int, parent: View, c: int, pos: int)
    requires v == ViewOf(h) && LiveView(v, pr, sk, parent, c, pos) && pr < c
    requires h' == IncrementResDigit(h, c)
    ensures Pending(ViewOf(h'), pr, sk, parent, c, pos, c)
  {
    assert h' == h + DigitUnit(c);
    StartDigit(v, pr, sk, parent, c, pos);
    IncrementDigitView(h, c);
    StartView(v, ViewOf(h'), pr, sk, parent, c, pos);
  }

  /** A carry, on the word. */
  lemma CarryBranch(h: H3Index, v: View, w: View, pr: int, sk: int, parent: View, c: int, pos: int, i: int)
    requires v == ViewOf(h) && 1 <= i <= MAX_H3_RES && w == ViewOf(h + DigitUnit(i))
    requires Pending(v, pr, sk, parent, c, pos, i) && v.digits[i - 1] == INVALID_DIGIT
    ensures SixesAfter(RelDigits(parent, c, pos), i - pr - 2)
    ensures i - 1 > pr ==> Pending(w, pr, sk, parent, c, pos, i - 1)
  {
    CarryDigits(v, pr, sk, parent, c, pos, i);
    if i - 1 > pr {
      CarryDigitView(h, i);
      CarryMoves(v, w, pr, sk, parent, c, pos, i);
    }
  }

  /** The skipped digit, on the word. */
  lemma SkipBranch(h: H3Index, v: View, w: View, pr: int, sk: int, parent: View, c: int, pos: int, i: int)
    requires v == ViewOf(h) && 1 <= i <= MAX_H3_RES && w == ViewOf(h + DigitUnit(i))
    requires Pending(v, pr, sk, parent, c, pos, i) && i == sk && v.digits[i - 1] == K_AXES_DIGIT
    ensures LiveView(w, pr, sk - 1, parent, c, pos + 1)
  {
    IncrementDigitView(h, i);
    SkipView(v, w, pr, sk, parent, c, pos, i);
  }
}
