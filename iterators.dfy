// The child iterators of iterators.c.  An IterCellsChildren walks the
// descendants of a cell at a finer resolution by counting up the digits
// between the two resolutions in the index word itself; the model keeps
// the position of the current child (H3ChildPos.Pos) as a ghost field and
// proves that each step moves to the next position, so the iteration
// visits exactly the cells childPosToCell numbers 0, 1, 2, ... and then
// stays at H3_NULL.  An IterCellsResolution chains such iterators over
// the 122 base cells.

module H3Iterators {
  import opened H3Api
  import opened H3IndexBits
  import opened H3IndexFields
  import opened H3IndexCarry
  import opened H3Hierarchy
  import opened H3ChildPos
  import opened H3ChildOrder
  import opened H3ChildWalk

  /** The iterator over the descendants of a cell at a finer resolution:
      h is the current descendant or H3_NULL when the iteration is over.
      The ghost fields say which cell is being walked (parent), at which
      resolution (childRes) and where h stands in the order of
      childPosToCell (pos). */
  class IterCellsChildren {
    var h: H3Index
    var parentRes: int
    var skipDigit: int
    ghost var parent: View
    ghost var childRes: int
    ghost var pos: int

    /** The null iterator, or a live one. */
    ghost predicate Valid()
      reads this
    {
      ChildIter(h, parentRes, skipDigit, parent, childRes, pos)
    }

    /** The number of descendants being walked. */
    ghost function Count(): int
      reads this
      requires WellFormedView(parent) && parent.res <= childRes
    {
      Size(childRes - parent.res, PentagonAbove(parent, parent.res))
    }

    /** _null_iter: the exhausted iterator. */
    constructor Null()
      ensures Valid() && h == H3_NULL
    {
      h, parentRes, skipDigit := H3_NULL, -1, -1;
    }

    /** iterInitParent: H3_NULL when childRes is below the resolution of
        h0 or beyond 15 or h0 is H3_NULL; otherwise the first descendant,
        whose digits from the parent's resolution to childRes are 0. */
    constructor InitParent(h0: H3Index, childRes: int)
      ensures Valid()
      ensures childRes < ViewOf(h0).res || childRes > MAX_H3_RES || h0 == H3_NULL ==> h == H3_NULL
      ensures !(childRes < ViewOf(h0).res || childRes > MAX_H3_RES || h0 == H3_NULL) ==>
        h != H3_NULL && parent == ViewOf(h0) && this.childRes == childRes && pos == 0
        && ViewOf(h) == ViewOf(h0).(res := childRes, digits := Fill(ViewOf(h0).digits, ViewOf(h0).res, childRes, CENTER_DIGIT))
    {
      FieldsOfView(h0);
      var pr := GetResolution(h0);
      if childRes < pr || childRes > MAX_H3_RES || h0 == H3_NULL {
        h, parentRes, skipDigit := H3_NULL, -1, -1;
      } else {
        var z := ZeroIndexDigits(h0, pr + 1, childRes);
        var first := SetResolution(z, childRes);
        FirstChild(h0, childRes, first);
        h, parentRes := first, pr;
        if IsPentagon(first) {
          skipDigit := childRes;
        } else {
          skipDigit := -1;
        }
        parent, this.childRes, pos := ViewOf(h0), childRes, 0;
      }
    }

    /** iterStepChild: nothing on the null iterator; otherwise the next
        descendant in the order of childPosToCell, a larger word, or the
        null iterator after the last one. */
    method Step()
      requires Valid()
      modifies this
      ensures Valid()
      ensures old(h) == H3_NULL ==> h == H3_NULL
      ensures old(h) != H3_NULL ==> (h != H3_NULL <==> old(pos) + 1 < old(Count()))
      ensures h != H3_NULL ==> parent == old(parent) && childRes == old(childRes) && pos == old(pos) + 1
      ensures h != H3_NULL ==> WordBefore(old(h), h)
    {
      if h == H3_NULL {
        return;
      }
      h, parentRes, skipDigit, pos := StepChild(h, parentRes, skipDigit, parent, childRes, pos);
    }
  }

  /** The base cell word is never H3_NULL: its mode is the cell mode. */
  lemma BaseCellNotNull(h: H3Index, bc: int)
    requires ViewOf(h) == CellView(0, bc, 0, 0)
    ensures h != H3_NULL
  {
    if h == H3_NULL {
      FieldsOfView(H3_NULL);
    }
  }

  /** iterInitBaseCellNum: the null iterator for a base cell number outside
      0..121 or a resolution outside 0..15; otherwise the iteration over the
      descendants at childRes of the resolution-0 cell of that base cell. */
  method IterInitBaseCellNum(baseCellNum: int, childRes: int) returns (it: IterCellsChildren)
    ensures fresh(it) && it.Valid()
    ensures !(0 <= baseCellNum < NUM_BASE_CELLS && 0 <= childRes <= MAX_H3_RES) ==> it.h == H3_NULL
    ensures 0 <= baseCellNum < NUM_BASE_CELLS && 0 <= childRes <= MAX_H3_RES ==>
      it.h != H3_NULL && it.parent.res == 0 && it.parent.baseCell == baseCellNum && it.childRes == childRes && it.pos == 0
  {
    if baseCellNum < 0 || baseCellNum >= NUM_BASE_CELLS || childRes < 0 || childRes > MAX_H3_RES {
      it := new IterCellsChildren.Null();
      return;
    }
    var baseCell := SetH3Index(0, baseCellNum, 0);
    BaseCellNotNull(baseCell, baseCellNum);
    it := new IterCellsChildren.InitParent(baseCell, childRes);
  }

  /** The iterator over every cell of a resolution: the descendants of base
      cell 0, then of base cell 1, and so on up to base cell 121; h is the
      current cell, or H3_NULL once the last base cell is exhausted. */
  class IterCellsResolution {
    var h: H3Index
    var baseCellNum: int
    var res: int
    var itC: IterCellsChildren

    /** h mirrors the child iterator, which walks the descendants of the
        resolution-0 cell of the current base cell. */
    ghost predicate Valid()
      reads this, itC
    {
      itC.Valid() && h == itC.h && 0 <= baseCellNum < NUM_BASE_CELLS
      && (h != H3_NULL ==> itC.parent.res == 0 && itC.parent.baseCell == baseCellNum && itC.childRes == res)
    }

    /** iterInitRes: the first descendant of base cell 0 at resolution res,
        or the null iterator when res is outside 0..15. */
    constructor InitRes(res: int)
      ensures Valid() && fresh(itC) && baseCellNum == 0 && this.res == res
      ensures 0 <= res <= MAX_H3_RES <==> h != H3_NULL
      ensures h != H3_NULL ==> itC.pos == 0
    {
      var it := IterInitBaseCellNum(0, res);
      h, baseCellNum, this.res, itC := it.h, 0, res, it;
    }

    /** iterStepRes: nothing once the iteration is over; otherwise the next
        descendant of the current base cell, or else the first descendant
        of the next base cell, or else (after base cell 121) H3_NULL. */
    method Step()
      requires Valid()
      modifies this, itC
      ensures Valid() && res == old(res)
      ensures old(h) == H3_NULL ==> h == H3_NULL
      ensures old(h) != H3_NULL && old(itC.pos) + 1 < old(itC.Count()) ==>
        h != H3_NULL && baseCellNum == old(baseCellNum) && itC.pos == old(itC.pos) + 1
      ensures old(h) != H3_NULL && old(itC.pos) + 1 >= old(itC.Count()) && old(baseCellNum) + 1 < NUM_BASE_CELLS ==>
        h != H3_NULL && baseCellNum == old(baseCellNum) + 1 && itC.pos == 0
      ensures old(h) != H3_NULL && old(itC.pos) + 1 >= old(itC.Count()) && old(baseCellNum) + 1 == NUM_BASE_CELLS ==>
        h == H3_NULL
    {
      if h == H3_NULL {
        return;
      }
      ghost var more := itC.pos + 1 < itC.Count();
      itC.Step();
      assert itC.h != H3_NULL <==> more;
      if itC.h == H3_NULL && baseCellNum + 1 < NUM_BASE_CELLS {
        baseCellNum := baseCellNum + 1;
        itC := IterInitBaseCellNum(baseCellNum, res);
      }
      h := itC.h;
    }
  }
}
