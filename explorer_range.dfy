// Longitude arithmetic of the web explorer's viewport helper (useHex.ts):
// wrapping a value into a range with JavaScript's remainder operator, and
// cutting a longitude interval at the antimeridian and the prime meridian.
// Coordinates are exact fixed-point numbers: integers counting millionths
// of a degree.

module ExplorerRange {
  import opened H3Api

  /** One degree in the fixed-point unit of coordinates. */
  const DEGREE: int := 1_000_000

  const HALF_TURN: int := 180 * DEGREE
  const FULL_TURN: int := 360 * DEGREE

  /** JavaScript's `a % b`: the remainder of the division truncated toward
      zero, which has the sign of `a` (Dafny's `%` is Euclidean). */
  function JsRem(a: int, b: int): (r: int)
    requires b != 0
    ensures a >= 0 ==> 0 <= r < if b > 0 then b else -b
    ensures a < 0 ==> -(if b > 0 then b else -b) < r <= 0
  {
    if a >= 0 then a % b else -((-a) % b)
  }

  /** The remainder has the sign of the dividend, is smaller than the
      divisor in magnitude, and differs from the dividend by n divisors. */
  lemma JsRemMeaning(a: int, b: int) returns (n: int)
    requires b != 0
    ensures JsRem(a, b) == a + n * b
    ensures a >= 0 ==> 0 <= JsRem(a, b) < if b > 0 then b else -b
    ensures a < 0 ==> -(if b > 0 then b else -b) < JsRem(a, b) <= 0
  {
    if a >= 0 {
      n := -(a / b);
    } else {
      n := (-a) / b;
    }
  }

  /** adjustToRange(value, min, max); None stands for the NaN that the
      division by a zero range produces. */
  function AdjustToRange(value: int, min: int, max: int): (r: Option<int>)
    ensures r.None? <==> min == max
    ensures min < max ==> r.Some? && min <= r.value < max
    ensures max < min ==> r.Some? && max < r.value <= min
  {
    var range := max - min;
    if range == 0 then None
    else Some(JsRem(JsRem(value - min, range) + range, range) + min)
  }

  /** The case min < max of AdjustToRangeMeaning, with the number of
      ranges added to the value. */
  lemma AdjustUpward(value: int, min: int, max: int) returns (n: int)
    requires min < max
    ensures var y := AdjustToRange(value, min, max).value;
      min <= y < max && y == value + n * (max - min)
  {
    var range := max - min;
    var n1 := JsRemMeaning(value - min, range);
    var n2 := JsRemMeaning(JsRem(value - min, range) + range, range);
    n := n1 + n2 + 1;
  }

  /** The case max < min of AdjustToRangeMeaning. */
  lemma AdjustDownward(value: int, min: int, max: int) returns (n: int)
    requires max < min
    ensures var y := AdjustToRange(value, min, max).value;
      max < y <= min && y == value + n * (max - min)
  {
    var range := max - min;
    var n1 := JsRemMeaning(value - min, range);
    var n2 := JsRemMeaning(JsRem(value - min, range) + range, range);
    n := n1 + n2 + 1;
  }

  /** The whole numbers of ranges: the multiples of range. */
  ghost predicate Multiple(d: int, range: int)
  {
    exists n: int :: d == n * range
  }

  /** adjustToRange gives NaN exactly for a zero range; for min < max the
      result lies in [min, max), for max < min in (max, min], and in both
      cases it differs from the value by a whole number of ranges. */
  lemma AdjustToRangeMeaning(value: int, min: int, max: int)
    ensures AdjustToRange(value, min, max).None? <==> min == max
    ensures min < max ==> var y := AdjustToRange(value, min, max).value;
      min <= y < max && Multiple(y - value, max - min)
    ensures max < min ==> var y := AdjustToRange(value, min, max).value;
      max < y <= min && Multiple(y - value, max - min)
  {
    if min < max {
      var n := AdjustUpward(value, min, max);
      assert AdjustToRange(value, min, max).value - value == n * (max - min);
    } else if max < min {
      var n := AdjustDownward(value, min, max);
      assert AdjustToRange(value, min, max).value - value == n * (max - min);
    }
  }

  /** A nonzero count of a positive range is at least the range in
      magnitude. */
  lemma ScaleCount(k: int, r: int)
    requires r > 0
    ensures k >= 1 ==> k * r >= r
    ensures k <= -1 ==> k * r <= -r
  {
  }

  /** For min < max, adjustToRange is the one value of [min, max) a whole
      number of ranges away from its input. */
  lemma AdjustToRangeUnique(value: int, min: int, max: int, y: int)
    requires min < max && min <= y < max && Multiple(y - value, max - min)
    ensures AdjustToRange(value, min, max) == Some(y)
  {
    var m := AdjustUpward(value, min, max);
    var n: int :| y - value == n * (max - min);
    var z := AdjustToRange(value, min, max).value;
    assert z - y == (m - n) * (max - min);
    ScaleCount(m - n, max - min);
  }

  /** adjustLongitude: a longitude moved into [-180, 180) by whole turns. */
  function AdjustLongitude(longitude: int): (r: int)
    ensures -HALF_TURN <= r < HALF_TURN && Multiple(r - longitude, FULL_TURN)
  {
    AdjustToRangeMeaning(longitude, -HALF_TURN, HALF_TURN);
    AdjustToRange(longitude, -HALF_TURN, HALF_TURN).value
  }

  /** adjustLongitude fixes [-180, 180) and ignores whole turns. */
  lemma AdjustLongitudeTurns(longitude: int, n: int)
    ensures -HALF_TURN <= longitude < HALF_TURN ==> AdjustLongitude(longitude) == longitude
    ensures AdjustLongitude(longitude + n * FULL_TURN) == AdjustLongitude(longitude)
  {
    if -HALF_TURN <= longitude < HALF_TURN {
      assert longitude - longitude == 0 * FULL_TURN;
      AdjustToRangeUnique(longitude, -HALF_TURN, HALF_TURN, longitude);
    }
    var y := AdjustLongitude(longitude);
    var m: int :| y - longitude == m * FULL_TURN;
    assert y - (longitude + n * FULL_TURN) == (m - n) * FULL_TURN;
    AdjustToRangeUnique(longitude + n * FULL_TURN, -HALF_TURN, HALF_TURN, y);
  }

  /** The meridian a piece starting at the normalized longitude x runs to:
      0 from the western hemisphere, 180 from the eastern one. */
  function NextMeridian(x: int): (m: int)
    requires -HALF_TURN <= x < HALF_TURN
    ensures m > x && (m == 0 || m == HALF_TURN)
  {
    if x < 0 then 0 else HALF_TURN
  }

  /** The loop's advance from curPos: to the next meridian. */
  function Advance(curPos: int): (p: int)
    ensures p > curPos
  {
    var normalized := AdjustLongitude(curPos);
    curPos + NextMeridian(normalized) - normalized
  }

  /** Every advance ends on the prime meridian or the antimeridian, and
      from there the next advance is half a turn. */
  lemma AdvanceOnMeridian(curPos: int)
    ensures AdjustLongitude(Advance(curPos)) == 0 || AdjustLongitude(Advance(curPos)) == -HALF_TURN
    ensures AdjustLongitude(curPos) == 0 || AdjustLongitude(curPos) == -HALF_TURN ==>
      Advance(curPos) == curPos + HALF_TURN
  {
    var normalized := AdjustLongitude(curPos);
    var m: int :| normalized - curPos == m * FULL_TURN;
    var p := Advance(curPos);
    if normalized < 0 {
      assert 0 - p == m * FULL_TURN;
      AdjustToRangeUnique(p, -HALF_TURN, HALF_TURN, 0);
    } else {
      assert -HALF_TURN - p == (m - 1) * FULL_TURN;
      AdjustToRangeUnique(p, -HALF_TURN, HALF_TURN, -HALF_TURN);
    }
  }

  /** The pieces the loop emits from curPos on: [normalized, next] while
      the next meridian is not past maxLon, and [normalized, adjustedMax]
      for the piece that overshoots it. */
  function PiecesFrom(curPos: int, maxLon: int, adjustedMax: int): seq<(int, int)>
    decreases maxLon - curPos
  {
    if curPos >= maxLon then []
    else
      var normalized := AdjustLongitude(curPos);
      var next := NextMeridian(normalized);
      var p := Advance(curPos);
      if p > maxLon then [(normalized, adjustedMax)] + PiecesFrom(p, maxLon, adjustedMax)
      else [(normalized, next)] + PiecesFrom(p, maxLon, adjustedMax)
  }

  /** splitLongitudeRange(minLon, maxLon) as a function of its arguments. */
  function SplitLongitude(minLon: int, maxLon: int): seq<(int, int)>
  {
    PiecesFrom(minLon, maxLon, AdjustLongitude(maxLon))
  }

  /** splitLongitudeRange: the loop over curPos, pushing one piece per
      iteration. */
  method SplitLongitudeRange(minLon: int, maxLon: int) returns (result: seq<(int, int)>)
    ensures result == SplitLongitude(minLon, maxLon)
  {
    result := [];
    var curPos := minLon;
    var adjustedMax := AdjustLongitude(maxLon);
    while curPos < maxLon
      invariant result + PiecesFrom(curPos, maxLon, adjustedMax) == SplitLongitude(minLon, maxLon)
      decreases maxLon - curPos
    {
      var normalized := AdjustLongitude(curPos);
      var next := if normalized < 0 then 0 else HALF_TURN;
      curPos := curPos + next - normalized;
      if curPos > maxLon {
        result := result + [(normalized, adjustedMax)];
      } else {
        result := result + [(normalized, next)];
      }
    }
  }

  /** A piece of the split: a nonempty longitude interval starting in
      [-180, 180) and ending at most at 180. */
  predicate GoodPiece(piece: (int, int))
  {
    -HALF_TURN <= piece.0 < HALF_TURN && piece.0 < piece.1 <= HALF_TURN
  }

  /** The sum of the widths of the pieces. */
  function TotalWidth(pieces: seq<(int, int)>): int
  {
    if pieces == [] then 0 else (pieces[0].1 - pieces[0].0) + TotalWidth(pieces[1..])
  }

  /** The pieces from curPos on: none exactly when curPos >= maxLon; each a
      good piece; all but the last ending at the prime meridian or at 180;
      and their widths adding up to the distance from curPos to maxLon. */
  lemma {:induction false} PiecesFromMeaning(curPos: int, maxLon: int)
    ensures var ps := PiecesFrom(curPos, maxLon, AdjustLongitude(maxLon));
      (ps == [] <==> curPos >= maxLon)
      && (forall i | 0 <= i < |ps| :: GoodPiece(ps[i]))
      && (forall i | 0 <= i < |ps| - 1 :: ps[i].1 == 0 || ps[i].1 == HALF_TURN)
      && (curPos < maxLon ==> TotalWidth(ps) == maxLon - curPos)
    decreases maxLon - curPos
  {
    var adjustedMax := AdjustLongitude(maxLon);
    var ps := PiecesFrom(curPos, maxLon, adjustedMax);
    if curPos < maxLon {
      var normalized := AdjustLongitude(curPos);
      var p := Advance(curPos);
      PiecesFromMeaning(p, maxLon);
      var rest := PiecesFrom(p, maxLon, adjustedMax);
      assert ps == [ps[0]] + rest;
      if p > maxLon {
        // maxLon lies strictly inside the current piece, so it normalizes
        // to the piece's start plus the distance to it.
        var m: int :| normalized - curPos == m * FULL_TURN;
        assert normalized + (maxLon - curPos) - maxLon == m * FULL_TURN;
        AdjustToRangeUnique(maxLon, -HALF_TURN, HALF_TURN, normalized + (maxLon - curPos));
      }
      assert ps[1..] == rest;
    }
  }

  /** splitLongitudeRange is empty exactly when minLon >= maxLon; its
      pieces are good pieces ending at 0 or 180 except for the last, and
      they cover a total width of maxLon - minLon. */
  lemma SplitLongitudeMeaning(minLon: int, maxLon: int)
    ensures var ps := SplitLongitude(minLon, maxLon);
      (ps == [] <==> minLon >= maxLon)
      && (forall i | 0 <= i < |ps| :: GoodPiece(ps[i]))
      && (forall i | 0 <= i < |ps| - 1 :: ps[i].1 == 0 || ps[i].1 == HALF_TURN)
      && (minLon < maxLon ==> TotalWidth(ps) == maxLon - minLon)
  {
    PiecesFromMeaning(minLon, maxLon);
  }
}
