/** Day 9: the largest rectangle spanned by two red tiles, unconstrained and avoiding the
    edges of the loop the tiles form. */
module Day09 {
  import opened Wrappers
  import Text

  datatype Coordinate = Coordinate(x: int, y: int)

  datatype CoordinateError = NotANumber | MissingCoordinate

  // ---------------------------------------------------------------------------
  // Parsing

  function ParseValue(s: string): Option<int> {
    Text.ParseInt(s, Text.I64_MIN, Text.I64_MAX)
  }

  /** `to_coordinates`: the first two comma-separated fields of the line as x and y. */
  function ParseCoordinates(line: string): Result<Coordinate, CoordinateError> {
    ParseFields(Text.Split(line, ','))
  }

  /** x is read first, so a bad first field panics before a missing second one; fields after
      the second are parsed but never unwrapped. */
  function ParseFields(c: seq<string>): (r: Result<Coordinate, CoordinateError>)
    requires |c| >= 1
    ensures r.Ok? <==> |c| >= 2 && ParseValue(c[0]).Some? && ParseValue(c[1]).Some?
    ensures r.Ok? ==> Some(r.value.x) == ParseValue(c[0]) && Some(r.value.y) == ParseValue(c[1])
    ensures r == Err(MissingCoordinate) <==> |c| < 2 && ParseValue(c[0]).Some?
  {
    match ParseValue(c[0])
    case None => Err(NotANumber)
    case Some(x) =>
      if |c| < 2 then Err(MissingCoordinate)
      else
        match ParseValue(c[1])
        case None => Err(NotANumber)
        case Some(y) => Ok(Coordinate(x, y))
  }

  /** `to_coordinates` reads back the line `"x,y"` written for an `i64` coordinate. */
  lemma ParseCoordinatesLine(p: Coordinate)
    requires Text.I64_MIN <= p.x <= Text.I64_MAX && Text.I64_MIN <= p.y <= Text.I64_MAX
    ensures ParseCoordinates(Text.Join([Text.Render(p.x), Text.Render(p.y)], ',')) == Ok(p)
  {
    var fields := [Text.Render(p.x), Text.Render(p.y)];
    Text.RenderWithout(p.x, ',');
    Text.RenderWithout(p.y, ',');
    Text.SplitJoin(fields, ',');
    Text.ParseRendered(p.x, Text.I64_MIN, Text.I64_MAX);
    Text.ParseRendered(p.y, Text.I64_MIN, Text.I64_MAX);
    assert ParseValue(fields[0]) == Some(p.x) && ParseValue(fields[1]) == Some(p.y);
  }

  /** `code.lines().map(to_coordinates).collect()`: the first line that fails decides. */
  function ParseAll(lines: seq<string>): (r: Result<seq<Coordinate>, CoordinateError>)
    ensures r.Ok? ==> |r.value| == |lines|
  {
    if lines == [] then Ok([])
    else
      match ParseAll(lines[..|lines| - 1])
      case Err(e) => Err(e)
      case Ok(coords) =>
        match ParseCoordinates(lines[|lines| - 1])
        case Err(e) => Err(e)
        case Ok(p) => Ok(coords + [p])
  }

  // ---------------------------------------------------------------------------
  // Rectangles

  /** The corners with the smallest and the largest coordinates. */
  datatype Rectangle = Rectangle(min: Coordinate, max: Coordinate)

  function Min(a: int, b: int): int {
    if a <= b then a else b
  }

  function Max(a: int, b: int): int {
    if a <= b then b else a
  }

  /** `Rectangle::new`: the smallest rectangle holding both corners. */
  function NewRectangle(a: Coordinate, b: Coordinate): (r: Rectangle)
    ensures r.min.x <= a.x <= r.max.x && r.min.x <= b.x <= r.max.x
    ensures r.min.y <= a.y <= r.max.y && r.min.y <= b.y <= r.max.y
    ensures (r.min.x == a.x || r.min.x == b.x) && (r.max.x == a.x || r.max.x == b.x)
    ensures (r.min.y == a.y || r.min.y == b.y) && (r.max.y == a.y || r.max.y == b.y)
  {
    Rectangle(Coordinate(Min(a.x, b.x), Min(a.y, b.y)), Coordinate(Max(a.x, b.x), Max(a.y, b.y)))
  }

  /** The corners may be given in either order. */
  lemma NewSymmetric(a: Coordinate, b: Coordinate)
    ensures NewRectangle(a, b) == NewRectangle(b, a)
  {
  }

  function Abs(v: int): nat {
    if v < 0 then -v else v
  }

  /** `area`: the number of tiles covered, corners included. */
  function Area(r: Rectangle): (area: int)
    ensures area >= 1
  {
    var dx := Abs(r.min.x - r.max.x) + 1;
    var dy := Abs(r.min.y - r.max.y) + 1;
    assert dx * dy >= dy;
    dx * dy
  }

  /** `s` lies within `r`. */
  predicate Within(s: Rectangle, r: Rectangle) {
    r.min.x <= s.min.x && s.max.x <= r.max.x && r.min.y <= s.min.y && s.max.y <= r.max.y
  }

  lemma ProductMonotone(a: int, b: int, c: int, d: int)
    requires 1 <= a <= c && 1 <= b <= d
    ensures a * b <= c * d
  {
    assert a * b <= c * b;
    assert c * b <= c * d;
  }

  /** A rectangle within another covers no more tiles. */
  lemma AreaWithin(s: Rectangle, r: Rectangle)
    requires s.min.x <= s.max.x && s.min.y <= s.max.y
    requires Within(s, r)
    ensures Area(s) <= Area(r)
  {
    ProductMonotone(s.max.x - s.min.x + 1, s.max.y - s.min.y + 1, r.max.x - r.min.x + 1, r.max.y - r.min.y + 1);
  }

  /** `intersects`: neither rectangle lies on or beyond a side of the other. */
  function Intersects(r: Rectangle, other: Rectangle): bool {
    !(other.max.x <= r.min.x || r.max.x <= other.min.x || other.max.y <= r.min.y || r.max.y <= other.min.y)
  }

  /** On one axis, the coordinates `lo1..hi1` and `lo2..hi2` share the point `p / 2` on the
      half-tile grid, and it lies strictly between the ends of at least one of them. */
  predicate MeetsAt(lo1: int, hi1: int, lo2: int, hi2: int, p: int) {
    2 * lo1 <= p <= 2 * hi1 && 2 * lo2 <= p <= 2 * hi2 && (2 * lo1 < p < 2 * hi1 || 2 * lo2 < p < 2 * hi2)
  }

  lemma AxisMeets(lo1: int, hi1: int, lo2: int, hi2: int)
    requires lo1 <= hi1 && lo2 <= hi2
    ensures (lo1 < hi2 && lo2 < hi1) <==> exists p :: MeetsAt(lo1, hi1, lo2, hi2, p)
  {
    if lo1 < hi2 && lo2 < hi1 {
      var lo, hi := Max(lo1, lo2), Min(hi1, hi2);
      var p := if lo < hi then 2 * lo + 1 else 2 * lo;
      assert MeetsAt(lo1, hi1, lo2, hi2, p);
    }
  }

  /** For rectangles built by `NewRectangle`, `intersects` holds exactly when on each axis the
      two ranges share a point that is inside at least one of them, not merely on a shared end.
      So an edge, which is flat on one axis, intersects a rectangle when it passes strictly
      between the rectangle's sides. */
  lemma IntersectsMeets(r: Rectangle, other: Rectangle)
    requires r.min.x <= r.max.x && r.min.y <= r.max.y
    requires other.min.x <= other.max.x && other.min.y <= other.max.y
    ensures Intersects(r, other) <==>
      (exists px :: MeetsAt(r.min.x, r.max.x, other.min.x, other.max.x, px))
      && (exists py :: MeetsAt(r.min.y, r.max.y, other.min.y, other.max.y, py))
  {
    AxisMeets(r.min.x, r.max.x, other.min.x, other.max.x);
    AxisMeets(r.min.y, r.max.y, other.min.y, other.max.y);
  }

  /** The point `(px / 2, py / 2)`, on the half-tile grid, lies strictly inside `r`. */
  predicate StrictlyInside(r: Rectangle, px: int, py: int) {
    2 * r.min.x < px < 2 * r.max.x && 2 * r.min.y < py < 2 * r.max.y
  }

  /** Two rectangles that are not flat intersect exactly when their interiors overlap. */
  lemma IntersectsInterior(r: Rectangle, other: Rectangle)
    requires r.min.x < r.max.x && r.min.y < r.max.y
    requires other.min.x < other.max.x && other.min.y < other.max.y
    ensures Intersects(r, other) <==> exists px, py :: StrictlyInside(r, px, py) && StrictlyInside(other, px, py)
  {
    if Intersects(r, other) {
      var px := 2 * Max(r.min.x, other.min.x) + 1;
      var py := 2 * Max(r.min.y, other.min.y) + 1;
      assert StrictlyInside(r, px, py) && StrictlyInside(other, px, py);
    }
  }

  lemma IntersectsSymmetric(r: Rectangle, other: Rectangle)
    ensures Intersects(r, other) == Intersects(other, r)
  {
  }

  /** Rectangles that only share a border, or lie apart, do not intersect. */
  lemma SeparatedNoIntersection(r: Rectangle, other: Rectangle)
    requires r.max.x <= other.min.x || r.max.y <= other.min.y
    ensures !Intersects(r, other) && !Intersects(other, r)
  {
  }

  // ---------------------------------------------------------------------------
  // The loop of edges

  /** Edge `i` spans from tile `i` to the next one, the last closing the loop. */
  function Edge(coords: seq<Coordinate>, i: nat): Rectangle
    requires i < |coords|
  {
    NewRectangle(coords[i], coords[(i + 1) % |coords|])
  }

  /** `edges`: the edges in order. */
  function Edges(coords: seq<Coordinate>): (edges: seq<Rectangle>)
    ensures |edges| == |coords| && forall i :: 0 <= i < |coords| ==> edges[i] == Edge(coords, i)
  {
    EdgesFrom(coords, 0)
  }

  function EdgesFrom(coords: seq<Coordinate>, i: nat): (edges: seq<Rectangle>)
    requires i <= |coords|
    ensures |edges| == |coords| - i && forall k :: 0 <= k < |edges| ==> edges[k] == Edge(coords, i + k)
    decreases |coords| - i
  {
    if i == |coords| then []
    else
      var rest := EdgesFrom(coords, i + 1);
      assert forall k :: 0 < k < |coords| - i ==> ([Edge(coords, i)] + rest)[k] == rest[k - 1];
      [Edge(coords, i)] + rest
  }

  /** The last edge joins the last tile to the first. */
  lemma EdgesClose(coords: seq<Coordinate>)
    requires coords != []
    ensures Edges(coords)[|coords| - 1] == NewRectangle(coords[|coords| - 1], coords[0])
  {
    assert Edges(coords)[|coords| - 1] == Edge(coords, |coords| - 1);
    assert (|coords| - 1 + 1) % |coords| == 0;
  }

  /** `edges.iter().any(|x| rect.intersects(x))`. */
  function HitsAny(rect: Rectangle, edges: seq<Rectangle>): (hit: bool)
    ensures hit <==> exists k :: 0 <= k < |edges| && Intersects(rect, edges[k])
  {
    if edges == [] then false
    else
      var rest := edges[1..];
      assert forall k :: 1 <= k < |edges| ==> edges[k] == rest[k - 1];
      Intersects(rect, edges[0]) || HitsAny(rect, rest)
  }

  // ---------------------------------------------------------------------------
  // The largest rectangles

  /** A pair counts for part 2 (`constrained`) only if its rectangle hits no edge. */
  predicate Admissible(rect: Rectangle, edges: seq<Rectangle>, constrained: bool) {
    !constrained || !HitsAny(rect, edges)
  }

  function PairArea(coords: seq<Coordinate>, a: nat, b: nat): int
    requires a < |coords| && b < |coords|
  {
    Area(NewRectangle(coords[a], coords[b]))
  }

  /** The largest admissible area of the pairs `(a, b)` with `a < b < j`, or 0. */
  function RowBest(coords: seq<Coordinate>, edges: seq<Rectangle>, constrained: bool, a: nat, j: nat): (best: int)
    requires a < j <= |coords|
    ensures best >= 0
    decreases j
  {
    if j == a + 1 then 0
    else
      var rect := NewRectangle(coords[a], coords[j - 1]);
      Max(RowBest(coords, edges, constrained, a, j - 1), if Admissible(rect, edges, constrained) then Area(rect) else 0)
  }

  /** The largest admissible area of the pairs `(a, b)` with `a < i` and `a < b`, or 0. */
  function Best(coords: seq<Coordinate>, edges: seq<Rectangle>, constrained: bool, i: nat): (best: int)
    requires i <= |coords|
    ensures best >= 0
  {
    if i == 0 then 0 else Max(Best(coords, edges, constrained, i - 1), RowBest(coords, edges, constrained, i - 1, |coords|))
  }

  predicate PairAdmissible(coords: seq<Coordinate>, edges: seq<Rectangle>, constrained: bool, a: nat, b: nat)
    requires a < |coords| && b < |coords|
  {
    Admissible(NewRectangle(coords[a], coords[b]), edges, constrained)
  }

  lemma {:induction false} RowBestBound(coords: seq<Coordinate>, edges: seq<Rectangle>, constrained: bool, a: nat, j: nat, b: nat)
    requires a < b < j <= |coords| && PairAdmissible(coords, edges, constrained, a, b)
    ensures PairArea(coords, a, b) <= RowBest(coords, edges, constrained, a, j)
    decreases j
  {
    if b < j - 1 {
      RowBestBound(coords, edges, constrained, a, j - 1, b);
    }
  }

  lemma {:induction false} RowBestAttained(coords: seq<Coordinate>, edges: seq<Rectangle>, constrained: bool, a: nat, j: nat)
    requires a < j <= |coords|
    ensures var best := RowBest(coords, edges, constrained, a, j);
      best == 0 || exists b :: a < b < j && PairAdmissible(coords, edges, constrained, a, b) && PairArea(coords, a, b) == best
    decreases j
  {
    if j > a + 1 {
      RowBestAttained(coords, edges, constrained, a, j - 1);
      var best := RowBest(coords, edges, constrained, a, j);
      if best != RowBest(coords, edges, constrained, a, j - 1) {
        assert PairAdmissible(coords, edges, constrained, a, j - 1) && PairArea(coords, a, j - 1) == best;
      }
    }
  }

  /** Every admissible pair is covered by `Best`. */
  lemma {:induction false} BestBound(coords: seq<Coordinate>, edges: seq<Rectangle>, constrained: bool, i: nat, a: nat, b: nat)
    requires i <= |coords| && a < i && a < b < |coords| && PairAdmissible(coords, edges, constrained, a, b)
    ensures PairArea(coords, a, b) <= Best(coords, edges, constrained, i)
  {
    if a < i - 1 {
      BestBound(coords, edges, constrained, i - 1, a, b);
    } else {
      RowBestBound(coords, edges, constrained, a, |coords|, b);
    }
  }

  /** `Best` is 0 or the area of some admissible pair. */
  lemma {:induction false} BestAttained(coords: seq<Coordinate>, edges: seq<Rectangle>, constrained: bool, i: nat)
    requires i <= |coords|
    ensures var best := Best(coords, edges, constrained, i);
      best == 0
      || exists a, b :: 0 <= a < i && a < b < |coords| && PairAdmissible(coords, edges, constrained, a, b) && PairArea(coords, a, b) == best
  {
    if i > 0 {
      BestAttained(coords, edges, constrained, i - 1);
      var best := Best(coords, edges, constrained, i);
      if best != Best(coords, edges, constrained, i - 1) {
        RowBestAttained(coords, edges, constrained, i - 1, |coords|);
      }
    }
  }

  /** `area_max`: the largest area over all pairs, 0 exactly when there is no pair. */
  lemma AreaMaxExact(coords: seq<Coordinate>, edges: seq<Rectangle>)
    ensures var best := Best(coords, edges, false, |coords|);
      (best == 0 <==> |coords| < 2)
      && (forall a, b :: 0 <= a < b < |coords| ==> PairArea(coords, a, b) <= best)
      && (|coords| >= 2 ==> exists a, b :: 0 <= a < b < |coords| && PairArea(coords, a, b) == best)
  {
    var best := Best(coords, edges, false, |coords|);
    forall a, b | 0 <= a < b < |coords|
      ensures PairArea(coords, a, b) <= best
    {
      BestBound(coords, edges, false, |coords|, a, b);
    }
    BestAttained(coords, edges, false, |coords|);
    if |coords| >= 2 {
      assert PairArea(coords, 0, 1) <= best;
    }
  }

  /** `area_max_part2`: the largest area over the pairs whose rectangle hits no edge. */
  lemma AreaMaxPart2Exact(coords: seq<Coordinate>, edges: seq<Rectangle>)
    ensures var best := Best(coords, edges, true, |coords|);
      (forall a, b :: 0 <= a < b < |coords| && !HitsAny(NewRectangle(coords[a], coords[b]), edges) ==> PairArea(coords, a, b) <= best)
      && (best == 0 || exists a, b :: 0 <= a < b < |coords| && !HitsAny(NewRectangle(coords[a], coords[b]), edges) && PairArea(coords, a, b) == best)
  {
    var best := Best(coords, edges, true, |coords|);
    forall a, b | 0 <= a < b < |coords| && !HitsAny(NewRectangle(coords[a], coords[b]), edges)
      ensures PairArea(coords, a, b) <= best
    {
      BestBound(coords, edges, true, |coords|, a, b);
    }
    BestAttained(coords, edges, true, |coords|);
  }

  /** Avoiding the edges never gives a larger rectangle. */
  lemma {:induction false} ConstrainedBelow(coords: seq<Coordinate>, edges: seq<Rectangle>, i: nat)
    requires i <= |coords|
    ensures Best(coords, edges, true, i) <= Best(coords, edges, false, i)
  {
    if i > 0 {
      ConstrainedBelow(coords, edges, i - 1);
      RowConstrainedBelow(coords, edges, i - 1, |coords|);
    }
  }

  lemma {:induction false} RowConstrainedBelow(coords: seq<Coordinate>, edges: seq<Rectangle>, a: nat, j: nat)
    requires a < j <= |coords|
    ensures RowBest(coords, edges, true, a, j) <= RowBest(coords, edges, false, a, j)
    decreases j
  {
    if j > a + 1 {
      RowConstrainedBelow(coords, edges, a, j - 1);
    }
  }

  // ---------------------------------------------------------------------------
  // The loops in `main`

  /** The whole program on the text of the input: both maximal areas. */
  function Evaluate(input: string): Result<(int, int), CoordinateError> {
    match ParseAll(Text.Lines(input))
    case Err(e) => Err(e)
    case Ok(coords) =>
      var edges := Edges(coords);
      Ok((Best(coords, edges, false, |coords|), Best(coords, edges, true, |coords|)))
  }

  method Main09(input: string) returns (result: Result<(int, int), CoordinateError>)
    ensures result == Evaluate(input)
  {
    var parsed := ParseAll(Text.Lines(input));
    if parsed.Err? {
      return Err(parsed.error);
    }
    var coords := parsed.value;
    var edges := Edges(coords);
    var areaMax, areaMaxPart2 := MaxAreas(coords, edges);
    return Ok((areaMax, areaMaxPart2));
  }

  /** The two nested loops over the pairs of tiles. */
  method MaxAreas(coords: seq<Coordinate>, edges: seq<Rectangle>) returns (areaMax: int, areaMaxPart2: int)
    ensures areaMax == Best(coords, edges, false, |coords|)
    ensures areaMaxPart2 == Best(coords, edges, true, |coords|)
  {
    areaMax, areaMaxPart2 := 0, 0;
    for index := 0 to |coords|
      invariant areaMax == Best(coords, edges, false, index)
      invariant areaMaxPart2 == Best(coords, edges, true, index)
    {
      areaMax, areaMaxPart2 := RowAreas(coords, edges, index, areaMax, areaMaxPart2);
    }
  }

  /** The inner loop, for the pairs starting at tile `index`. The edges are only checked for
      a rectangle large enough to matter. */
  method RowAreas(coords: seq<Coordinate>, edges: seq<Rectangle>, index: nat, max0: int, max1: int)
    returns (areaMax: int, areaMaxPart2: int)
    requires index < |coords| && max0 >= 0 && max1 >= 0
    ensures areaMax == Max(max0, RowBest(coords, edges, false, index, |coords|))
    ensures areaMaxPart2 == Max(max1, RowBest(coords, edges, true, index, |coords|))
  {
    areaMax, areaMaxPart2 := max0, max1;
    for j := index + 1 to |coords|
      invariant areaMax == Max(max0, RowBest(coords, edges, false, index, j))
      invariant areaMaxPart2 == Max(max1, RowBest(coords, edges, true, index, j))
    {
      var rect := NewRectangle(coords[index], coords[j]);
      var currentArea := Area(rect);
      if currentArea > areaMax {
        areaMax := currentArea;
      }
      if currentArea > areaMaxPart2 {
        var intersects := HitsAny(rect, edges);
        if !intersects {
          areaMaxPart2 := currentArea;
        }
      }
    }
  }
}
