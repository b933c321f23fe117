/** Polygon ring orientation in exact arithmetic: the plain and the translated shoelace sums and in-place reversal. */
module RingOrientation {
  import opened Points
  import opened Wrappers

  datatype RingError = InvalidRing

  /** The two importers: one sums translated coordinates and insists on nonempty arrays. */
  datatype Importer = MarineAggregates | Notices

  /*************** Areas ***************/

  function Cross(a: Point, b: Point): real {
    a.x * b.y - b.x * a.y
  }

  function Shift(p: Point, o: Point): Point {
    Point(p.x - o.x, p.y - o.y)
  }

  /** Twice the signed area: negative for a clockwise ring. */
  function Area(ps: seq<Point>): real {
    if |ps| < 2 then 0.0 else Area(ps[..|ps| - 1]) + Cross(ps[|ps| - 2], ps[|ps| - 1])
  }

  function TranslatedArea(ps: seq<Point>, o: Point): real {
    if |ps| < 2 then 0.0 else TranslatedArea(ps[..|ps| - 1], o) + Cross(Shift(ps[|ps| - 2], o), Shift(ps[|ps| - 1], o))
  }

  predicate Closed(ps: seq<Point>) {
    |ps| >= 4 && ps[0] == ps[|ps| - 1]
  }

  lemma CrossOfShifted(a: Point, b: Point, o: Point)
    ensures Cross(Shift(a, o), Shift(b, o)) == Cross(a, b) - o.x * (b.y - a.y) + o.y * (b.x - a.x)
  {
  }

  lemma DifferencesAdd(k: real, a: real, b: real, c: real)
    ensures k * (b - a) + k * (c - b) == k * (c - a)
  {
  }

  lemma {:induction false} TranslationTelescopes(ps: seq<Point>, o: Point)
    requires ps != []
    ensures TranslatedArea(ps, o) == Area(ps) - o.x * (ps[|ps| - 1].y - ps[0].y) + o.y * (ps[|ps| - 1].x - ps[0].x)
    decreases |ps|
  {
    if |ps| >= 2 {
      var init := ps[..|ps| - 1];
      var a, b := ps[|ps| - 2], ps[|ps| - 1];
      TranslationTelescopes(init, o);
      CrossOfShifted(a, b, o);
      DifferencesAdd(o.x, ps[0].y, a.y, b.y);
      DifferencesAdd(o.y, ps[0].x, a.x, b.x);
    }
  }

  /** The area of a triangle is positive exactly when its corners run counterclockwise. */
  lemma TriangleArea(a: Point, b: Point, c: Point)
    ensures Area([a, b, c, a]) == (b.x - a.x) * (c.y - a.y) - (c.x - a.x) * (b.y - a.y)
  {
    var ring := [a, b, c, a];
    assert ring[..3] == [a, b, c] && [a, b, c][..2] == [a, b] && [a, b][..1] == [a];
    assert Area([a, b]) == Cross(a, b);
    assert Area([a, b, c]) == Cross(a, b) + Cross(b, c);
    assert Area(ring) == Cross(a, b) + Cross(b, c) + Cross(c, a);
  }

  /** On a closed ring (section 3.1.6 of RFC 7946) both sums give the same area, from whatever origin. */
  lemma TranslationKeepsArea(ps: seq<Point>, o: Point)
    requires Closed(ps)
    ensures TranslatedArea(ps, o) == Area(ps)
  {
    TranslationTelescopes(ps, o);
  }

  lemma {:induction false} AreaFromFront(p: Point, ps: seq<Point>)
    requires ps != []
    ensures Area([p] + ps) == Cross(p, ps[0]) + Area(ps)
    decreases |ps|
  {
    var all := [p] + ps;
    assert all[..|all| - 1] == [p] + ps[..|ps| - 1];
    if |ps| > 1 {
      AreaFromFront(p, ps[..|ps| - 1]);
      assert all[|all| - 2] == ps[|ps| - 2];
    } else {
      assert Area([p] + ps[..0]) == 0.0;
    }
  }

  /** Reversing a ring negates its area. */
  lemma {:induction false} ReversalNegatesArea(ps: seq<Point>)
    ensures Area(Reverse(ps)) == -Area(ps)
    decreases |ps|
  {
    if |ps| >= 2 {
      var init := ps[..|ps| - 1];
      ReversalNegatesArea(init);
      ReverseLast(ps);
      assert Reverse(init)[0] == ps[|ps| - 2];
      AreaFromFront(ps[|ps| - 1], Reverse(init));
    }
  }

  lemma {:induction false} ReversalPermutes(ps: seq<Point>)
    ensures multiset(Reverse(ps)) == multiset(ps)
    decreases |ps|
  {
    if ps != [] {
      ReversalPermutes(ps[..|ps| - 1]);
      ReverseLast(ps);
      assert ps == ps[..|ps| - 1] + [ps[|ps| - 1]];
    }
  }

  /*************** Reading and orienting rings ***************/

  function ToPoint(position: seq<real>): Result<Point, RingError> {
    if |position| == 2 && -180.0 <= position[0] <= 180.0 && -90.0 <= position[1] <= 90.0
    then Success(Point(position[0], position[1])) else Failure(InvalidRing)
  }

  /** A position is a longitude followed by a latitude, within bounds, and nothing else. */
  lemma PositionIsLongitudeLatitude(x: real, y: real, position: seq<real>)
    ensures ToPoint([x, y]) ==
            if x < -180.0 || 180.0 < x || y < -90.0 || 90.0 < y then Failure(InvalidRing) else Success(Point(x, y))
    ensures |position| != 2 ==> ToPoint(position) == Failure(InvalidRing)
  {
  }

  /** Ring by ring and position by position, reading succeeds exactly when every position can be read. */
  lemma {:induction false} PointsAreReadInOrder(ring: seq<seq<real>>)
    ensures ToPoints(ring).Success? <==> forall k | 0 <= k < |ring| :: ToPoint(ring[k]).Success?
    ensures ToPoints(ring).Success? ==>
      && |ToPoints(ring).value| == |ring|
      && forall k | 0 <= k < |ring| :: ToPoint(ring[k]) == Success(ToPoints(ring).value[k])
    decreases |ring|
  {
    if ring != [] {
      PointsAreReadInOrder(ring[..|ring| - 1]);
      assert ring == ring[..|ring| - 1] + [ring[|ring| - 1]];
    }
  }

  function ToPoints(ring: seq<seq<real>>): Result<seq<Point>, RingError> {
    if ring == [] then Success([]) else
      match (ToPoints(ring[..|ring| - 1]), ToPoint(ring[|ring| - 1]))
      case (Success(ps), Success(p)) => Success(ps + [p])
      case _ => Failure(InvalidRing)
  }

  predicate MustReverse(index: nat, area: real) {
    (index == 0 && area > 0.0) || (index > 0 && area < 0.0)
  }

  /** What becomes of the ring at `index` of a polygon. */
  function Orient(index: nat, ps: seq<Point>): seq<Point> {
    if MustReverse(index, Area(ps)) then Reverse(ps) else ps
  }

  function ReadRing(ring: seq<seq<real>>, index: nat): Result<seq<Point>, RingError> {
    match ToPoints(ring)
    case Failure(e) => Failure(e)
    case Success(ps) => if Closed(ps) && Area(ps) != 0.0 then Success(Orient(index, ps)) else Failure(InvalidRing)
  }

  function ReadRings(polygon: seq<seq<seq<real>>>): Result<seq<seq<Point>>, RingError> {
    if polygon == [] then Success([]) else
      match (ReadRings(polygon[..|polygon| - 1]), ReadRing(polygon[|polygon| - 1], |polygon| - 1))
      case (Success(rings), Success(ring)) => Success(rings + [ring])
      case _ => Failure(InvalidRing)
  }

  /** Everything outside a middle stretch is mirrored already, and the stretch is as it was. */
  ghost predicate Mirrored(now: seq<Point>, before: seq<Point>, low: nat, high: nat) {
    && |now| == |before| && low <= high && low + high == |now|
    && (forall i | 0 <= i < low || high <= i < |now| :: now[i] == before[|before| - 1 - i])
    && (forall i | low <= i < high :: now[i] == before[i])
  }

  lemma SwapMirrors(now: seq<Point>, before: seq<Point>, low: nat, high: nat)
    requires Mirrored(now, before, low, high) && high - low > 1
    ensures Mirrored(now[low := now[high - 1]][high - 1 := now[low]], before, low + 1, high - 1)
  {
  }

  lemma MirroredIsReverse(now: seq<Point>, before: seq<Point>, low: nat, high: nat)
    requires Mirrored(now, before, low, high) && high - low <= 1
    ensures now == Reverse(before)
  {
    forall i | 0 <= i < |now|
      ensures now[i] == before[|before| - 1 - i]
    {
      if low <= i < high {
        assert i == low && |before| - 1 - i == i;
      }
    }
  }

  method ReverseInPlace(a: array<Point>)
    modifies a
    ensures a[..] == Reverse(old(a[..]))
  {
    ghost var before := a[..];
    var low, high := 0, a.Length;
    while high - low > 1
      invariant 0 <= low <= high <= a.Length && Mirrored(a[..], before, low, high)
    {
      ghost var now := a[..];
      SwapMirrors(now, before, low, high);
      a[low], a[high - 1] := a[high - 1], a[low];
      assert a[..] == now[low := now[high - 1]][high - 1 := now[low]];
      low, high := low + 1, high - 1;
    }
    MirroredIsReverse(a[..], before, low, high);
  }

  method SumArea(importer: Importer, a: array<Point>) returns (area: real)
    requires Closed(a[..])
    ensures area == Area(a[..])
  {
    area := 0.0;
    for i := 0 to a.Length - 1
      invariant area == if importer.MarineAggregates? then TranslatedArea(a[..i + 1], a[0]) else Area(a[..i + 1])
    {
      assert a[..i + 2][..i + 1] == a[..i + 1];
      if importer.MarineAggregates? {
        area := area + ((a[i].x - a[0].x) * (a[i + 1].y - a[0].y) - (a[i + 1].x - a[0].x) * (a[i].y - a[0].y));
      } else {
        area := area + (a[i].x * a[i + 1].y - a[i + 1].x * a[i].y);
      }
    }
    assert a[..a.Length] == a[..];
    TranslationKeepsArea(a[..], a[0]);
  }

  lemma {:induction false} PrefixFails(ring: seq<seq<real>>, n: nat)
    requires n < |ring| && ToPoint(ring[n]).Failure?
    ensures ToPoints(ring) == Failure(InvalidRing)
    decreases |ring|
  {
    if n < |ring| - 1 {
      PrefixFails(ring[..|ring| - 1], n);
    }
  }

  method ReadPositions(ring: seq<seq<real>>) returns (r: Result<array<Point>, RingError>)
    ensures r.Failure? ==> ToPoints(ring) == Failure(r.error)
    ensures r.Success? ==> fresh(r.value) && ToPoints(ring) == Success(r.value[..])
  {
    var positions := new Point[|ring|](_ => Point(0.0, 0.0));
    for n := 0 to |ring|
      invariant ToPoints(ring[..n]) == Success(positions[..n])
    {
      assert ring[..n + 1][..n] == ring[..n];
      var p := ToPoint(ring[n]);
      if p.Failure? {
        PrefixFails(ring, n);
        return Failure(InvalidRing);
      }
      positions[n] := p.value;
      assert positions[..n + 1] == positions[..n] + [p.value];
    }
    assert ring[..|ring|] == ring && positions[..|ring|] == positions[..];
    return Success(positions);
  }

  method AddRing(importer: Importer, ring: seq<seq<real>>, index: nat) returns (r: Result<seq<Point>, RingError>)
    ensures r == ReadRing(ring, index)
  {
    var read := ReadPositions(ring);
    if read.Failure? {
      return Failure(read.error);
    }
    var positions := read.value;
    if positions.Length < 4 || positions[0] != positions[positions.Length - 1] {
      return Failure(InvalidRing);
    }
    var area := SumArea(importer, positions);
    if area == 0.0 {
      return Failure(InvalidRing);
    }
    if (index == 0 && area > 0.0) || (index > 0 && area < 0.0) {
      ReverseInPlace(positions);
    }
    return Success(positions[..]);
  }

  lemma {:induction false} RingFails(polygon: seq<seq<seq<real>>>, n: nat)
    requires n < |polygon| && ReadRing(polygon[n], n).Failure?
    ensures ReadRings(polygon) == Failure(InvalidRing)
    decreases |polygon|
  {
    if n < |polygon| - 1 {
      RingFails(polygon[..|polygon| - 1], n);
    }
  }

  /** Appends the polygon's rings; the two importers differ on an empty polygon only. */
  method AddPolygon(importer: Importer, polygon: seq<seq<seq<real>>>, rings: seq<seq<Point>>)
      returns (r: Result<seq<seq<Point>>, RingError>)
    ensures r == if importer.MarineAggregates? && polygon == [] then Failure(InvalidRing)
                 else match ReadRings(polygon) case Failure(e) => Failure(e) case Success(added) => Success(rings +
                   added)
  {
    if importer.MarineAggregates? && polygon == [] {
      return Failure(InvalidRing);
    }
    var added: seq<seq<Point>> := [];
    for index := 0 to |polygon|
      invariant ReadRings(polygon[..index]) == Success(added)
    {
      assert polygon[..index + 1][..index] == polygon[..index];
      var ring := AddRing(importer, polygon[index], index);
      if ring.Failure? {
        RingFails(polygon, index);
        return Failure(InvalidRing);
      }
      added := added + [ring.value];
    }
    assert polygon[..|polygon|] == polygon;
    return Success(rings + added);
  }

  /*************** What the rings are like ***************/

  /** Shells clockwise, holes counterclockwise. */
  predicate Oriented(index: nat, ps: seq<Point>) {
    if index == 0 then Area(ps) < 0.0 else Area(ps) > 0.0
  }

  lemma OrientIsRight(index: nat, ps: seq<Point>)
    requires Closed(ps) && Area(ps) != 0.0
    ensures var r := Orient(index, ps);
      && Oriented(index, r) && Closed(r) && multiset(r) == multiset(ps)
      && (r == ps <==> Oriented(index, ps))
      && Orient(index, r) == r
  {
    ReversalNegatesArea(ps);
    ReversalPermutes(ps);
  }

  /**
   * After AddPolygon the first ring is clockwise and all later ones counterclockwise, still closed and with the same
   * points.
   */
  lemma {:induction false} PolygonIsOriented(polygon: seq<seq<seq<real>>>, k: nat)
    requires k < |polygon| && ReadRings(polygon).Success?
    ensures |ReadRings(polygon).value| == |polygon| && ToPoints(polygon[k]).Success?
    ensures var ring := ReadRings(polygon).value[k];
      Oriented(k, ring) && Closed(ring) && multiset(ring) == multiset(ToPoints(polygon[k]).value)
    decreases |polygon|
  {
    var init, last := polygon[..|polygon| - 1], |polygon| - 1;
    RingsMatch(init);
    if k < last {
      PolygonIsOriented(init, k);
    } else {
      OrientIsRight(k, ToPoints(polygon[k]).value);
    }
  }

  lemma {:induction false} RingsMatch(polygon: seq<seq<seq<real>>>)
    ensures ReadRings(polygon).Success? ==> |ReadRings(polygon).value| == |polygon|
    decreases |polygon|
  {
    if polygon != [] {
      RingsMatch(polygon[..|polygon| - 1]);
    }
  }
}
