/** Expansion of curve references into coordinate lists, through composites and reversals. */
module CurveExpansion {
  import opened Points
  import opened Text
  import opened Wrappers

  /** Vertex columns as numbers, None where a value does not parse; composite components in order. */
  datatype Topology = Topology(curves: map<string, seq<Option<real>>>, composites: map<string, seq<string>>)

  datatype TopologyError =
    | InvalidReference | NoComponents | Disconnected | MissingCurve | InvalidCoordinates | NotClosed

  type Outcome = Result<seq<Point>, TopologyError>

  const MAX_DEPTH := 64

  predicate IsReversed(reference: string) {
    StartsWith(reference, "RC")
  }

  function CurveName(reference: string): string {
    if IsReversed(reference) then reference[1..] else reference
  }

  predicate VerticesParse(values: seq<Option<real>>) {
    |values| >= 4 && |values| % 2 == 0 && forall k | 0 <= k < |values| :: values[k].Some?
  }

  function Vertices(values: seq<Option<real>>): (points: seq<Point>)
    requires VerticesParse(values)
    ensures |points| == |values| / 2 >= 2
  {
    seq(|values| / 2, i requires 0 <= i < |values| / 2 => Point(values[2 * i].value, values[2 * i + 1].value))
  }

  /** The coordinate columns of a list of points: x before y, point after point. */
  ghost function Columns(points: seq<Point>): seq<Option<real>> {
    if points == [] then [] else [Some(points[0].x), Some(points[0].y)] + Columns(points[1..])
  }

  lemma {:induction false} ColumnsAt(points: seq<Point>, k: nat)
    requires k < |points|
    ensures |Columns(points)| == 2 * |points|
    ensures Columns(points)[2 * k] == Some(points[k].x) && Columns(points)[2 * k + 1] == Some(points[k].y)
  {
    if |points| > 1 {
      ColumnsAt(points[1..], if k == 0 then 0 else k - 1);
    }
  }

  /** Written out as columns and read back, a curve is the same list of points. */
  lemma ColumnsRoundTrip(points: seq<Point>)
    requires |points| >= 2
    ensures VerticesParse(Columns(points)) && Vertices(Columns(points)) == points
  {
    forall k | 0 <= k < |points|
      ensures |Columns(points)| == 2 * |points|
      ensures Columns(points)[2 * k] == Some(points[k].x) && Columns(points)[2 * k + 1] == Some(points[k].y)
    {
      ColumnsAt(points, k);
    }
    ColumnsAt(points, 0);
    forall j | 0 <= j < |Columns(points)| ensures Columns(points)[j].Some? {
      ColumnsAt(points, j / 2);
      assert j == 2 * (j / 2) || j == 2 * (j / 2) + 1;
    }
  }

  method ParseVertices(values: seq<Option<real>>) returns (r: Outcome)
    ensures r == if VerticesParse(values) then Success(Vertices(values)) else Failure(InvalidCoordinates)
  {
    if |values| < 4 || |values| % 2 != 0 {
      return Failure(InvalidCoordinates);
    }
    var coordinates: seq<Point> := [];
    var i := 0;
    while i < |values|
      invariant 0 <= i <= |values| && i % 2 == 0 && |coordinates| == i / 2
      invariant forall k | 0 <= k < i :: values[k].Some?
      invariant forall k | 0 <= k < i / 2 :: coordinates[k] == Point(values[2 * k].value, values[2 * k + 1].value)
    {
      if values[i].None? || values[i + 1].None? {
        return Failure(InvalidCoordinates);
      }
      coordinates := coordinates + [Point(values[i].value, values[i + 1].value)];
      i := i + 2;
    }
    assert coordinates == Vertices(values);
    return Success(coordinates);
  }

  /** Appends a segment, sharing the joint point. */
  function Join(chain: seq<Point>, segment: seq<Point>): Outcome
    requires segment != []
  {
    if chain == [] then Success(segment)
    else if chain[|chain| - 1] != segment[0] then Failure(Disconnected)
    else Success(chain + segment[1..])
  }

  function Joined(l: Outcome, r: Outcome): Outcome
    requires r.Success? ==> r.value != []
  {
    match l
    case Failure(e) => Failure(e)
    case Success(chain) =>
      match r
      case Failure(e) => Failure(e)
      case Success(segment) => Join(chain, segment)
  }

  /** What a reference denotes: never an empty list. */
  function Expansion(t: Topology, reference: string, depth: nat): (r: Outcome)
    requires depth <= MAX_DEPTH + 1
    ensures r.Success? ==> |r.value| >= 2 && depth <= MAX_DEPTH
    decreases MAX_DEPTH + 1 - depth, 0
  {
    if depth > MAX_DEPTH || IsBlank(reference) then Failure(InvalidReference) else
      match Body(t, CurveName(reference), depth)
      case Failure(e) => Failure(e)
      case Success(points) => Success(if IsReversed(reference) then Reverse(points) else points)
  }

  function Body(t: Topology, name: string, depth: nat): (r: Outcome)
    requires depth <= MAX_DEPTH
    ensures r.Success? ==> |r.value| >= 2
    decreases MAX_DEPTH - depth, 2
  {
    if name in t.curves then
      if VerticesParse(t.curves[name]) then Success(Vertices(t.curves[name])) else Failure(InvalidCoordinates)
    else if name in t.composites then
      if t.composites[name] == [] then Failure(NoComponents) else Chain(t, t.composites[name], depth + 1)
    else Failure(MissingCurve)
  }

  /** The components joined from left to right. */
  function Chain(t: Topology, parts: seq<string>, depth: nat): (r: Outcome)
    requires depth <= MAX_DEPTH + 1
    ensures r.Success? ==> if parts == [] then r.value == [] else |r.value| >= 2
    decreases MAX_DEPTH + 1 - depth, 1, |parts|
  {
    if parts == [] then Success([]) else
      Joined(Chain(t, parts[..|parts| - 1], depth), Expansion(t, parts[|parts| - 1], depth))
  }

  lemma OneMorePart(t: Topology, parts: seq<string>, n: nat, depth: nat)
    requires depth <= MAX_DEPTH + 1 && n < |parts|
    ensures Chain(t, parts[..n + 1], depth) == Joined(Chain(t, parts[..n], depth), Expansion(t, parts[n], depth))
  {
    assert parts[..n + 1][..n] == parts[..n];
  }

  /** The source's recursion: grows a list part by part and reverses it at the end. */
  method Expand(t: Topology, reference: string, depth: nat) returns (r: Outcome)
    requires depth <= MAX_DEPTH + 1
    ensures r == Expansion(t, reference, depth)
    decreases MAX_DEPTH + 1 - depth
  {
    if depth > MAX_DEPTH || IsBlank(reference) {
      return Failure(InvalidReference);
    }
    var reversed := IsReversed(reference);
    var name := CurveName(reference);
    var coordinates: seq<Point> := [];
    if name in t.curves {
      var parsed := ParseVertices(t.curves[name]);
      if parsed.Failure? {
        return parsed;
      }
      coordinates := parsed.value;
    } else if name in t.composites {
      var parts := t.composites[name];
      if parts == [] {
        return Failure(NoComponents);
      }
      for n := 0 to |parts|
        invariant Chain(t, parts[..n], depth + 1) == Success(coordinates)
      {
        OneMorePart(t, parts, n, depth + 1);
        var segment := Expand(t, parts[n], depth + 1);
        if segment.Failure? {
          ChainFailsFrom(t, parts, n + 1, depth + 1);
          return segment;
        }
        if coordinates != [] {
          if coordinates[|coordinates| - 1] != segment.value[0] {
            ChainFailsFrom(t, parts, n + 1, depth + 1);
            return Failure(Disconnected);
          }
          coordinates := coordinates + segment.value[1..];
        } else {
          coordinates := segment.value;
        }
      }
      assert parts[..|parts|] == parts;
    } else {
      return Failure(MissingCurve);
    }
    if reversed {
      coordinates := Reverse(coordinates);
    }
    return Success(coordinates);
  }

  /** A failed prefix decides the whole chain. */
  lemma {:induction false} ChainFailsFrom(t: Topology, parts: seq<string>, n: nat, depth: nat)
    requires depth <= MAX_DEPTH + 1 && n <= |parts|
    requires Chain(t, parts[..n], depth).Failure?
    ensures Chain(t, parts, depth) == Chain(t, parts[..n], depth)
    decreases |parts|
  {
    if n == |parts| {
      assert parts[..n] == parts;
    } else {
      var shorter := parts[..|parts| - 1];
      assert shorter[..n] == parts[..n];
      ChainFailsFrom(t, shorter, n, depth);
    }
  }

  /*************** Connected chains ***************/

  predicate Joinable(a: seq<Point>, b: seq<Point>) {
    a != [] && b != [] && a[|a| - 1] == b[0]
  }

  ghost predicate SameSuccess(r: Outcome, r': Outcome) {
    r.Success? == r'.Success? && (r.Success? ==> r.value == r'.value)
  }

  ghost predicate NeverEmpty(r: Outcome) {
    r.Success? ==> r.value != []
  }

  lemma JoiningIsAssociative(a: Outcome, b: Outcome, c: Outcome)
    requires NeverEmpty(a) && NeverEmpty(b) && NeverEmpty(c)
    ensures NeverEmpty(Joined(b, c)) && SameSuccess(Joined(Joined(a, b), c), Joined(a, Joined(b, c)))
  {
    if a.Success? && b.Success? && c.Success? {
      if Joinable(a.value, b.value) && Joinable(b.value, c.value) {
        assert (a.value + b.value[1..]) + c.value[1..] == a.value + (b.value + c.value[1..])[1..];
      }
    }
  }

  /** A chain may be cut anywhere between its components. */
  lemma {:induction false} ChainSplits(t: Topology, a: seq<string>, b: seq<string>, depth: nat)
    requires depth <= MAX_DEPTH + 1 && a != [] && b != []
    ensures SameSuccess(Chain(t, a + b, depth), Joined(Chain(t, a, depth), Chain(t, b, depth)))
    decreases |b|
  {
    var front, last := b[..|b| - 1], b[|b| - 1];
    assert (a + b)[..|a + b| - 1] == a + front;
    assert Chain(t, a + b, depth) == Joined(Chain(t, a + front, depth), Expansion(t, last, depth));
    if front == [] {
      assert a + front == a && b == [last];
      OneComponent(t, last, depth);
    } else {
      ChainSplits(t, a, front, depth);
      JoiningIsAssociative(Chain(t, a, depth), Chain(t, front, depth), Expansion(t, last, depth));
      assert Chain(t, b, depth) == Joined(Chain(t, front, depth), Expansion(t, last, depth));
    }
  }

  function TotalLength(t: Topology, parts: seq<string>, depth: nat): nat
    requires depth <= MAX_DEPTH + 1
  {
    if parts == [] then 0 else
      var segment := Expansion(t, parts[|parts| - 1], depth);
      TotalLength(t, parts[..|parts| - 1], depth) + if segment.Success? then |segment.value| else 0
  }

  /** Every joint is shared once. */
  lemma {:induction false} ChainLength(t: Topology, parts: seq<string>, depth: nat)
    requires depth <= MAX_DEPTH + 1 && parts != []
    requires Chain(t, parts, depth).Success?
    ensures |Chain(t, parts, depth).value| == TotalLength(t, parts, depth) - (|parts| - 1)
    decreases |parts|
  {
    if |parts| > 1 {
      ChainLength(t, parts[..|parts| - 1], depth);
    } else {
      assert parts[..0] == [];
    }
  }

  /** A joined segment lies at the end of the chain as it is. */
  lemma JoinEndsWith(chain: seq<Point>, segment: seq<Point>) returns (from: nat)
    requires segment != [] && Join(chain, segment).Success?
    ensures var whole := Join(chain, segment).value;
            from + |segment| == |whole| && whole[from..] == segment && (chain == [] ==> from == 0)
  {
    from := if chain == [] then 0 else |chain| - 1;
  }

  /** A chain that succeeds begins with the chain of any first components. */
  lemma ChainStartsWith(t: Topology, parts: seq<string>, n: nat, depth: nat)
    requires depth <= MAX_DEPTH + 1 && 0 < n <= |parts| && Chain(t, parts, depth).Success?
    ensures Chain(t, parts[..n], depth).Success? && Chain(t, parts[..n], depth).value <= Chain(t, parts, depth).value
  {
    if n < |parts| {
      assert parts == parts[..n] + parts[n..];
      ChainSplits(t, parts[..n], parts[n..], depth);
    } else {
      assert parts[..n] == parts;
    }
  }

  lemma PieceOfWhole<T>(whole: seq<T>, prefix: seq<T>, from: nat)
    requires prefix <= whole && from <= |prefix|
    ensures whole[from..|prefix|] == prefix[from..]
  {
  }

  /** Every component lies in the chain as it is, ending where the next begins. */
  lemma ChainRunsThrough(t: Topology, parts: seq<string>, k: nat, depth: nat) returns (from: nat)
    requires depth <= MAX_DEPTH + 1 && k < |parts|
    requires Chain(t, parts, depth).Success?
    ensures Expansion(t, parts[k], depth).Success?
    ensures var whole, segment := Chain(t, parts, depth).value, Expansion(t, parts[k], depth).value;
            && from + |segment| <= |whole| && whole[from..from + |segment|] == segment
            && (k == 0 ==> from == 0) && (k == |parts| - 1 ==> from + |segment| == |whole|)
  {
    ChainStartsWith(t, parts, k + 1, depth);
    OneMorePart(t, parts, k, depth);
    var prefix, whole := Chain(t, parts[..k + 1], depth).value, Chain(t, parts, depth).value;
    from := JoinEndsWith(Chain(t, parts[..k], depth).value, Expansion(t, parts[k], depth).value);
    PieceOfWhole(whole, prefix, from);
    if k == |parts| - 1 {
      assert parts[..k + 1] == parts;
    }
  }

  /*************** Reversal ***************/

  /** References that have a reversed counterpart: a plain `C...` name or its `RC...` form. */
  predicate CanFlip(reference: string) {
    StartsWith(reference, "C") || IsReversed(reference)
  }

  function Flip(reference: string): string
    requires CanFlip(reference)
  {
    if IsReversed(reference) then reference[1..] else "R" + reference
  }

  function FlipAll(parts: seq<string>): seq<string>
    requires forall p | p in parts :: CanFlip(p)
  {
    if parts == [] then [] else [Flip(parts[|parts| - 1])] + FlipAll(parts[..|parts| - 1])
  }

  /** `r'` is `r` walked backwards; the two succeed together. */
  ghost predicate Backwards(r: Outcome, r': Outcome) {
    if r.Success? then r'.Success? && r'.value == Reverse(r.value) else r'.Failure?
  }

  lemma ReverseJoined(a: seq<Point>, b: seq<Point>)
    requires Joinable(a, b)
    ensures Joinable(Reverse(b), Reverse(a))
    ensures Reverse(a + b[1..]) == Reverse(b) + Reverse(a)[1..]
  {
  }

  /** The flipped reference denotes the exact reverse. */
  lemma FlipReverses(t: Topology, reference: string, depth: nat)
    requires depth <= MAX_DEPTH + 1 && CanFlip(reference)
    ensures CanFlip(Flip(reference)) && Flip(Flip(reference)) == reference
    ensures Backwards(Expansion(t, reference, depth), Expansion(t, Flip(reference), depth))
  {
    var flipped := Flip(reference);
    assert CurveName(flipped) == CurveName(reference) && IsReversed(flipped) == !IsReversed(reference) by {
      if IsReversed(reference) {
        assert reference[..2] == "RC" && reference[1] == 'C';
      } else {
        assert flipped[0] == 'R' && flipped[1] == 'C' && flipped[1..] == reference;
        assert flipped[..2] == "RC";
      }
    }
    assert !IsBlank(reference) && !IsBlank(flipped) by {
      assert reference[0] in "RC" && flipped[0] in "RC";
    }
    if depth <= MAX_DEPTH {
      var body := Body(t, CurveName(reference), depth);
      if body.Success? { ReverseTwice(body.value); }
    }
  }

  /** Reversing a composite is joining its flipped components in the opposite order. */
  lemma {:induction false} ReversedChain(t: Topology, parts: seq<string>, depth: nat)
    requires depth <= MAX_DEPTH + 1 && parts != []
    requires forall p | p in parts :: CanFlip(p)
    ensures Backwards(Chain(t, parts, depth), Chain(t, FlipAll(parts), depth))
    decreases |parts|
  {
    var front, last := parts[..|parts| - 1], parts[|parts| - 1];
    FlipReverses(t, last, depth);
    OneComponent(t, last, depth);
    OneComponent(t, Flip(last), depth);
    if front == [] {
      assert parts == [last] && FlipAll(parts) == [Flip(last)];
    } else {
      ReversedChain(t, front, depth);
      assert parts == front + [last];
      ChainSplits(t, front, [last], depth);
      ChainSplits(t, [Flip(last)], FlipAll(front), depth);
      var a, b := Chain(t, front, depth), Chain(t, [last], depth);
      if a.Success? && b.Success? {
        if Joinable(a.value, b.value) { ReverseJoined(a.value, b.value); }
      }
    }
  }

  lemma OneComponent(t: Topology, part: string, depth: nat)
    requires depth <= MAX_DEPTH + 1
    ensures Chain(t, [part], depth) == Expansion(t, part, depth)
  {
    assert [part][..0] == [];
  }

  /*************** Depth and cycles ***************/

  /** Each reference names a composite that lists the next one. */
  ghost predicate IsReferencePath(t: Topology, path: seq<string>) {
    forall i | 0 < i < |path| :: Lists(t, path[i - 1], path[i])
  }

  ghost predicate Lists(t: Topology, reference: string, part: string) {
    var name := CurveName(reference);
    name !in t.curves && name in t.composites && part in t.composites[name]
  }

  /** An expansion that succeeds has expanded every component one level deeper. */
  lemma ComponentsSucceed(t: Topology, reference: string, part: string, depth: nat)
    requires depth <= MAX_DEPTH + 1 && Expansion(t, reference, depth).Success?
    requires Lists(t, reference, part)
    ensures depth < MAX_DEPTH && Expansion(t, part, depth + 1).Success?
  {
    var parts := t.composites[CurveName(reference)];
    var k :| 0 <= k < |parts| && parts[k] == part;
    var _ := ChainRunsThrough(t, parts, k, depth + 1);
  }

  /** A reference path longer than the depth bound cannot be expanded. */
  lemma {:induction false} PathsAreBounded(t: Topology, path: seq<string>, depth: nat)
    requires depth <= MAX_DEPTH + 1 && path != [] && IsReferencePath(t, path)
    requires Expansion(t, path[0], depth).Success?
    ensures depth + |path| - 1 <= MAX_DEPTH && Expansion(t, path[|path| - 1], depth + |path| - 1).Success?
    decreases |path|
  {
    if |path| > 1 {
      ComponentsSucceed(t, path[0], path[1], depth);
      assert IsReferencePath(t, path[1..]) by {
        forall i | 0 < i < |path[1..]| ensures Lists(t, path[1..][i - 1], path[1..][i]) {
          var k := i + 1;
          assert Lists(t, path[k - 1], path[k]);
        }
      }
      PathsAreBounded(t, path[1..], depth + 1);
    }
  }

  /** A cyclic reference is rejected at every depth instead of being followed for ever. */
  lemma {:induction false} CyclesAreRejected(t: Topology, cycle: seq<string>, depth: nat)
    requires depth <= MAX_DEPTH + 1 && |cycle| > 1 && IsReferencePath(t, cycle)
    requires cycle[0] == cycle[|cycle| - 1]
    ensures Expansion(t, cycle[0], depth).Failure?
    decreases MAX_DEPTH + 1 - depth
  {
    if Expansion(t, cycle[0], depth).Success? {
      PathsAreBounded(t, cycle, depth);
      CyclesAreRejected(t, cycle, depth + |cycle| - 1);
    }
  }

  /** The depth only bounds: a success does not depend on where in the nesting it happens. */
  lemma {:induction false} DepthDoesNotMatter(t: Topology, reference: string, depth: nat, shallower: nat)
    requires shallower <= depth <= MAX_DEPTH + 1 && Expansion(t, reference, depth).Success?
    ensures Expansion(t, reference, shallower) == Expansion(t, reference, depth)
    decreases MAX_DEPTH + 1 - depth, 0, 0
  {
    var name := CurveName(reference);
    if name !in t.curves && name in t.composites {
      ChainDepthDoesNotMatter(t, t.composites[name], depth + 1, shallower + 1);
    }
  }

  lemma {:induction false} ChainDepthDoesNotMatter(t: Topology, parts: seq<string>, depth: nat, shallower: nat)
    requires shallower <= depth <= MAX_DEPTH + 1 && Chain(t, parts, depth).Success?
    ensures Chain(t, parts, shallower) == Chain(t, parts, depth)
    decreases MAX_DEPTH + 1 - depth, 1, |parts|
  {
    if parts != [] {
      ChainDepthDoesNotMatter(t, parts[..|parts| - 1], depth, shallower);
      DepthDoesNotMatter(t, parts[|parts| - 1], depth, shallower);
    }
  }

  /*************** Rings ***************/

  predicate IsClosedRing(points: seq<Point>) {
    |points| >= 4 && points[0] == points[|points| - 1]
  }

  method Ring(t: Topology, reference: string) returns (r: Outcome)
    ensures r.Success? <==> Expansion(t, reference, 0).Success? && IsClosedRing(Expansion(t, reference, 0).value)
    ensures r.Success? ==> r.value == Expansion(t, reference, 0).value
  {
    r := Expand(t, reference, 0);
    if r.Success? && (|r.value| < 4 || r.value[0] != r.value[|r.value| - 1]) {
      r := Failure(NotClosed);
    }
  }

  /** A ring may be referenced in either direction, and the two references give reversed rings. */
  lemma RingEitherWay(t: Topology, reference: string)
    requires CanFlip(reference)
    ensures
      var r, r' := Expansion(t, reference, 0), Expansion(t, Flip(reference), 0);
      && ((r.Success? && IsClosedRing(r.value)) <==> (r'.Success? && IsClosedRing(r'.value)))
      && Backwards(r, r')
  {
    FlipReverses(t, reference, 0);
  }
}
