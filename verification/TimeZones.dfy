/** A time zone as a step function from UTC instants to offsets, counted in ticks. */
module TimeZones {

  const TICKS_PER_SECOND := 10_000_000

  /** From the instant `at` on, local time is UTC plus `offset`. */
  datatype Transition = Transition(at: int, offset: int)

  function FloorSecond(t: int): int {
    t - t % TICKS_PER_SECOND
  }

  function Magnitude(x: int): nat {
    if x < 0 then -x else x
  }

  datatype Zone = Zone(baseOffset: int, transitions: seq<Transition>) {

    /** The offset in force in era `k`, that is before transition `k`. */
    function EraOffset(k: nat): int
      requires k <= |transitions|
    {
      if k == 0 then baseOffset else transitions[k - 1].offset
    }

    function Jump(k: nat): int
      requires k < |transitions|
    {
      transitions[k].offset - EraOffset(k)
    }

    ghost predicate Ordered() {
      forall i, j | 0 <= i < j < |transitions| :: transitions[i].at < transitions[j].at
    }

    /** Transitions `k` and `k + 1` are no closer together than either of their jumps. */
    ghost predicate SpacedAt(k: nat) {
      k + 1 < |transitions| ==>
        var gap := transitions[k + 1].at - transitions[k].at;
        Magnitude(Jump(k)) <= gap && Magnitude(Jump(k + 1)) <= gap
    }

    ghost predicate WholeSeconds() {
      && baseOffset % TICKS_PER_SECOND == 0
      && forall t | t in transitions :: t.at % TICKS_PER_SECOND == 0 && t.offset % TICKS_PER_SECOND == 0
    }

    ghost predicate Spaced() {
      Ordered() && forall k: nat :: SpacedAt(k)
    }

    ghost predicate Valid() {
      Spaced() && WholeSeconds()
    }

    /** The number of transitions among the first `k` that have happened at `u`. */
    function EraUpTo(k: nat, u: int): (e: nat)
      requires k <= |transitions|
      ensures e <= k
    {
      if k == 0 then 0 else if transitions[k - 1].at <= u then k else EraUpTo(k - 1, u)
    }

    function Era(u: int): (e: nat)
      ensures e <= |transitions|
    {
      EraUpTo(|transitions|, u)
    }

    function Local(u: int): int {
      u + EraOffset(Era(u))
    }

    /** Every instant whose wall time is `wall`; more than one in a repeated hour, none in a skipped one. */
    function Preimages(wall: int): set<int> {
      set k | 0 <= k <= |transitions| && Local(wall - EraOffset(k)) == wall :: wall - EraOffset(k)
    }

    predicate IsAmbiguous(wall: int) {
      |Preimages(wall)| > 1
    }

    predicate IsInvalid(wall: int) {
      Preimages(wall) == {}
    }

    /** The conversion of a wall time that is neither invalid nor ambiguous. */
    function ToUtc(wall: int): (u: int)
      requires !IsInvalid(wall)
      ensures Local(u) == wall
    {
      FirstPreimage(wall, 0)
    }

    function FirstPreimage(wall: int, k: nat): (u: int)
      requires k <= |transitions| + 1
      requires exists j :: k <= j <= |transitions| && Local(wall - EraOffset(j)) == wall
      ensures Local(u) == wall
      decreases |transitions| + 1 - k
    {
      if Local(wall - EraOffset(k)) == wall then wall - EraOffset(k) else FirstPreimage(wall, k + 1)
    }
  }

  lemma {:induction false} EraUpToBounds(z: Zone, k: nat, u: int)
    requires z.Ordered() && k <= |z.transitions|
    ensures var e := z.EraUpTo(k, u);
            && (e > 0 ==> z.transitions[e - 1].at <= u)
            && (e < k ==> u < z.transitions[e].at)
  {
    if k > 0 && z.transitions[k - 1].at > u {
      EraUpToBounds(z, k - 1, u);
    }
  }

  /** An era is determined by the two transitions around the instant. */
  lemma EraIs(z: Zone, k: nat, u: int)
    requires z.Ordered() && k <= |z.transitions|
    requires k > 0 ==> z.transitions[k - 1].at <= u
    requires k < |z.transitions| ==> u < z.transitions[k].at
    ensures z.Era(u) == k
  {
    EraUpToBounds(z, |z.transitions|, u);
  }

  /** The clock shows UTC plus the offset of the last transition that has happened, or the base offset before all. */
  lemma LocalAddsOffsetInForce(z: Zone, k: nat, u: int)
    requires z.Ordered() && k <= |z.transitions|
    requires k > 0 ==> z.transitions[k - 1].at <= u
    requires k < |z.transitions| ==> u < z.transitions[k].at
    ensures z.Local(u) == u + if k == 0 then z.baseOffset else z.transitions[k - 1].offset
  {
    EraIs(z, k, u);
  }

  lemma PreimagesAreExact(z: Zone, wall: int, u: int)
    ensures u in z.Preimages(wall) <==> z.Local(u) == wall
  {
    if z.Local(u) == wall {
      var k := z.Era(u);
      assert u == wall - z.EraOffset(k);
    }
  }

  lemma AmbiguousMeansRepeated(z: Zone, u: int, v: int)
    requires u != v && z.Local(u) == z.Local(v)
    ensures z.IsAmbiguous(z.Local(u))
  {
    var s := z.Preimages(z.Local(u));
    PreimagesAreExact(z, z.Local(u), u);
    PreimagesAreExact(z, z.Local(u), v);
    assert {u, v} <= s;
    SubsetSize({u, v}, s);
  }

  lemma {:induction false} SubsetSize<T>(a: set<T>, b: set<T>)
    requires a <= b
    ensures |a| <= |b|
  {
    assert b == a + (b - a);
  }

  /** Local time can only fail to advance at a transition. */
  lemma TransitionAt(z: Zone, v: int) returns (k: nat)
    requires z.Ordered() && z.Local(v) <= z.Local(v - 1)
    ensures 0 < k <= |z.transitions| && z.transitions[k - 1].at == v
    ensures z.Era(v) == k && z.Era(v - 1) == k - 1
    ensures z.Local(v) == z.Local(v - 1) + 1 + z.Jump(k - 1)
  {
    k := z.Era(v);
    EraUpToBounds(z, |z.transitions|, v);
    if k == 0 || z.transitions[k - 1].at < v {
      EraIs(z, k, v - 1);
      assert false;
    }
    EraIs(z, k - 1, v - 1);
  }

  /** A fall-back past a reading shows that reading again right after the transition ... */
  lemma RepeatsJustAfter(z: Zone, v: int, wall: int) returns (w: int)
    requires z.Spaced() && z.Local(v) < wall <= z.Local(v - 1)
    ensures w >= v && z.Local(w) == wall
  {
    var k := TransitionAt(z, v);
    w := v + (wall - z.Local(v));
    assert z.SpacedAt(k - 1);
    EraIs(z, k, w);
  }

  /** ... and has shown it right before. */
  lemma RepeatsJustBefore(z: Zone, v: int, wall: int) returns (w: int)
    requires z.Spaced() && z.Local(v) <= wall < z.Local(v - 1)
    ensures w < v && z.Local(w) == wall
  {
    var k := TransitionAt(z, v);
    w := v - 1 - (z.Local(v - 1) - wall);
    assert k > 1 ==> z.SpacedAt(k - 2);
    EraIs(z, k - 1, w);
  }

  lemma {:induction false} RepeatsAfter(z: Zone, u: int, v: int) returns (w: int)
    requires z.Spaced() && u < v && z.Local(v) <= z.Local(u)
    ensures w > u && z.Local(w) == z.Local(u)
    decreases v - u
  {
    if z.Local(v) == z.Local(u) {
      w := v;
    } else if v - 1 > u && z.Local(v - 1) < z.Local(u) {
      w := RepeatsAfter(z, u, v - 1);
    } else {
      w := RepeatsJustAfter(z, v, z.Local(u));
    }
  }

  lemma {:induction false} RepeatsBefore(z: Zone, u: int, v: int) returns (w: int)
    requires z.Spaced() && v < u && z.Local(v) >= z.Local(u)
    ensures w < u && z.Local(w) == z.Local(u)
    decreases u - v
  {
    if z.Local(v) == z.Local(u) {
      w := v;
    } else if v + 1 < u && z.Local(v + 1) > z.Local(u) {
      w := RepeatsBefore(z, u, v + 1);
    } else {
      w := RepeatsJustBefore(z, v + 1, z.Local(u));
    }
  }

  /** Wall clocks order every instant correctly against an instant whose wall time is not ambiguous. */
  lemma LocalOrderIsFaithful(z: Zone, u: int, v: int)
    requires z.Spaced() && !z.IsAmbiguous(z.Local(u))
    ensures v < u <==> z.Local(v) < z.Local(u)
    ensures v > u <==> z.Local(v) > z.Local(u)
  {
    if v > u && z.Local(v) <= z.Local(u) {
      var w := RepeatsAfter(z, u, v);
      AmbiguousMeansRepeated(z, u, w);
    }
    if v < u && z.Local(v) >= z.Local(u) {
      var w := RepeatsBefore(z, u, v);
      AmbiguousMeansRepeated(z, u, w);
    }
  }

  lemma AmbiguityHasTwin(z: Zone, u: int) returns (v: int)
    requires z.IsAmbiguous(z.Local(u))
    ensures v != u && z.Local(v) == z.Local(u)
  {
    var s := z.Preimages(z.Local(u));
    if forall v | v in s :: v == u {
      assert s <= {u};
      SubsetSize(s, {u});
      assert false;
    }
    v :| v in s && v != u;
    PreimagesAreExact(z, z.Local(u), v);
  }

  lemma WholeFloor(a: int, u: int)
    requires a % TICKS_PER_SECOND == 0 && a <= u
    ensures a <= FloorSecond(u)
  {
  }

  lemma FloorShift(u: int, o: int)
    requires o % TICKS_PER_SECOND == 0
    ensures FloorSecond(u + o) == FloorSecond(u) + o
  {
  }

  /** Flooring to whole seconds commutes with conversion to local time. */
  lemma FloorCommutes(z: Zone, u: int)
    requires z.Valid()
    ensures z.Local(FloorSecond(u)) == FloorSecond(z.Local(u))
  {
    var e := z.Era(u);
    EraUpToBounds(z, |z.transitions|, u);
    if e > 0 { WholeFloor(z.transitions[e - 1].at, u); }
    EraIs(z, e, FloorSecond(u));
    FloorShift(u, z.EraOffset(e));
  }

  lemma SameFraction(z: Zone, u: int)
    requires z.Valid()
    ensures z.Local(u) - FloorSecond(z.Local(u)) == u - FloorSecond(u)
  {
    FloorShift(u, z.EraOffset(z.Era(u)));
  }

  lemma FloorOfWhole(f: int, frac: int)
    requires FloorSecond(f) == f && 0 <= frac < TICKS_PER_SECOND
    ensures FloorSecond(f + frac) == f
  {
  }

  lemma FloorIsWhole(t: int)
    ensures FloorSecond(FloorSecond(t)) == FloorSecond(t)
    ensures 0 <= t - FloorSecond(t) < TICKS_PER_SECOND
  {
  }

  lemma WholePlusFraction(z: Zone, f: int, frac: int)
    requires z.Valid() && FloorSecond(f) == f && 0 <= frac < TICKS_PER_SECOND
    ensures z.Local(f + frac) == z.Local(f) + frac
  {
    SameFraction(z, f);
    FloorOfWhole(f, frac);
    FloorCommutes(z, f + frac);
    SameFraction(z, f + frac);
  }

  /** Two whole-second instants with one wall time keep sharing wall times for the rest of that second. */
  lemma TwinsKeepPace(z: Zone, f: int, v: int, frac: int)
    requires z.Valid() && z.Local(v) == z.Local(f)
    requires FloorSecond(f) == f && 0 <= frac < TICKS_PER_SECOND
    ensures z.Local(v + frac) == z.Local(f + frac)
  {
    SameFraction(z, f);
    SameFraction(z, v);
    WholePlusFraction(z, f, frac);
    WholePlusFraction(z, v, frac);
  }

  /** Repeated hours begin and end on whole seconds, so flooring never creates an ambiguity. */
  lemma FloorKeepsUnambiguous(z: Zone, u: int)
    requires z.Valid() && !z.IsAmbiguous(z.Local(u))
    ensures !z.IsAmbiguous(z.Local(FloorSecond(u)))
  {
    var f, frac := FloorSecond(u), u - FloorSecond(u);
    if z.IsAmbiguous(z.Local(f)) {
      var v := AmbiguityHasTwin(z, f);
      FloorIsWhole(u);
      TwinsKeepPace(z, f, v, frac);
      AmbiguousMeansRepeated(z, u, v + frac);
    }
  }

  /** Reading back a wall time that names one instant recovers it. */
  lemma WallTimeRoundTrip(z: Zone, u: int)
    ensures !z.IsInvalid(z.Local(u))
    ensures !z.IsAmbiguous(z.Local(u)) ==> z.ToUtc(z.Local(u)) == u
  {
    PreimagesAreExact(z, z.Local(u), u);
    if z.ToUtc(z.Local(u)) != u {
      AmbiguousMeansRepeated(z, u, z.ToUtc(z.Local(u)));
    }
  }
}
