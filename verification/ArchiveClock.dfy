/** SQL archive wall time against the clock of the values the SDK returns. */
module ArchiveClock {
  import opened Wrappers
  import opened TimeZones
  import opened ArchiveWindow

  /** 9999-01-01 and 9999-12-31 in ticks; the latter is the literal for an open end. */
  const YEAR_9999 := 3_155_063_616_000_000_000
  const OPEN_END := 3_155_378_112_000_000_000
  const FIVE_MINUTES := 300 * TICKS_PER_SECOND

  datatype ClockError =
    AmbiguousBoundary | StaleCandidate | NoFromDate | NoToDate | EndsBeforeStart | FutureTimestamp
    | UnusableWallTime | UnsupportedType

  /** A column value: `shown` is its own clock reading, `utc` the instant when the value carries one. */
  datatype RawDate =
    | Null
    | OffsetDate(utc: int, shown: int)
    | UtcDate(utc: int)
    | LocalDate(utc: int, shown: int)
    | WallDate(shown: int)
    | Unsupported

  /** The event-scan predicate over stored wall times. */
  predicate SelectsEvent(from: int, to: int, since: int, openEnd: int) {
    from > since || (to > since && to < openEnd)
  }

  /** The endpoint predicate over stored wall times. */
  predicate SelectsEndpoint(from: int, to: int, sinceFloor: int, sinceCeiling: int, throughFloor: int,
                            throughCeiling: int) {
    (from <= sinceCeiling && to > sinceFloor) || (from <= throughCeiling && to > throughFloor)
  }

  /** The closing column of a row: the wall time of its closure, or the open-end sentinel. */
  function StoredEnd(z: Zone, i: Interval): int {
    if i.to.Some? then z.Local(i.to.value) else OPEN_END
  }

  datatype Clock = Clock(storage: Zone, reading: Zone) {

    function ToQueryLowerBound(w: Window): Result<int, ClockError> {
      var local, localEnd := storage.Local(w.since), storage.Local(w.through);
      if storage.IsAmbiguous(local) || storage.IsAmbiguous(localEnd) then Failure(AmbiguousBoundary)
      else Success(FloorSecond(local))
    }

    function VerifyQueryCandidate(i: Interval, w: Window): Result<(), ClockError> {
      var latest := if i.to.Some? && i.to.value > i.from then i.to.value else i.from;
      if latest < w.since - TICKS_PER_SECOND then Failure(StaleCandidate) else Success(())
    }

    function ReadUtc(value: RawDate): Result<Option<int>, ClockError> {
      match value
      case Null => Success(None)
      case OffsetDate(utc, _) => Success(Some(utc))
      case UtcDate(utc) => Success(Some(utc))
      case LocalDate(utc, _) => Success(Some(utc))
      case WallDate(shown) =>
        if reading.IsInvalid(shown) || reading.IsAmbiguous(shown) then Failure(UnusableWallTime)
        else Success(Some(reading.ToUtc(shown)))
      case Unsupported => Failure(UnsupportedType)
    }

    function ReadEnd(value: RawDate): Result<Option<int>, ClockError> {
      match value
      case Null => Failure(NoToDate)
      case OffsetDate(_, shown) => if shown >= YEAR_9999 then Success(None) else ReadUtc(value)
      case UtcDate(utc) => if utc >= YEAR_9999 then Success(None) else ReadUtc(value)
      case LocalDate(_, shown) => if shown >= YEAR_9999 then Success(None) else ReadUtc(value)
      case WallDate(shown) => if shown >= YEAR_9999 then Success(None) else ReadUtc(value)
      case Unsupported => ReadUtc(value)
    }

    /** An accepted interval never runs backwards (it may be empty) and lies at most five minutes ahead. */
    function ReadInterval(fromValue: RawDate, toValue: RawDate, observedAt: int): (r: Result<Interval, ClockError>)
      ensures r.Success? ==>
        var i := r.value;
        && i.from <= observedAt + FIVE_MINUTES
        && (i.to.Some? ==> i.from <= i.to.value <= observedAt + FIVE_MINUTES)
    {
      match ReadUtc(fromValue)
      case Failure(e) => Failure(e)
      case Success(None) => Failure(NoFromDate)
      case Success(Some(from)) =>
        match ReadEnd(toValue)
        case Failure(e) => Failure(e)
        case Success(to) =>
          if to.Some? && to.value < from then Failure(EndsBeforeStart)
          else if from > observedAt + FIVE_MINUTES || (to.Some? && to.value > observedAt + FIVE_MINUTES)
            then Failure(FutureTimestamp)
          else Success(Interval(from, to))
    }
  }

  /** A bound is accepted exactly when no other instant shows its wall time; the literal is the last whole second. */
  lemma BoundIsAcceptedIff(clock: Clock, w: Window)
    ensures clock.ToQueryLowerBound(w).Success? <==>
            && (forall u | clock.storage.Local(u) == clock.storage.Local(w.since) :: u == w.since)
            && (forall u | clock.storage.Local(u) == clock.storage.Local(w.through) :: u == w.through)
    ensures match clock.ToQueryLowerBound(w)
            case Failure(e) => e == AmbiguousBoundary
            case Success(literal) =>
              && literal % TICKS_PER_SECOND == 0
              && literal <= clock.storage.Local(w.since) < literal + TICKS_PER_SECOND
  {
    RepeatedIffAmbiguous(clock.storage, w.since);
    RepeatedIffAmbiguous(clock.storage, w.through);
  }

  lemma RepeatedIffAmbiguous(z: Zone, u: int)
    ensures z.IsAmbiguous(z.Local(u)) <==> exists v :: z.Local(v) == z.Local(u) && v != u
  {
    if z.IsAmbiguous(z.Local(u)) {
      var v := AmbiguityHasTwin(z, u);
    }
    if v :| z.Local(v) == z.Local(u) && v != u {
      AmbiguousMeansRepeated(z, u, v);
    }
  }

  /** A row is refused exactly when both its creation and its closure lie more than a second before the window. */
  lemma StaleMeansOverASecondEarly(clock: Clock, from: int, to: Option<int>, w: Window)
    ensures clock.VerifyQueryCandidate(Interval(from, to), w) ==
            if w.since - from > TICKS_PER_SECOND && (to.Some? ==> w.since - to.value > TICKS_PER_SECOND)
            then Failure(StaleCandidate) else Success(())
  {
  }

  /*************** Over-selection loses nothing ***************/

  /**
   * The floored literal lets every later instant through exactly when the bound's wall time is not shown again.
   * Rejecting every ambiguous bound is therefore enough; only the first showing of a repeated time would lose events.
   */
  lemma LiteralLosesNothingIffNotRepeated(z: Zone, since: int)
    requires z.Valid()
    ensures (forall v | v > since :: z.Local(v) > FloorSecond(z.Local(since)))
            <==> (forall w | w > since :: z.Local(w) != z.Local(since))
  {
    if w :| w > since && z.Local(w) == z.Local(since) {
      var f := FloorSecond(w);
      SameFraction(z, since);
      SameFraction(z, w);
      FloorIsWhole(w);
      FloorIsWhole(since);
      assert f > since by {
      }
      FloorCommutes(z, w);
      assert z.Local(f) == FloorSecond(z.Local(since));
    }
    if forall w | w > since :: z.Local(w) != z.Local(since) {
      forall v | v > since ensures z.Local(v) > FloorSecond(z.Local(since)) {
        if z.Local(v) <= z.Local(since) {
          var w := RepeatsAfter(z, since, v);
          assert false;
        }
        FloorIsWhole(z.Local(since));
      }
    }
  }

  /** The event predicate is exact for a bound on a whole second, and otherwise over-selects by less than a second. */
  lemma EventPredicateIsTight(from: int, to: int, bound: int, literal: int)
    requires literal <= bound < literal + TICKS_PER_SECOND
    ensures from > bound || bound < to < OPEN_END ==> SelectsEvent(from, to, literal, OPEN_END)
    ensures SelectsEvent(from, to, literal, OPEN_END) ==>
      from > bound - TICKS_PER_SECOND || bound - TICKS_PER_SECOND < to < OPEN_END
    ensures literal == bound && SelectsEvent(from, to, literal, OPEN_END) ==> from > bound || bound < to < OPEN_END
  {
  }

  /**
   * The endpoint predicate over-selects by at most a second on either side of each bound; for bounds on whole seconds,
   * exactly by the versions created in the second that follows.
   */
  lemma EndpointPredicateIsTight(from: int, to: int, since: int, through: int, sinceFloor: int, throughFloor: int)
    requires sinceFloor <= since < sinceFloor + TICKS_PER_SECOND
    requires throughFloor <= through < throughFloor + TICKS_PER_SECOND
    ensures var selected := SelectsEndpoint(from, to, sinceFloor, sinceFloor + TICKS_PER_SECOND,
                                            throughFloor, throughFloor + TICKS_PER_SECOND);
            && (from <= since < to || from <= through < to ==> selected)
            && (selected ==>
                  || from - TICKS_PER_SECOND <= since < to + TICKS_PER_SECOND
                  || from - TICKS_PER_SECOND <= through < to + TICKS_PER_SECOND)
            && (since == sinceFloor && through == throughFloor ==>
                  (selected <==> from - TICKS_PER_SECOND <= since < to || from - TICKS_PER_SECOND <= through < to))
  {
  }

  lemma LiteralIsBelowBound(clock: Clock, w: Window)
    requires clock.storage.Valid() && clock.ToQueryLowerBound(w).Success?
    ensures var lit := clock.ToQueryLowerBound(w).value;
            var floor := FloorSecond(w.since);
            && lit == clock.storage.Local(floor) && !clock.storage.IsAmbiguous(lit)
            && lit <= clock.storage.Local(w.since) < lit + TICKS_PER_SECOND
            && floor <= w.since < floor + TICKS_PER_SECOND
  {
    FloorCommutes(clock.storage, w.since);
    FloorKeepsUnambiguous(clock.storage, w.since);
    FloorIsWhole(w.since);
    FloorIsWhole(clock.storage.Local(w.since));
  }

  /** Every version created or closed in (since, through] is selected by the event predicate at the floored literal. */
  lemma EventPredicateLosesNothing(clock: Clock, w: Window, i: Interval)
    requires clock.storage.Valid() && clock.ToQueryLowerBound(w).Success?
    requires clock.storage.Local(w.through) < OPEN_END
    requires i.HasEvent(w)
    ensures SelectsEvent(clock.storage.Local(i.from), StoredEnd(clock.storage, i), clock.ToQueryLowerBound(w).value,
                         OPEN_END)
  {
    var z := clock.storage;
    LiteralIsBelowBound(clock, w);
    LocalOrderIsFaithful(z, w.since, i.from);
    if !w.Contains(i.from) {
      var to := i.to.value;
      LocalOrderIsFaithful(z, w.since, to);
      LocalOrderIsFaithful(z, w.through, to);
    }
  }

  /** A row the event predicate selects is never rejected as stale, when its instants are the true ones. */
  lemma SelectedRowsAreNotStale(clock: Clock, w: Window, i: Interval)
    requires clock.storage.Valid() && clock.ToQueryLowerBound(w).Success?
    requires SelectsEvent(clock.storage.Local(i.from), StoredEnd(clock.storage, i), clock.ToQueryLowerBound(w).value,
                          OPEN_END)
    ensures clock.VerifyQueryCandidate(i, w).Success?
  {
    var z, floor := clock.storage, FloorSecond(w.since);
    LiteralIsBelowBound(clock, w);
    LocalOrderIsFaithful(z, floor, i.from);
    if i.to.Some? {
      LocalOrderIsFaithful(z, floor, i.to.value);
    }
  }

  /** Every version alive at either bound is selected by the endpoint predicate. */
  lemma EndpointPredicateLosesNothing(clock: Clock, w: Window, i: Interval)
    requires clock.storage.Valid()
    requires clock.ToQueryLowerBound(w).Success? && clock.ToQueryLowerBound(Window(w.through, w.through)).Success?
    requires clock.storage.Local(w.since) < OPEN_END && clock.storage.Local(w.through) < OPEN_END
    requires i.Contains(w.since) || i.Contains(w.through)
    ensures var sinceFloor := clock.ToQueryLowerBound(w).value;
            var throughFloor := clock.ToQueryLowerBound(Window(w.through, w.through)).value;
            SelectsEndpoint(clock.storage.Local(i.from), StoredEnd(clock.storage, i), sinceFloor,
                            sinceFloor + TICKS_PER_SECOND,
                            throughFloor, throughFloor + TICKS_PER_SECOND)
  {
    var z := clock.storage;
    var bound := if i.Contains(w.since) then w else Window(w.through, w.through);
    LiteralIsBelowBound(clock, w);
    LiteralIsBelowBound(clock, Window(w.through, w.through));
    LocalOrderIsFaithful(z, bound.since, i.from);
    if i.to.Some? {
      LocalOrderIsFaithful(z, bound.since, i.to.value);
    }
  }

  /** The rows the query returns: those of the history whose stored columns satisfy the predicate, in any order. */
  ghost predicate IsQueryResult<T>(clock: Clock, history: set<Version<T>>, literal: int, rows: seq<Version<T>>) {
    && (forall v | v in rows :: v in history)
    && (forall v | v in history :: v in rows <==>
          SelectsEvent(clock.storage.Local(v.interval.from), StoredEnd(clock.storage, v.interval), literal, OPEN_END))
  }

  /**
   * From the SQL text to the endpoint states: the query's rows all pass verification and compose to the history's own
   * states.
   */
  lemma QueryReachesHistoryStates<T>(clock: Clock, history: set<Version<T>>, w: Window, rows: seq<Version<T>>)
    requires clock.storage.Valid() && w.Valid() && clock.storage.Local(w.through) < OPEN_END
    requires clock.ToQueryLowerBound(w).Success?
    requires IsQueryResult(clock, history, clock.ToQueryLowerBound(w).value, rows)
    requires Disjoint(history) && PositiveLengths(history)
    ensures forall v | v in rows :: clock.VerifyQueryCandidate(v.interval, w).Success?
    ensures w.Compose(rows).Success? <==> exists v :: v in history && v.interval.HasEvent(w)
    ensures w.Compose(rows).Success? ==> AreHistoryStates(history, w, w.Compose(rows).value)
  {
    forall v | v in rows ensures clock.VerifyQueryCandidate(v.interval, w).Success? {
      SelectedRowsAreNotStale(clock, w, v.interval);
    }
    forall v | v in history && v.interval.HasEvent(w) ensures v in rows {
      EventPredicateLosesNothing(clock, w, v.interval);
    }
    ComposeIsDefined(history, w, rows);
    if w.Compose(rows).Success? {
      EndpointsAreHistoryStates(history, w, rows);
    }
  }

  /*************** Reading values back ***************/

  /** The column stands for the instant: it carries it, or shows a wall time that the zone showed only then. */
  ghost predicate Denotes(z: Zone, value: RawDate, t: int) {
    match value
    case UtcDate(utc) => utc == t
    case OffsetDate(utc, _) => utc == t
    case LocalDate(utc, _) => utc == t
    case WallDate(shown) => forall u :: z.Local(u) == shown <==> u == t
    case _ => false
  }

  /** By its own clock the value lies in the year of the open-end sentinel, or after it. */
  ghost predicate IsSentinel(value: RawDate) {
    match value
    case UtcDate(utc) => utc >= YEAR_9999
    case OffsetDate(_, shown) => shown >= YEAR_9999
    case LocalDate(_, shown) => shown >= YEAR_9999
    case WallDate(shown) => shown >= YEAR_9999
    case _ => false
  }

  /** The closing column stands for the end of a lifetime; the sentinel stands for none, whatever instant it carries. */
  ghost predicate DenotesEnd(z: Zone, value: RawDate, to: Option<int>) {
    if IsSentinel(value) then to.None? else to.Some? && Denotes(z, value, to.value)
  }

  /** Why a column that stands for no instant is refused. */
  ghost predicate IsRefusal(value: RawDate, missing: ClockError, e: ClockError) {
    match value
    case Null => e == missing
    case Unsupported => e == UnsupportedType
    case WallDate(_) => e == UnusableWallTime
    case _ => false
  }

  lemma DenotedIsRead(clock: Clock, value: RawDate, t: int)
    requires Denotes(clock.reading, value, t)
    ensures clock.ReadUtc(value) == Success(Some(t))
  {
    if value.WallDate? {
      assert clock.reading.Local(t) == value.shown;
      WallTimeRoundTrip(clock.reading, t);
      RepeatedIffAmbiguous(clock.reading, t);
    }
  }

  lemma ExplicitIsDenoted(z: Zone, value: RawDate)
    ensures value.UtcDate? || value.OffsetDate? || value.LocalDate? ==> Denotes(z, value, value.utc)
  {
  }

  /** A wall time that is not the reading of exactly one instant is refused. */
  lemma UndenotedIsRefused(clock: Clock, value: RawDate)
    requires forall t :: !Denotes(clock.reading, value, t)
    ensures value.Null? || value.Unsupported? || value.WallDate?
    ensures value.Null? ==> clock.ReadUtc(value) == Success(None)
    ensures value.Unsupported? ==> clock.ReadUtc(value) == Failure(UnsupportedType)
    ensures value.WallDate? ==> clock.ReadUtc(value) == Failure(UnusableWallTime)
  {
    ExplicitIsDenoted(clock.reading, value);
    if value.WallDate? && !clock.reading.IsInvalid(value.shown) {
      var u := clock.reading.ToUtc(value.shown);
      if !clock.reading.IsAmbiguous(value.shown) {
        RepeatedIffAmbiguous(clock.reading, u);
        assert Denotes(clock.reading, value, u);
      }
    }
  }

  /**
   * Two columns that stand for a lifetime, in whatever kinds of value, are read as that lifetime. It is refused only
   * if it runs backwards or lies more than five minutes ahead.
   */
  lemma IntervalRoundTrip(clock: Clock, fromValue: RawDate, toValue: RawDate, i: Interval, observedAt: int)
    requires Denotes(clock.reading, fromValue, i.from) && DenotesEnd(clock.reading, toValue, i.to)
    ensures clock.ReadInterval(fromValue, toValue, observedAt) ==
            if i.to.Some? && i.to.value < i.from then Failure(EndsBeforeStart)
            else if i.from - observedAt > FIVE_MINUTES || (i.to.Some? && i.to.value - observedAt > FIVE_MINUTES)
            then Failure(FutureTimestamp)
            else Success(i)
  {
    DenotedIsRead(clock, fromValue, i.from);
    if i.to.Some? {
      DenotedIsRead(clock, toValue, i.to.value);
    }
  }

  /** A column that stands for nothing is refused for its own reason, the opening column first. */
  lemma UndenotedColumnsAreRefused(clock: Clock, fromValue: RawDate, toValue: RawDate, observedAt: int)
    requires (forall t :: !Denotes(clock.reading, fromValue, t))
             || (forall to :: !DenotesEnd(clock.reading, toValue, to))
    ensures clock.ReadInterval(fromValue, toValue, observedAt).Failure?
    ensures var e := clock.ReadInterval(fromValue, toValue, observedAt).error;
            if forall t :: !Denotes(clock.reading, fromValue, t) then IsRefusal(fromValue, NoFromDate, e)
            else IsRefusal(toValue, NoToDate, e)
  {
    if t :| Denotes(clock.reading, fromValue, t) {
      DenotedIsRead(clock, fromValue, t);
      assert !DenotesEnd(clock.reading, toValue, None);
      forall t ensures !Denotes(clock.reading, toValue, t) {
        assert !DenotesEnd(clock.reading, toValue, Some(t));
      }
      UndenotedIsRefused(clock, toValue);
    } else {
      UndenotedIsRefused(clock, fromValue);
    }
  }

  /** Values with an explicit kind are read as the instants they carry, whatever the reading zone. */
  lemma ExplicitIntervalRoundTrip(clock: Clock, i: Interval, fromValue: RawDate, toValue: RawDate, s: int, shown: int,
                                  observedAt: int)
    requires i.from <= observedAt + FIVE_MINUTES
    requires i.to.Some? ==> i.from <= i.to.value <= observedAt + FIVE_MINUTES && i.to.value < YEAR_9999
    requires i.to.None? <==> shown >= YEAR_9999
    requires fromValue in {UtcDate(i.from), OffsetDate(i.from, s), LocalDate(i.from, s)}
    requires
      if i.to.Some? then toValue in {UtcDate(i.to.value), OffsetDate(i.to.value, shown), LocalDate(i.to.value, shown)}
      else toValue in {UtcDate(shown), OffsetDate(s, shown), LocalDate(s, shown), WallDate(shown)}
    ensures clock.ReadInterval(fromValue, toValue, observedAt) == Success(i)
  {
    IntervalRoundTrip(clock, fromValue, toValue, i, observedAt);
  }

  /**
   * Offset-free columns written in the reading zone are read back exactly, or refused because their wall time is
   * repeated.
   */
  lemma StoredIntervalRoundTrip(clock: Clock, i: Interval, observedAt: int)
    requires i.from <= observedAt + FIVE_MINUTES
    requires i.to.Some? ==>
      i.from <= i.to.value <= observedAt + FIVE_MINUTES && clock.reading.Local(i.to.value) < YEAR_9999
    ensures var r :=
      clock.ReadInterval(WallDate(clock.reading.Local(i.from)), WallDate(StoredEnd(clock.reading, i)), observedAt);
            if clock.reading.IsAmbiguous(clock.reading.Local(i.from))
               || (i.to.Some? && clock.reading.IsAmbiguous(clock.reading.Local(i.to.value)))
            then r == Failure(UnusableWallTime) else r == Success(i)
  {
    WallTimeRoundTrip(clock.reading, i.from);
    if i.to.Some? {
      WallTimeRoundTrip(clock.reading, i.to.value);
    }
  }
}
