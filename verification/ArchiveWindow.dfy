/** Version lifetimes, scan windows and the reduction of a version history to its endpoint states. */
module ArchiveWindow {
  import opened Wrappers

  /** Half-open lifetime of a version; no end means the row is still open. */
  datatype Interval = Interval(from: int, to: Option<int>) {

    predicate Contains(t: int) {
      from <= t && (to.None? || to.value > t)
    }

    /** Some instant lies in both lifetimes; if so, the later of the two starts does. */
    predicate Meets(other: Interval) {
      var start := if from < other.from then other.from else from;
      Contains(start) && other.Contains(start)
    }

    function LatestEvent(w: Window): Option<int> {
      var latest := if w.Contains(from) then Some(from) else None;
      if to.Some? && w.Contains(to.value) && (latest.None? || to.value > latest.value) then to else latest
    }

    predicate HasEvent(w: Window) {
      LatestEvent(w).Some?
    }

    /** Alive at both ends of the window with neither creation nor closure inside it. */
    predicate Spans(w: Window) {
      from <= w.since && (to.None? || to.value > w.through)
    }
  }

  datatype ScanError = WatermarkAfterBoundary | NoEventInWindow

  /** Exclusive lower and inclusive upper bound of one scan. */
  datatype Window = Window(since: int, through: int) {

    static function Create(since: int, through: int): Result<Window, ScanError> {
      if since > through then Failure(WatermarkAfterBoundary) else Success(Window(since, through))
    }

    ghost predicate Valid() {
      since <= through
    }

    predicate Contains(t: int) {
      t > since && t <= through
    }

    /** Picks the endpoint versions and the newest event out of whatever rows the cursor returned. */
    function Compose<T>(versions: seq<Version<T>>): Result<Endpoints<T>, ScanError> {
      var observed := Where(versions, EventIn<T>(this));
      var before := FirstGreatest(Where(observed, AliveAt<T>(since)), Start<T>());
      var after := FirstGreatest(Where(observed, AliveAt<T>(through)), Start<T>());
      match FirstGreatest(observed, NewestEvent<T>(this))
      case None => Failure(NoEventInWindow)
      case Some(latest) => Success(Endpoints(before, after, latest, EventOr(latest, this)))
    }
  }

  /** A scan never starts after it ends; the two bounds stay what they were. */
  lemma WindowIsOrdered(since: int, through: int, w: Window)
    ensures Window.Create(since, through) == Success(w) <==> w.Valid() && w.since == since && w.through == through
    ensures Window.Create(since, through).Failure? <==> through < since
  {
  }

  datatype Version<T> = Version(content: T, interval: Interval)

  datatype Endpoints<T> =
    Endpoints(before: Option<Version<T>>, after: Option<Version<T>>, latest: Version<T>, latestEdit: int)

  function EventIn<T>(w: Window): Version<T> -> bool {
    (v: Version<T>) => v.interval.HasEvent(w)
  }

  function AliveAt<T>(t: int): Version<T> -> bool {
    (v: Version<T>) => v.interval.Contains(t)
  }

  function Start<T>(): Version<T> -> int {
    (v: Version<T>) => v.interval.from
  }

  function NewestEvent<T>(w: Window): Version<T> -> int {
    (v: Version<T>) => EventOr(v, w)
  }

  function EventOr<T>(v: Version<T>, w: Window): int {
    match v.interval.LatestEvent(w)
    case Some(t) => t
    case None => w.since
  }

  function Where<V>(vs: seq<V>, p: V -> bool): (r: seq<V>)
    ensures forall v | v in r :: v in vs && p(v)
    ensures forall v | v in vs && p(v) :: v in r
  {
    if vs == [] then [] else
      var rest := Where(vs[1..], p);
      assert vs == [vs[0]] + vs[1..];
      if p(vs[0]) then [vs[0]] + rest else rest
  }

  /** Stable descending sort followed by taking the first element. */
  function FirstGreatest<V>(vs: seq<V>, key: V -> int): (r: Option<V>)
    ensures r.None? <==> vs == []
    ensures r.Some? ==> r.value in vs && forall v | v in vs :: key(v) <= key(r.value)
  {
    if vs == [] then None else
      match FirstGreatest(vs[1..], key)
      case None => Some(vs[0])
      case Some(best) =>
        assert vs == [vs[0]] + vs[1..];
        if key(vs[0]) >= key(best) then Some(vs[0]) else Some(best)
  }

  /*************** Histories ***************/

  /** No instant lies in the lifetimes of two versions. */
  ghost predicate Disjoint<T>(history: set<Version<T>>) {
    forall v, v' | v in history && v' in history && v.interval.Meets(v'.interval) :: v == v'
  }

  ghost predicate NeverBackwards<T>(history: set<Version<T>>) {
    forall v | v in history && v.interval.to.Some? :: v.interval.from <= v.interval.to.value
  }

  ghost predicate PositiveLengths<T>(history: set<Version<T>>) {
    forall v | v in history && v.interval.to.Some? :: v.interval.from < v.interval.to.value
  }

  /** The cursor returned rows of this history, and all of those with an event in the window. */
  ghost predicate Scanned<T>(history: set<Version<T>>, w: Window, rows: seq<Version<T>>) {
    && (forall v | v in rows :: v in history)
    && (forall v | v in history && v.interval.HasEvent(w) :: v in rows)
  }

  /** `state` is the version of the history that is alive at `t`, if any. */
  ghost predicate IsStateAt<T>(history: set<Version<T>>, t: int, state: Option<Version<T>>) {
    match state
    case Some(v) => v in history && v.interval.Contains(t)
    case None => forall v | v in history :: !v.interval.Contains(t)
  }

  /** The version begins or ends at the instant. */
  ghost predicate ChangesAt(i: Interval, t: int) {
    i.from == t || i.to == Some(t)
  }

  /** Of creation and closure a window sees the later one that lies after its lower and not after its upper bound. */
  lemma LatestEventIsGreatest(i: Interval, since: int, through: int, t: int)
    ensures i.HasEvent(Window(since, through)) <==> exists e :: ChangesAt(i, e) && since < e <= through
    ensures i.LatestEvent(Window(since, through)) == Some(t) <==>
            && ChangesAt(i, t) && since < t <= through
            && forall e | ChangesAt(i, e) && since < e <= through :: e <= t
  {
    var latest := i.LatestEvent(Window(since, through));
    assert ChangesAt(i, i.from);
    assert i.to.Some? ==> ChangesAt(i, i.to.value);
    assert latest.Some? ==> ChangesAt(i, latest.value);
  }

  lemma MeetingIsSharingAnInstant(i: Interval, j: Interval)
    ensures i.Meets(j) <==> exists t :: i.Contains(t) && j.Contains(t)
  {
  }

  lemma StateIsUnique<T>(history: set<Version<T>>, t: int, a: Option<Version<T>>, b: Option<Version<T>>)
    requires Disjoint(history) && IsStateAt(history, t, a) && IsStateAt(history, t, b)
    ensures a == b
  {
  }

  lemma ComposeIsDefined<T>(history: set<Version<T>>, w: Window, rows: seq<Version<T>>)
    requires Scanned(history, w, rows)
    ensures w.Compose(rows).Success? <==> exists v :: v in history && v.interval.HasEvent(w)
  {
    var observed := Where(rows, EventIn<T>(w));
    if v :| v in history && v.interval.HasEvent(w) {
      assert v in observed;
    }
    if observed != [] {
      assert observed[0] in observed;
    }
  }

  /** What composing observed rows says about the history, before any assumption on lengths. */
  ghost predicate Describes<T>(history: set<Version<T>>, w: Window, e: Endpoints<T>) {
    && (e.before.Some? ==>
         e.before.value in history && e.before.value.interval.HasEvent(w) && e.before.value.interval.Contains(w.since))
    && (e.before.None? ==> forall v | v in history && v.interval.HasEvent(w) :: !v.interval.Contains(w.since))
    && (e.after.Some? ==>
         e.after.value in history && e.after.value.interval.HasEvent(w) && e.after.value.interval.Contains(w.through))
    && (e.after.None? ==> forall v | v in history && v.interval.HasEvent(w) :: !v.interval.Contains(w.through))
    && e.latest in history && e.latest.interval.LatestEvent(w) == Some(e.latestEdit)
    && (forall v | v in history && v.interval.HasEvent(w) :: v.interval.LatestEvent(w).value <= e.latestEdit)
  }

  lemma ComposeDescribes<T>(history: set<Version<T>>, w: Window, rows: seq<Version<T>>)
    requires Scanned(history, w, rows) && w.Compose(rows).Success?
    ensures Describes(history, w, w.Compose(rows).value)
  {
    var observed := Where(rows, EventIn<T>(w));
    var e := w.Compose(rows).value;
    forall v | v in history && v.interval.HasEvent(w)
      ensures v in observed
      ensures NewestEvent<T>(w)(v) <= e.latestEdit
    {
    }
    var atSince := Where(observed, AliveAt<T>(w.since));
    var atThrough := Where(observed, AliveAt<T>(w.through));
    forall v | v in observed
      ensures v.interval.Contains(w.since) ==> v in atSince
      ensures v.interval.Contains(w.through) ==> v in atThrough
    {
    }
  }

  /** The recorded time is an event of the history in the window, and no event in the window is later. */
  lemma NewestEventIsSeen<T>(history: set<Version<T>>, w: Window, e: Endpoints<T>)
    requires Describes(history, w, e)
    ensures ChangesAt(e.latest.interval, e.latestEdit) && w.since < e.latestEdit <= w.through
    ensures forall v, t | v in history && ChangesAt(v.interval, t) && w.since < t <= w.through :: t <= e.latestEdit
  {
    LatestEventIsGreatest(e.latest.interval, w.since, w.through, e.latestEdit);
    forall v, t | v in history && ChangesAt(v.interval, t) && w.since < t <= w.through
      ensures t <= e.latestEdit
    {
      LatestEventIsGreatest(v.interval, w.since, w.through, e.latestEdit);
      var newest := v.interval.LatestEvent(w);
      LatestEventIsGreatest(v.interval, w.since, w.through, newest.value);
    }
  }

  /** The endpoints are the states of the full history at the two bounds. */
  ghost predicate AreHistoryStates<T>(history: set<Version<T>>, w: Window, e: Endpoints<T>) {
    IsStateAt(history, w.since, e.before) && IsStateAt(history, w.through, e.after)
  }

  lemma DescribedEndpointsAreExact<T>(history: set<Version<T>>, w: Window, e: Endpoints<T>)
    requires Disjoint(history) && NeverBackwards(history) && w.Valid() && Describes(history, w, e)
    ensures AreHistoryStates(history, w, e) <==> forall v | v in history :: !v.interval.Spans(w)
  {
    forall v | v in history
      ensures v.interval.Contains(w.since) && !v.interval.HasEvent(w) ==> v.interval.Spans(w)
      ensures v.interval.Contains(w.through) && !v.interval.HasEvent(w) ==> v.interval.Spans(w)
      ensures v.interval.Spans(w) ==> v.interval.Contains(w.since) && !v.interval.HasEvent(w)
    {
    }
  }

  /**
   * Exactly when the endpoints taken from the observed rows are those of the full history:
   * no version lies across the whole window. Zero-length versions are allowed here, as the reader lets them through.
   */
  lemma EndpointsExactUnlessSpanned<T>(history: set<Version<T>>, w: Window, rows: seq<Version<T>>)
    requires Disjoint(history) && NeverBackwards(history) && w.Valid()
    requires Scanned(history, w, rows) && w.Compose(rows).Success?
    ensures AreHistoryStates(history, w, w.Compose(rows).value) <==> forall v | v in history :: !v.interval.Spans(w)
  {
    ComposeDescribes(history, w, rows);
    DescribedEndpointsAreExact(history, w, w.Compose(rows).value);
  }

  lemma DescribedEndpointsAreStates<T>(history: set<Version<T>>, w: Window, e: Endpoints<T>)
    requires Disjoint(history) && PositiveLengths(history) && w.Valid() && Describes(history, w, e)
    ensures AreHistoryStates(history, w, e)
  {
    DescribedEndpointsAreExact(history, w, e);
  }

  /** Before and After, though read only from rows with an event, are the states of the full history. */
  lemma EndpointsAreHistoryStates<T>(history: set<Version<T>>, w: Window, rows: seq<Version<T>>)
    requires Disjoint(history) && PositiveLengths(history) && w.Valid()
    requires Scanned(history, w, rows) && w.Compose(rows).Success?
    ensures AreHistoryStates(history, w, w.Compose(rows).value)
  {
    ComposeDescribes(history, w, rows);
    DescribedEndpointsAreStates(history, w, w.Compose(rows).value);
  }

  /** The reader accepts a zero-length version; it can hide the version that is really alive. */
  lemma ZeroLengthVersionHidesState()
    ensures var open := Version(0, Interval(0, None));
            var blip := Version(1, Interval(5, Some(5)));
            var w := Window(3, 7);
            && Disjoint({open, blip}) && NeverBackwards({open, blip}) && Scanned({open, blip}, w, [blip])
            && w.Compose([blip]).Success? && !IsStateAt({open, blip}, w.since, w.Compose([blip]).value.before)
  {
    var open := Version(0, Interval(0, None));
    var blip := Version(1, Interval(5, Some(5)));
    var w := Window(3, 7);
    ComposeIsDefined({open, blip}, w, [blip]);
    assert blip.interval.HasEvent(w);
    ComposeDescribes({open, blip}, w, [blip]);
    assert open.interval.Contains(3);
  }

  /** A window without events leaves the state as it was. */
  lemma QuietWindowKeepsState<T>(history: set<Version<T>>, w: Window, state: Option<Version<T>>)
    requires w.Valid() && NeverBackwards(history)
    requires forall v | v in history :: !v.interval.HasEvent(w)
    requires IsStateAt(history, w.since, state)
    ensures IsStateAt(history, w.through, state)
  {
    forall v | v in history ensures v.interval.Contains(w.since) <==> v.interval.Contains(w.through) {
    }
  }

  /*************** Adjacent windows and whole runs ***************/

  lemma StatesTelescope<T>(history: set<Version<T>>, a: int, b: int, c: int, l: Endpoints<T>, r: Endpoints<T>,
                           o: Endpoints<T>)
    requires Disjoint(history)
    requires AreHistoryStates(history, Window(a, b), l) && AreHistoryStates(history, Window(b, c), r)
      && AreHistoryStates(history, Window(a, c), o)
    ensures l.after == r.before && o.before == l.before && o.after == r.after
  {
    StateIsUnique(history, a, o.before, l.before);
    StateIsUnique(history, b, l.after, r.before);
    StateIsUnique(history, c, o.after, r.after);
  }

  /** The later window's newest event is also the newest of the two windows together. */
  lemma NewestEventIsLater<T>(history: set<Version<T>>, a: int, b: int, c: int, r: Endpoints<T>, o: Endpoints<T>)
    requires a <= b <= c && Describes(history, Window(b, c), r) && Describes(history, Window(a, c), o)
    ensures o.latestEdit == r.latestEdit
  {
    var inner, outer := Window(b, c), Window(a, c);
    assert r.latest.interval.HasEvent(outer) && r.latest.interval.LatestEvent(outer) == Some(r.latestEdit);
    assert o.latest.interval.HasEvent(inner);
  }

  lemma DescribedEndpointsTelescope<T>(history: set<Version<T>>, a: int, b: int, c: int, l: Endpoints<T>,
                                       r: Endpoints<T>, o: Endpoints<T>)
    requires Disjoint(history) && PositiveLengths(history) && a <= b <= c
    requires Describes(history, Window(a, b), l) && Describes(history, Window(b, c), r)
      && Describes(history, Window(a, c), o)
    ensures l.after == r.before && o.before == l.before && o.after == r.after && o.latestEdit == r.latestEdit
  {
    DescribedEndpointsAreStates(history, Window(a, b), l);
    DescribedEndpointsAreStates(history, Window(b, c), r);
    DescribedEndpointsAreStates(history, Window(a, c), o);
    StatesTelescope(history, a, b, c, l, r, o);
    NewestEventIsLater(history, a, b, c, r, o);
  }

  lemma EventInWiderWindow<T>(history: set<Version<T>>, a: int, b: int, c: int, r: Endpoints<T>)
    requires a <= b <= c && Describes(history, Window(b, c), r)
    ensures exists v :: v in history && v.interval.HasEvent(Window(a, c))
  {
    assert r.latest in history && r.latest.interval.HasEvent(Window(a, c));
  }

  /** The outer window composes to the outer states of its two halves, which meet in the middle. */
  lemma AdjacentWindowsTelescope<T>(history: set<Version<T>>, a: int, b: int, c: int,
                                          first: seq<Version<T>>, second: seq<Version<T>>, whole: seq<Version<T>>,
                                          l: Endpoints<T>, r: Endpoints<T>)
      returns (o: Endpoints<T>)
    requires Disjoint(history) && PositiveLengths(history) && a <= b <= c
    requires Scanned(history, Window(a, b), first) && Scanned(history, Window(b, c), second)
    requires Scanned(history, Window(a, c), whole)
    requires Window(a, b).Compose(first) == Success(l) && Window(b, c).Compose(second) == Success(r)
    ensures Window(a, c).Compose(whole) == Success(o)
    ensures l.after == r.before && o.before == l.before && o.after == r.after && o.latestEdit == r.latestEdit
  {
    ComposeDescribes(history, Window(a, b), first);
    ComposeDescribes(history, Window(b, c), second);
    EventInWiderWindow(history, a, b, c, r);
    o := ComposeScanned(history, Window(a, c), whole);
    DescribedEndpointsTelescope(history, a, b, c, l, r, o);
  }

  lemma ComposeScanned<T>(history: set<Version<T>>, w: Window, rows: seq<Version<T>>) returns (e: Endpoints<T>)
    requires Scanned(history, w, rows) && exists v :: v in history && v.interval.HasEvent(w)
    ensures w.Compose(rows) == Success(e) && Describes(history, w, e)
  {
    ComposeIsDefined(history, w, rows);
    e := w.Compose(rows).value;
    ComposeDescribes(history, w, rows);
  }

  datatype Scan<T> = Scan(through: int, rows: seq<Version<T>>)

  /** Each scan starts at the watermark its predecessor left. */
  ghost predicate IsRun<T>(history: set<Version<T>>, watermark: int, scans: seq<Scan<T>>)
    decreases |scans|
  {
    scans == [] ||
    (&& watermark <= scans[0].through
     && Scanned(history, Window(watermark, scans[0].through), scans[0].rows)
     && IsRun(history, scans[0].through, scans[1..]))
  }

  function FinalWatermark<T>(watermark: int, scans: seq<Scan<T>>): int {
    if scans == [] then watermark else scans[|scans| - 1].through
  }

  /** Applies every scan's change to a copy of the state; None when a change does not start from that copy. */
  function Replay<T(==)>(state: Option<Version<T>>, watermark: int, scans: seq<Scan<T>>): Option<Option<Version<T>>>
    decreases |scans|
  {
    if scans == [] then Some(state) else
      match Window(watermark, scans[0].through).Compose(scans[0].rows)
      case Failure(_) => Replay(state, scans[0].through, scans[1..])
      case Success(e) => if e.before == state then Replay(e.after, scans[0].through, scans[1..]) else None
  }

  lemma FinalWatermarkAfter<T>(watermark: int, scans: seq<Scan<T>>)
    requires scans != []
    ensures FinalWatermark(watermark, scans) == FinalWatermark(scans[0].through, scans[1..])
  {
  }

  /** One scan's change starts from the true state and ends at the true state. */
  lemma ScanKeepsState<T>(history: set<Version<T>>, w: Window, rows: seq<Version<T>>, state: Option<Version<T>>)
    requires Disjoint(history) && PositiveLengths(history) && w.Valid() && Scanned(history, w, rows)
    requires IsStateAt(history, w.since, state)
    ensures
      var composed := w.Compose(rows);
      && (composed.Success? ==> composed.value.before == state)
      && IsStateAt(history, w.through, if composed.Success? then composed.value.after else state)
  {
    ComposeIsDefined(history, w, rows);
    if w.Compose(rows).Success? {
      EndpointsAreHistoryStates(history, w, rows);
      StateIsUnique(history, w.since, w.Compose(rows).value.before, state);
    } else {
      QuietWindowKeepsState(history, w, state);
    }
  }

  /** Over any run of adjacent scans the reported changes chain without gap or repetition and end at the true state. */
  lemma {:induction false} ReplayTracksHistory<T>(history: set<Version<T>>, watermark: int, scans: seq<Scan<T>>,
                                                  state: Option<Version<T>>)
    requires Disjoint(history) && PositiveLengths(history)
    requires IsRun(history, watermark, scans) && IsStateAt(history, watermark, state)
    ensures var final := Replay(state, watermark, scans);
            final.Some? && IsStateAt(history, FinalWatermark(watermark, scans), final.value)
    decreases |scans|
  {
    if scans != [] {
      var w := Window(watermark, scans[0].through);
      ScanKeepsState(history, w, scans[0].rows, state);
      var composed := w.Compose(scans[0].rows);
      var next := if composed.Success? then composed.value.after else state;
      ReplayTracksHistory(history, scans[0].through, scans[1..], next);
      FinalWatermarkAfter(watermark, scans);
    }
  }

  /** Two newest versions can only tie when one closes as the other opens, and then a state survives the window. */
  lemma LatestIsUniqueAfterDeletion<T>(history: set<Version<T>>, w: Window, e: Endpoints<T>, v: Version<T>)
    requires Disjoint(history) && PositiveLengths(history) && w.Valid()
    requires Describes(history, w, e) && e.after.None?
    requires v in history && v.interval.LatestEvent(w) == Some(e.latestEdit)
    ensures v == e.latest
  {
    var t := e.latestEdit;
    forall x | x in history && x.interval.LatestEvent(w) == Some(t) ensures x.interval.Contains(t - 1) {
      if x.interval.to != Some(t) {
        assert x.interval.from == t && x.interval.Contains(w.through);
      }
    }
    assert v.interval.Meets(e.latest.interval);
  }
}
