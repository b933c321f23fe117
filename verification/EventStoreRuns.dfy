/** What every run over the event store keeps, and what a polling subscription delivers. */
module EventStoreRuns {
  import opened Wrappers
  import opened EventStore

  /*************** Streams and the global log ***************/

  /** The events of one stream, in the order of the global log. */
  function Project<E>(log: seq<LoggedEvent<E>>, name: string): seq<StoredEvent<E>> {
    if log == [] then [] else
      var last := log[|log| - 1];
      Project(log[..|log| - 1], name) + if last.stream == name then [StoredEvent(last.event, last.revision)] else []
  }

  lemma {:induction false} ProjectConcat<E>(a: seq<LoggedEvent<E>>, b: seq<LoggedEvent<E>>, name: string)
    ensures Project(a + b, name) == Project(a, name) + Project(b, name)
    decreases |b|
  {
    if b == [] {
      assert a + b == a;
    } else {
      assert (a + b)[..|a + b| - 1] == a + b[..|b| - 1];
      ProjectConcat(a, b[..|b| - 1], name);
    }
  }

  lemma {:induction false} ProjectLogged<E>(name: string, numbered: seq<StoredEvent<E>>, start: int, other: string)
    ensures Project(Logged(name, numbered, start), other) == if other == name then numbered else []
    decreases |numbered|
  {
    if numbered != [] {
      var init := numbered[..|numbered| - 1];
      assert Logged(name, numbered, start)[..|numbered| - 1] == Logged(name, init, start);
      ProjectLogged(name, init, start, other);
    }
  }

  predicate IsSuffix<T(==)>(s: seq<T>, whole: seq<T>) {
    |s| <= |whole| && s == whole[|whole| - |s|..]
  }

  predicate StreamFits<E(==)>(stream: StreamState<E>, projection: seq<StoredEvent<E>>) {
    IsSuffix(stream.events, projection) && EndsAt(stream.events, stream.version)
  }

  predicate Indexed<E>(log: seq<LoggedEvent<E>>) {
    forall i | 0 <= i < |log| :: log[i].globalPosition == i
  }

  ghost predicate Consistent<E>(s: StoreState<E>) {
    Indexed(s.log) && forall name | name in s.streams :: StreamFits(s.streams[name], Project(s.log, name))
  }

  /*************** Every operation keeps the two in step ***************/

  lemma AppendedStreamFits<E>(stream: StreamState<E>, projection: seq<StoredEvent<E>>, events: seq<E>)
    requires StreamFits(stream, projection)
    ensures StreamFits(AppendToStream(stream, events), projection + Numbered(events, stream.version))
  {
    var numbered := Numbered(events, stream.version);
    assert (projection + numbered)[|projection| - |stream.events|..] == stream.events + numbered;
  }

  lemma NewStreamFits<E>(projection: seq<StoredEvent<E>>)
    ensures StreamFits(NewStream(), projection)
  {
  }

  lemma AppendKeepsFit<E>(s: StoreState<E>, name: string, expected: ExpectedVersion, events: seq<E>, other: string)
    requires Consistent(s) && Append(s, name, expected, events).1.Success?
    ensures var after := Append(s, name, expected, events).0;
      other in after.streams ==> StreamFits(after.streams[other], Project(after.log, other))
  {
    var stream := StreamOrNew(s, name);
    var numbered := Numbered(events, stream.version);
    ProjectConcat(s.log, Logged(name, numbered, |s.log|), other);
    ProjectLogged(name, numbered, |s.log|, other);
    if other == name {
      NewStreamFits(Project(s.log, name));
      AppendedStreamFits(stream, Project(s.log, name), events);
    } else {
      assert Project(s.log, other) + [] == Project(s.log, other);
    }
  }

  lemma AppendKeepsConsistent<E>(s: StoreState<E>, name: string, expected: ExpectedVersion, events: seq<E>)
    requires Consistent(s)
    ensures Consistent(Append(s, name, expected, events).0)
    ensures s.log <= Append(s, name, expected, events).0.log
  {
    var (after, r) := Append(s, name, expected, events);
    if r.Success? {
      forall other | other in after.streams
        ensures StreamFits(after.streams[other], Project(after.log, other))
      {
        AppendKeepsFit(s, name, expected, events, other);
      }
    } else {
      RefusalKeepsConsistent(s, name);
    }
  }

  lemma RefusalKeepsConsistent<E>(s: StoreState<E>, name: string)
    requires Consistent(s)
    ensures Consistent(s.(streams := s.streams[name := StreamOrNew(s, name)]))
  {
    NewStreamFits(Project(s.log, name));
  }

  lemma {:induction false} BatchKeepsConsistent<E>(s: StoreState<E>, appends: seq<StreamAppend<E>>)
    requires Consistent(s)
    ensures Consistent(AppendBatch(s, appends).0)
    ensures s.log <= AppendBatch(s, appends).0.log
    decreases |appends|
  {
    if appends != [] {
      var a := appends[|appends| - 1];
      var init := appends[..|appends| - 1];
      BatchKeepsConsistent(s, init);
      AppendKeepsConsistent(AppendBatch(s, init).0, a.name, a.expected, a.events);
    }
  }

  lemma {:induction false} DroppingKeepsSuffix<E>(events: seq<StoredEvent<E>>, position: int, version: int)
    requires EndsAt(events, version)
    ensures IsSuffix(DropUpTo(events, position), events) && EndsAt(DropUpTo(events, position), version)
    decreases |events|
  {
    if events != [] {
      DroppingKeepsSuffix(events[1..], position, version);
      if events[0].position > position {
        NothingToDrop(events[1..], position);
      }
    }
  }

  lemma {:induction false} NothingToDrop<E>(events: seq<StoredEvent<E>>, position: int)
    requires forall i | 0 <= i < |events| :: events[i].position > position
    ensures DropUpTo(events, position) == events
    decreases |events|
  {
    if events != [] {
      NothingToDrop(events[1..], position);
    }
  }

  datatype Operation<E> =
    | AppendEvents(name: string, expected: ExpectedVersion, events: seq<E>)
    | AppendMany(appends: seq<StreamAppend<E>>)
    | TruncateStream(name: string, position: int, expected: ExpectedVersion, mustExist: bool)
    | DeleteStream(name: string, expected: ExpectedVersion, mustExist: bool)

  function Step<E>(s: StoreState<E>, op: Operation<E>): StoreState<E> {
    match op
    case AppendEvents(name, expected, events) => Append(s, name, expected, events).0
    case AppendMany(appends) => AppendBatch(s, appends).0
    case TruncateStream(name, position, expected, mustExist) => Truncate(s, name, position, expected, mustExist).0
    case DeleteStream(name, expected, mustExist) => Delete(s, name, expected, mustExist).0
  }

  function Run<E>(s: StoreState<E>, ops: seq<Operation<E>>): StoreState<E>
    decreases |ops|
  {
    if ops == [] then s else Step(Run(s, ops[..|ops| - 1]), ops[|ops| - 1])
  }

  lemma TruncateKeepsConsistent<E>(s: StoreState<E>, name: string, position: int, expected: ExpectedVersion,
                                   mustExist: bool)
    requires Consistent(s)
    ensures Consistent(Truncate(s, name, position, expected, mustExist).0)
    ensures Truncate(s, name, position, expected, mustExist).0.log == s.log
  {
    if name in s.streams {
      var stream := s.streams[name];
      assert StreamFits(stream, Project(s.log, name));
      DroppingKeepsSuffix(stream.events, position, stream.version);
      SuffixOfSuffix(DropUpTo(stream.events, position), stream.events, Project(s.log, name));
    }
  }

  lemma SuffixOfSuffix<T>(s: seq<T>, middle: seq<T>, whole: seq<T>)
    requires IsSuffix(s, middle) && IsSuffix(middle, whole)
    ensures IsSuffix(s, whole)
  {
  }

  lemma StepKeepsConsistent<E>(s: StoreState<E>, op: Operation<E>)
    requires Consistent(s)
    ensures Consistent(Step(s, op)) && s.log <= Step(s, op).log
  {
    match op
    case AppendEvents(name, expected, events) => AppendKeepsConsistent(s, name, expected, events);
    case AppendMany(appends) => BatchKeepsConsistent(s, appends);
    case TruncateStream(name, position, expected, mustExist) =>
      TruncateKeepsConsistent(s, name, position, expected, mustExist);
    case DeleteStream(_, _, _) =>
  }

  /** In every reachable state each live stream is a suffix of its part of the global log, which only ever grows. */
  lemma {:induction false} ReachableStatesAreConsistent<E>(ops: seq<Operation<E>>, more: seq<Operation<E>>)
    ensures Consistent(Run(EmptyStore(), ops + more))
    ensures Run(EmptyStore(), ops).log <= Run(EmptyStore<E>(), ops + more).log
    decreases |ops| + |more|
  {
    var all := ops + more;
    if more != [] {
      assert all[..|all| - 1] == ops + more[..|more| - 1];
      ReachableStatesAreConsistent(ops, more[..|more| - 1]);
      StepKeepsConsistent(Run(EmptyStore(), all[..|all| - 1]), all[|all| - 1]);
    } else {
      assert all == ops;
      if ops != [] {
        ReachableStatesAreConsistent(ops[..|ops| - 1], []);
        assert ops[..|ops| - 1] + [] == ops[..|ops| - 1];
        StepKeepsConsistent(Run(EmptyStore(), ops[..|ops| - 1]), ops[|ops| - 1]);
      }
    }
  }

  /*************** Refused appends ***************/

  /**
   * A refused append never reaches the global log. It leaves the store as it was
   * exactly when nothing was to be appended or the stream existed: otherwise an empty stream stays behind.
   */
  lemma RefusedAppend<E>(s: StoreState<E>, name: string, expected: ExpectedVersion, events: seq<E>)
    requires Append(s, name, expected, events).1.Failure?
    ensures var after := Append(s, name, expected, events).0;
      && after.log == s.log
      && (after == s <==> events == [] || name in s.streams)
      && (after != s ==> after.streams == s.streams[name := NewStream()])
  {
    var after := Append(s, name, expected, events).0;
    if name in s.streams {
      assert s.streams[name := s.streams[name]] == s.streams;
    } else if events != [] {
      assert name in after.streams;
    }
  }

  /** A batch is not atomic: what precedes the first refused append stays, and nothing after it is tried. */
  lemma {:induction false} BatchStopsAtFirstRefusal<E>(s: StoreState<E>, done: seq<StreamAppend<E>>,
                                                       refused: StreamAppend<E>, rest: seq<StreamAppend<E>>)
    requires AppendBatch(s, done).1.Success?
    requires Append(AppendBatch(s, done).0, refused.name, refused.expected, refused.events).1.Failure?
    ensures AppendBatch(s, done + [refused] + rest).1.Failure?
    ensures AppendBatch(s, done + [refused] + rest).0.log == AppendBatch(s, done).0.log
  {
    var all := done + [refused] + rest;
    assert (done + [refused])[..|done|] == done;
    assert all[..|done| + 1] == done + [refused];
    BatchStops(s, all, |done| + 1);
    RefusedAppend(AppendBatch(s, done).0, refused.name, refused.expected, refused.events);
  }

  /*************** Reading one stream ***************/

  /** The newest events at or below a position, newest first. */
  function Newest<E>(events: seq<StoredEvent<E>>, position: int, count: int): seq<StoredEvent<E>>
    decreases |events|
  {
    if count <= 0 || events == [] then [] else
      var last := events[|events| - 1];
      var rest := events[..|events| - 1];
      if last.position <= position then [last] + Newest(rest, position, count - 1) else Newest(rest, position, count)
  }

  lemma DescendingTakesLast<E>(events: seq<StoredEvent<E>>, length: nat)
    requires 0 < length <= |events|
    ensures Descending(events, |events| - 1, length) ==
      [events[|events| - 1]] + Descending(events[..|events| - 1], |events| - 2, length - 1)
  {
  }

  lemma BackwardTakesLast<E>(events: seq<StoredEvent<E>>, position: nat, count: int)
    requires events != [] && position >= |events| - 1 && count > 0
    ensures ReadBackward(events, position, count) ==
      [events[|events| - 1]] + ReadBackward(events[..|events| - 1], position, count - 1)
  {
    var length := if count < |events| then count else |events|;
    DescendingTakesLast(events, length);
    assert ReadBackward(events, position, count) == Descending(events, |events| - 1, length);
    assert ReadBackward(events[..|events| - 1], position, count - 1) ==
      Descending(events[..|events| - 1], |events| - 2, length - 1);
  }

  lemma BackwardIgnoresLast<E>(events: seq<StoredEvent<E>>, position: nat, count: int)
    requires position < |events| - 1
    ensures ReadBackward(events, position, count) == ReadBackward(events[..|events| - 1], position, count)
  {
  }

  lemma NewestOfNext<E>(events: seq<StoredEvent<E>>, position: int, count: int)
    requires events != [] && count > 0
    ensures
      var last, rest := events[|events| - 1], events[..|events| - 1];
      Newest(events, position, count) ==
        if last.position <= position then [last] + Newest(rest, position, count - 1) else Newest(rest, position, count)
  {
  }

  lemma InitEndsAt<E>(events: seq<StoredEvent<E>>)
    requires events != [] && EndsAt(events, |events| - 1)
    ensures EndsAt(events[..|events| - 1], |events| - 2) && events[|events| - 1].position == |events| - 1
  {
  }

  lemma LastIsNewest<E>(events: seq<StoredEvent<E>>, position: nat, count: int)
    requires events != [] && EndsAt(events, |events| - 1) && position >= |events| - 1 && count > 0
    requires
      var rest := events[..|events| - 1];
      ReadBackward(rest, position, count - 1) == Newest(rest, position, count - 1)
    ensures ReadBackward(events, position, count) == Newest(events, position, count)
  {
    InitEndsAt(events);
    NewestOfNext(events, position, count);
    BackwardTakesLast(events, position, count);
  }

  lemma LastIsTooNew<E>(events: seq<StoredEvent<E>>, position: nat, count: int)
    requires events != [] && EndsAt(events, |events| - 1) && position < |events| - 1 && count > 0
    requires
      var rest := events[..|events| - 1];
      ReadBackward(rest, position, count) == Newest(rest, position, count)
    ensures ReadBackward(events, position, count) == Newest(events, position, count)
  {
    InitEndsAt(events);
    NewestOfNext(events, position, count);
    BackwardIgnoresLast(events, position, count);
  }

  lemma {:induction false} BackwardFromStart<E>(events: seq<StoredEvent<E>>, position: nat, count: int)
    requires EndsAt(events, |events| - 1)
    ensures ReadBackward(events, position, count) == Newest(events, position, count)
    decreases |events|
  {
    if count > 0 && events != [] {
      var rest := events[..|events| - 1];
      InitEndsAt(events);
      if position >= |events| - 1 {
        BackwardFromStart(rest, position, count - 1);
        LastIsNewest(events, position, count);
      } else {
        BackwardFromStart(rest, position, count);
        LastIsTooNew(events, position, count);
      }
    }
  }

  /**
   * Backward reads index by list position, so they are right for every request exactly on streams that start at
   * position 0.
   */
  lemma BackwardReadIsExactIffUntruncated<E>(events: seq<StoredEvent<E>>, version: int)
    requires EndsAt(events, version)
    ensures (forall position: nat, count: int ::
      ReadBackward(events, position, count) == Newest(events, position, count))
       <==> (events == [] || events[0].position == 0)
  {
    if events == [] || events[0].position == 0 {
      if events != [] {
        assert version == |events| - 1;
        forall position: nat, count: int
          ensures ReadBackward(events, position, count) == Newest(events, position, count)
        {
          BackwardFromStart(events, position, count);
        }
      }
    } else {
      NothingBelow(events, 0, 1);
      assert ReadBackward(events, 0, 1) == [events[0]];
    }
  }

  lemma {:induction false} NothingBelow<E>(events: seq<StoredEvent<E>>, position: int, count: int)
    requires forall i | 0 <= i < |events| :: events[i].position > position
    ensures Newest(events, position, count) == []
    decreases |events|
  {
    if count > 0 && events != [] {
      NothingBelow(events[..|events| - 1], position, count);
    }
  }

  /*************** Streams nobody truncates or deletes ***************/

  function Payloads<E>(events: seq<StoredEvent<E>>): seq<E> {
    seq(|events|, i requires 0 <= i < |events| => events[i].event)
  }

  /** What was ever appended to one stream, in order. */
  function History<E>(log: seq<LoggedEvent<E>>, name: string): seq<E> {
    Payloads(Project(log, name))
  }

  /** The live stream holds its whole history, and its version counts it. */
  ghost predicate Intact<E>(s: StoreState<E>, name: string) {
    if name in s.streams then
      && Payloads(s.streams[name].events) == History(s.log, name)
      && s.streams[name].version == |History(s.log, name)| - 1
    else History(s.log, name) == []
  }

  lemma PayloadsConcat<E>(a: seq<StoredEvent<E>>, b: seq<StoredEvent<E>>)
    ensures Payloads(a + b) == Payloads(a) + Payloads(b)
  {
  }

  lemma PayloadsOfNumbered<E>(events: seq<E>, version: int)
    ensures Payloads(Numbered(events, version)) == events && Payloads<E>([]) == []
  {
  }

  lemma AppendExtendsHistory<E>(s: StoreState<E>, name: string, expected: ExpectedVersion, events: seq<E>,
                                other: string)
    requires Intact(s, other)
    ensures var (after, r) := Append(s, name, expected, events);
      && History(after.log, other) == History(s.log, other) + (if r.Success? && other == name then events else [])
      && Intact(after, other)
  {
    if Append(s, name, expected, events).1.Success? {
      var numbered := Numbered(events, StreamOrNew(s, name).version);
      ProjectConcat(s.log, Logged(name, numbered, |s.log|), other);
      ProjectLogged(name, numbered, |s.log|, other);
      PayloadsConcat(Project(s.log, other), if other == name then numbered else []);
      PayloadsConcat(StreamOrNew(s, name).events, numbered);
      PayloadsOfNumbered(events, StreamOrNew(s, name).version);
    } else {
      assert History(s.log, other) + [] == History(s.log, other);
    }
  }

  lemma HistoryOfNextPrefix<E>(log: seq<LoggedEvent<E>>, n: nat, name: string)
    requires n < |log|
    ensures History(log[..n + 1], name) ==
      History(log[..n], name) + if log[n].stream == name then [log[n].event] else []
  {
    assert log[..n + 1][..n] == log[..n];
  }

  lemma HistoryOfPrefix<E>(log: seq<LoggedEvent<E>>, n: nat, name: string)
    requires n <= |log|
    ensures History(log[..n], name) <= History(log, name)
  {
    assert log == log[..n] + log[n..];
    ProjectConcat(log[..n], log[n..], name);
  }

  /*************** A polling subscription ***************/

  datatype Poller<E> = Poller(position: Option<nat>, pending: seq<LoggedEvent<E>>, delivered: seq<LoggedEvent<E>>)

  datatype Subscribed<E> = Subscribed(store: StoreState<E>, poller: Poller<E>)

  datatype PollStep<E> = Store(op: Operation<E>) | Fetch(batchSize: nat) | Deliver

  function LastPosition<E>(log: seq<LoggedEvent<E>>): Option<nat> {
    if log == [] then None else Some(|log| - 1)
  }

  function Connect<E>(store: StoreState<E>, checkpoint: Option<nat>, fromLatest: bool): Subscribed<E> {
    var position := if checkpoint.None? && fromLatest then LastPosition(store.log) else checkpoint;
    Subscribed(store, Poller(position, [], []))
  }

  /** A subscription goes on behind its checkpoint; without one it starts at the first entry, or behind the latest. */
  lemma StartsBehindCheckpoint<E>(store: StoreState<E>, checkpoint: Option<nat>, fromLatest: bool)
    ensures var s := Connect(store, checkpoint, fromLatest);
            && s.store == store && s.poller.pending == [] && s.poller.delivered == []
            && NextRead(s.poller.position) ==
               match checkpoint { case Some(c) => c + 1 case None => if fromLatest then |store.log| else 0 }
  {
  }

  /** Fetching happens only with nothing pending, and the position moves with each delivery. */
  function PollNext<E>(s: Subscribed<E>, step: PollStep<E>): Subscribed<E> {
    match step
    case Store(op) => s.(store := Step(s.store, op))
    case Fetch(batchSize) =>
      if s.poller.pending != [] || batchSize < 1 then s
      else s.(poller := s.poller.(pending := ReadLog(s.store.log, s.poller.position, batchSize)))
    case Deliver =>
      if s.poller.pending == [] || s.poller.pending[0].globalPosition < 0 then s
      else s.(poller :=
        Poller(Some(s.poller.pending[0].globalPosition), s.poller.pending[1..],
               s.poller.delivered + [s.poller.pending[0]]))
  }

  function PollRun<E>(s: Subscribed<E>, steps: seq<PollStep<E>>): Subscribed<E>
    decreases |steps|
  {
    if steps == [] then s else PollNext(PollRun(s, steps[..|steps| - 1]), steps[|steps| - 1])
  }

  /** Delivered and pending events are consecutive pieces of the log from `start` on. */
  ghost predicate InOrder<E>(s: Subscribed<E>, start: nat) {
    var next := NextRead(s.poller.position);
    && start <= next
    && if next > |s.store.log| then s.poller.pending == [] && s.poller.delivered == [] && next == start
       else
         && s.poller.delivered == s.store.log[start..next]
         && s.poller.pending <= s.store.log[next..]
  }

  lemma SlicesOfLonger<T>(log: seq<T>, longer: seq<T>, start: nat, next: nat)
    requires start <= next <= |log| && log <= longer
    ensures longer[start..next] == log[start..next] && log[next..] <= longer[next..]
  {
    assert longer[..|log|] == log;
    assert longer[next..][..|log| - next] == log[next..];
  }

  lemma PrefixIsTransitive<T>(a: seq<T>, b: seq<T>, c: seq<T>)
    requires a <= b <= c
    ensures a <= c
  {
  }

  lemma GrowthKeepsOrder<E>(s: Subscribed<E>, store: StoreState<E>, start: nat)
    requires InOrder(s, start) && s.store.log <= store.log
    ensures InOrder(s.(store := store), start)
  {
    var next := NextRead(s.poller.position);
    if next <= |s.store.log| {
      SlicesOfLonger(s.store.log, store.log, start, next);
      PrefixIsTransitive(s.poller.pending, s.store.log[next..], store.log[next..]);
    } else if next <= |store.log| {
      assert store.log[start..next] == [] && [] <= store.log[next..];
    }
  }

  lemma ReadIsPrefix<E>(log: seq<LoggedEvent<E>>, position: Option<nat>, maxCount: nat)
    ensures var next := NextRead(position);
      if next > |log| then ReadLog(log, position, maxCount) == [] else ReadLog(log, position, maxCount) <= log[next..]
  {
  }

  lemma DeliverKeepsOrder<E>(s: Subscribed<E>, start: nat)
    requires Indexed(s.store.log) && InOrder(s, start) && s.poller.pending != []
    ensures InOrder(PollNext(s, Deliver), start)
  {
    var next, log := NextRead(s.poller.position), s.store.log;
    assert s.poller.pending[0] == log[next..][0] == log[next];
    assert log[start..next + 1] == log[start..next] + [log[next]];
    assert s.poller.pending[1..] <= log[next..][1..] == log[next + 1..];
  }

  lemma PollNextKeepsOrder<E>(s: Subscribed<E>, step: PollStep<E>, start: nat)
    requires Consistent(s.store) && InOrder(s, start)
    ensures Consistent(PollNext(s, step).store) && InOrder(PollNext(s, step), start)
    ensures s.store.log <= PollNext(s, step).store.log
  {
    match step
    case Store(op) =>
      StepKeepsConsistent(s.store, op);
      GrowthKeepsOrder(s, Step(s.store, op), start);
    case Fetch(batchSize) =>
      ReadIsPrefix(s.store.log, s.poller.position, batchSize);
    case Deliver =>
      if s.poller.pending != [] {
        DeliverKeepsOrder(s, start);
      }
  }

  lemma {:induction false} PollRunKeepsOrder<E>(s: Subscribed<E>, steps: seq<PollStep<E>>, start: nat)
    requires Consistent(s.store) && InOrder(s, start)
    ensures var now := PollRun(s, steps);
      Consistent(now.store) && InOrder(now, start) && s.store.log <= now.store.log
    decreases |steps|
  {
    if steps != [] {
      PollRunKeepsOrder(s, steps[..|steps| - 1], start);
      PollNextKeepsOrder(PollRun(s, steps[..|steps| - 1]), steps[|steps| - 1], start);
    }
  }

  lemma InOrderDelivers<E>(s: Subscribed<E>, start: nat)
    requires InOrder(s, start)
    ensures start <= |s.store.log| ==> s.poller.delivered <= s.store.log[start..]
    ensures start > |s.store.log| ==> s.poller.delivered == []
    ensures forall batchSize: nat | batchSize >= 1 && PollNext(s, Fetch(batchSize)).poller.pending == [] ::
      s.poller.delivered == if start <= |s.store.log| then s.store.log[start..] else []
  {
    var next := NextRead(s.poller.position);
    if next <= |s.store.log| {
      assert s.store.log[start..][..next - start] == s.store.log[start..next];
    }
  }

  /**
   * From any reachable store, any starting position, and with any interleaving of store operations,
   * fetches of any size and deliveries, what has been delivered is the log from the starting point:
   * every event once, in order, with no gap. When a fetch comes back empty nothing is left undelivered.
   */
  lemma PollingDeliversTheLog<E>(history: seq<Operation<E>>, checkpoint: Option<nat>, fromLatest: bool,
                                 steps: seq<PollStep<E>>)
    ensures
      var before := Connect(Run(EmptyStore(), history), checkpoint, fromLatest);
      var start := NextRead(before.poller.position);
      var now := PollRun(before, steps);
      && before.store.log <= now.store.log
      && (start <= |now.store.log| ==> now.poller.delivered <= now.store.log[start..])
      && (start > |now.store.log| ==> now.poller.delivered == [])
      && (fromLatest && checkpoint.None? ==> start == |before.store.log|)
      && forall batchSize: nat | batchSize >= 1 && PollNext(now, Fetch(batchSize)).poller.pending == [] ::
           now.poller.delivered == if start <= |now.store.log| then now.store.log[start..] else []
  {
    var before := Connect(Run(EmptyStore(), history), checkpoint, fromLatest);
    var start := NextRead(before.poller.position);
    assert history + [] == history;
    ReachableStatesAreConsistent(history, []);
    PollRunKeepsOrder(before, steps, start);
    InOrderDelivers(PollRun(before, steps), start);
  }
}
