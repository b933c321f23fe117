/** The in-memory event store: per-stream logs and one global log under optimistic concurrency. */
module EventStore {
  import opened Wrappers

  datatype ExpectedVersion = AnyVersion | Exactly(version: int)

  datatype StoreError = WrongVersion | NoEvents | StreamNotFound | CountOutOfRange

  datatype StoredEvent<E> = StoredEvent(event: E, position: int)

  datatype LoggedEvent<E> = LoggedEvent(stream: string, event: E, revision: int, globalPosition: int)

  datatype AppendResult = AppendResult(globalPosition: int, version: int)

  /*************** The state as a value ***************/

  datatype StreamState<E> = StreamState(events: seq<StoredEvent<E>>, version: int)

  datatype StoreState<E> = StoreState(streams: map<string, StreamState<E>>, log: seq<LoggedEvent<E>>)

  function NewStream<E>(): StreamState<E> {
    StreamState([], -1)
  }

  function EmptyStore<E>(): StoreState<E> {
    StoreState(map[], [])
  }

  predicate VersionMatches(expected: ExpectedVersion, version: int) {
    expected.AnyVersion? || expected.version == version
  }

  /** The events numbered on from a stream version. */
  function Numbered<E>(events: seq<E>, version: int): seq<StoredEvent<E>> {
    seq(|events|, i requires 0 <= i < |events| => StoredEvent(events[i], version + 1 + i))
  }

  function Logged<E>(name: string, numbered: seq<StoredEvent<E>>, start: int): seq<LoggedEvent<E>> {
    seq(|numbered|,
        i requires 0 <= i < |numbered| => LoggedEvent(name, numbered[i].event, numbered[i].position, start + i))
  }

  function AppendToStream<E>(s: StreamState<E>, events: seq<E>): StreamState<E> {
    StreamState(s.events + Numbered(events, s.version), s.version + |events|)
  }

  function StreamOrNew<E>(s: StoreState<E>, name: string): StreamState<E> {
    if name in s.streams then s.streams[name] else NewStream()
  }

  /** A refused append may still have created the stream, because the stream is looked up or added before the check. */
  function Append<E>(s: StoreState<E>, name: string, expected: ExpectedVersion, events: seq<E>)
      : (StoreState<E>, Result<AppendResult, StoreError>) {
    if events == [] then (s, Failure(NoEvents)) else
      var stream := StreamOrNew(s, name);
      if !VersionMatches(expected, stream.version)
        then (s.(streams := s.streams[name := stream]), Failure(WrongVersion))
      else
        var log := s.log + Logged(name, Numbered(events, stream.version), |s.log|);
        (StoreState(s.streams[name := AppendToStream(stream, events)], log),
         Success(AppendResult(|log| - 1, stream.version + |events|)))
  }

  datatype StreamAppend<E> = StreamAppend(name: string, expected: ExpectedVersion, events: seq<E>)

  function AppendBatch<E>(s: StoreState<E>, appends: seq<StreamAppend<E>>)
      : (StoreState<E>, Result<seq<AppendResult>, StoreError>)
    decreases |appends|
  {
    if appends == [] then (s, Success([])) else
      var a := appends[|appends| - 1];
      var (before, results) := AppendBatch(s, appends[..|appends| - 1]);
      match results
      case Failure(e) => (before, Failure(e))
      case Success(rs) =>
        var (after, r) := Append(before, a.name, a.expected, a.events);
        match r
        case Failure(e) => (after, Failure(e))
        case Success(last) => (after, Success(rs + [last]))
  }

  /** A prefix of the batch that failed decides the whole batch: nothing after it is applied. */
  lemma {:induction false} BatchStops<E>(s: StoreState<E>, appends: seq<StreamAppend<E>>, n: nat)
    requires n <= |appends|
    ensures AppendBatch(s, appends[..n]).1.Failure? ==> AppendBatch(s, appends) == AppendBatch(s, appends[..n])
    decreases |appends|
  {
    if n < |appends| {
      var init := appends[..|appends| - 1];
      assert init[..n] == appends[..n];
      BatchStops(s, init, n);
    } else {
      assert appends[..n] == appends;
    }
  }

  function DropUpTo<E>(events: seq<StoredEvent<E>>, position: int): (kept: seq<StoredEvent<E>>)
    ensures |kept| <= |events|
  {
    if events == [] then [] else
      (if events[0].position <= position then [] else [events[0]]) + DropUpTo(events[1..], position)
  }

  /** `mustExist` is the flag an expected version carries for streams that have to be there. */
  function Truncate<E>(s: StoreState<E>, name: string, position: int, expected: ExpectedVersion, mustExist: bool)
      : (StoreState<E>, Result<(), StoreError>) {
    if name !in s.streams && mustExist then (s, Failure(StreamNotFound)) else
      var stream := StreamOrNew(s, name);
      if !VersionMatches(expected, stream.version) then (s, Failure(WrongVersion))
      else if name !in s.streams then (s, Success(()))
      else (s.(streams := s.streams[name := StreamState(DropUpTo(stream.events, position), stream.version)]),
            Success(()))
  }

  /** Deletion forgets the stream and leaves the global log alone. */
  function Delete<E>(s: StoreState<E>, name: string, expected: ExpectedVersion, mustExist: bool)
      : (StoreState<E>, Result<(), StoreError>) {
    if name !in s.streams && mustExist then (s, Failure(StreamNotFound)) else
      if !VersionMatches(expected, StreamOrNew(s, name).version) then (s, Failure(WrongVersion))
      else (s.(streams := s.streams - {name}), Success(()))
  }

  function SkipWhileBelow<E>(events: seq<StoredEvent<E>>, from: int): seq<StoredEvent<E>> {
    if events != [] && events[0].position < from then SkipWhileBelow(events[1..], from) else events
  }

  /** Positions are consecutive and end at the stream's version. */
  predicate EndsAt<E>(events: seq<StoredEvent<E>>, version: int) {
    |events| <= version + 1 && forall i | 0 <= i < |events| :: events[i].position == version + 1 - |events| + i
  }

  /** The events at or after a position. */
  function From<E>(events: seq<StoredEvent<E>>, position: int): seq<StoredEvent<E>> {
    if events == [] then [] else
      (if events[0].position >= position then [events[0]] else []) + From(events[1..], position)
  }

  lemma {:induction false} AllFrom<E>(events: seq<StoredEvent<E>>, position: int)
    requires forall i | 0 <= i < |events| :: events[i].position >= position
    ensures From(events, position) == events
    decreases |events|
  {
    if events != [] {
      AllFrom(events[1..], position);
    }
  }

  function ReadForward<E>(events: seq<StoredEvent<E>>, from: int, count: int): seq<StoredEvent<E>> {
    var selected := SkipWhileBelow(events, from);
    if 0 < count < |selected| then selected[..count] else selected
  }

  function Descending<E>(events: seq<StoredEvent<E>>, top: int, length: nat): (r: seq<StoredEvent<E>>)
    requires length <= top + 1 <= |events|
    ensures |r| == length && forall i | 0 <= i < length :: r[i] == events[top - i]
  {
    seq(length, i requires 0 <= i < length => events[top - i])
  }

  /** Indexes the list by the requested stream position. */
  function ReadBackward<E>(events: seq<StoredEvent<E>>, from: nat, count: int): seq<StoredEvent<E>> {
    if count <= 0 || events == [] then [] else
      var position := if from >= |events| then |events| - 1 else from;
      Descending(events, position, if count < position + 1 then count else position + 1)
  }

  /** On a live stream, truncated or not, a forward read is the events from the position on, or the first of them. */
  lemma {:induction false} ForwardReadIsExact<E>(events: seq<StoredEvent<E>>, version: int, from: int, count: int)
    requires EndsAt(events, version)
    ensures SkipWhileBelow(events, from) == From(events, from)
    ensures
      var all := From(events, from);
      ReadForward(events, from, count) == if 0 < count < |all| then all[..count] else all
    decreases |events|
  {
    if events != [] && events[0].position < from {
      ForwardReadIsExact(events[1..], version, from, count);
    } else {
      AllFrom(events, from);
    }
  }

  /** Truncation keeps exactly the events behind the position, in order. */
  lemma {:induction false} TruncationKeepsLater<E>(events: seq<StoredEvent<E>>, position: int)
    ensures DropUpTo(events, position) == From(events, position + 1)
    ensures forall e :: e in DropUpTo(events, position) <==> e in events && e.position > position
    decreases |events|
  {
    if events != [] {
      assert events == [events[0]] + events[1..];
      TruncationKeepsLater(events[1..], position);
    }
  }

  /** The global position a subscription reads from next, given the last one it handled. */
  function NextRead(after: Option<nat>): nat {
    if after.Some? then after.value + 1 else 0
  }

  function ReadLog<E>(log: seq<LoggedEvent<E>>, after: Option<nat>, maxCount: nat): seq<LoggedEvent<E>> {
    var start := NextRead(after);
    if start >= |log| then [] else
      var count := if maxCount < |log| - start then maxCount else |log| - start;
      log[start..start + count]
  }

  /** The log from a position on, cut off at the count. */
  predicate IsPage<E(==)>(page: seq<LoggedEvent<E>>, log: seq<LoggedEvent<E>>, next: nat, maxCount: int) {
    && (forall i | 0 <= i < |page| :: next + i < |log| && page[i] == log[next + i])
    && |page| <= maxCount && (|page| == maxCount || next + |page| >= |log|)
  }

  /*************** The classes ***************/

  class InMemoryStream<E> {
    var events: seq<StoredEvent<E>>
    var version: int

    constructor ()
      ensures State() == NewStream()
    {
      events, version := [], -1;
    }

    function State(): StreamState<E>
      reads this
    {
      StreamState(events, version)
    }

    method AppendEvents(expected: ExpectedVersion, added: seq<E>) returns (r: Result<seq<StoredEvent<E>>, StoreError>)
      modifies this
      ensures r == if VersionMatches(expected, old(version)) then Success(Numbered(added, old(version)))
        else Failure(WrongVersion)
      ensures State() == if r.Success? then AppendToStream(old(State()), added) else old(State())
    {
      if !VersionMatches(expected, version) {
        return Failure(WrongVersion);
      }
      var appended: seq<StoredEvent<E>> := [];
      for n := 0 to |added|
        invariant version == old(version) + n && appended == Numbered(added, old(version))[..n]
        invariant events == old(events) + appended
      {
        version := version + 1;
        events := events + [StoredEvent(added[n], version)];
        appended := appended + [StoredEvent(added[n], version)];
      }
      assert appended == Numbered(added, old(version));
      return Success(appended);
    }

    method Truncate(expected: ExpectedVersion, position: int) returns (r: Result<(), StoreError>)
      modifies this
      ensures r == if VersionMatches(expected, old(version)) then Success(()) else Failure(WrongVersion)
      ensures State() == if r.Success? then StreamState(DropUpTo(old(events), position), old(version)) else old(State())
    {
      if !VersionMatches(expected, version) {
        return Failure(WrongVersion);
      }
      events := DropUpTo(events, position);
      return Success(());
    }

    method GetEventsBackwards(from: nat, count: int) returns (result: seq<StoredEvent<E>>)
      ensures result == ReadBackward(events, from, count)
    {
      result := [];
      var es := events;
      if count <= 0 || es == [] {
        return;
      }
      var top := if from >= |es| then |es| - 1 else from;
      var position, left := top, count;
      while left > 0 && position >= 0
        invariant -1 <= position <= top < |es| && 0 <= left && left == count - (top - position)
        invariant |result| == top - position && forall i | 0 <= i < |result| :: result[i] == es[top - i]
      {
        result := result + [es[position]];
        position, left := position - 1, left - 1;
      }
    }
  }

  class InMemoryEventStore<E> {
    var storage: map<string, InMemoryStream<E>>
    var global: seq<LoggedEvent<E>>

    ghost predicate Valid()
      reads this
    {
      forall a, b | a in storage && b in storage && storage[a] == storage[b] :: a == b
    }

    function State(): StoreState<E>
      reads this, storage.Values
    {
      StoreState(map name | name in storage :: storage[name].State(), global)
    }

    constructor ()
      ensures Valid() && State() == EmptyStore()
    {
      storage, global := map[], [];
    }

    method GetOrAdd(name: string) returns (stream: InMemoryStream<E>)
      requires Valid()
      modifies this`storage
      ensures Valid() && fresh(storage.Values - old(storage.Values))
      ensures name in storage && storage[name] == stream
      ensures State() == old(State()).(streams := old(State()).streams[name := StreamOrNew(old(State()), name)])
    {
      if name in storage {
        stream := storage[name];
      } else {
        stream := new InMemoryStream<E>();
        storage := storage[name := stream];
      }
    }

    /** Changing one stream object changes that stream's entry only. */
    twostate lemma OnlyOneStreamChanged(name: string)
      requires old(Valid()) && name in storage && storage == old(storage) && global == old(global)
      requires forall s | s in storage.Values && s != storage[name] :: unchanged(s)
      ensures State() == old(State()).(streams := old(State()).streams[name := storage[name].State()])
    {
      forall n | n in storage && n != name
        ensures storage[n].State() == old(storage[n].State())
      {
        assert storage[n] in storage.Values && storage[n] != storage[name];
      }
    }

    method AddToGlobal(name: string, appended: seq<StoredEvent<E>>)
      modifies this`global
      ensures global == old(global) + Logged(name, appended, |old(global)|)
    {
      for n := 0 to |appended|
        invariant global == old(global) + Logged(name, appended, |old(global)|)[..n]
      {
        global := global + [LoggedEvent(name, appended[n].event, appended[n].position, |global|)];
      }
    }

    method AppendToOne(name: string, expected: ExpectedVersion, events: seq<E>)
        returns (r: Result<seq<StoredEvent<E>>, StoreError>, version: int)
      requires Valid()
      modifies this`storage, storage.Values
      ensures Valid() && fresh(storage.Values - old(storage.Values))
      ensures var stream := StreamOrNew(old(State()), name);
        && r ==
             (if VersionMatches(expected, stream.version) then Success(Numbered(events, stream.version))
               else Failure(WrongVersion))
        && State().streams ==
             old(State()).streams[name := if r.Success? then AppendToStream(stream, events) else stream]
        && version == State().streams[name].version
    {
      var stream := GetOrAdd(name);
      assert State().streams[name] == StreamOrNew(old(State()), name);
      label Found:
      r := stream.AppendEvents(expected, events);
      version := stream.version;
      OnlyOneStreamChanged@Found(name);
    }

    method AppendEvents(name: string, expected: ExpectedVersion, events: seq<E>)
        returns (r: Result<AppendResult, StoreError>)
      requires Valid()
      modifies this, storage.Values
      ensures Valid() && fresh(storage.Values - old(storage.Values))
      ensures (State(), r) == Append(old(State()), name, expected, events)
    {
      if events == [] {
        return Failure(NoEvents);
      }
      var appended, version := AppendToOne(name, expected, events);
      if appended.Failure? {
        return Failure(appended.error);
      }
      ghost var streams := State().streams;
      AddToGlobal(name, appended.value);
      assert State().streams == streams;
      return Success(AppendResult(|global| - 1, version));
    }

    method AppendBatchEvents(appends: seq<StreamAppend<E>>) returns (r: Result<seq<AppendResult>, StoreError>)
      requires Valid()
      modifies this, storage.Values
      ensures Valid() && fresh(storage.Values - old(storage.Values))
      ensures (State(), r) == AppendBatch(old(State()), appends)
    {
      var results := [];
      for n := 0 to |appends|
        invariant Valid() && fresh(storage.Values - old(storage.Values))
        invariant (State(), Success(results)) == AppendBatch(old(State()), appends[..n])
      {
        assert appends[..n + 1][..n] == appends[..n];
        BatchStops(old(State()), appends, n + 1);
        var a := appends[n];
        var result := AppendEvents(a.name, a.expected, a.events);
        if result.Failure? {
          return Failure(result.error);
        }
        results := results + [result.value];
      }
      assert appends[..|appends|] == appends;
      return Success(results);
    }

    method TruncateStream(name: string, position: int, expected: ExpectedVersion, mustExist: bool)
        returns (r: Result<(), StoreError>)
      requires Valid()
      modifies storage.Values
      ensures Valid()
      ensures (State(), r) == Truncate(old(State()), name, position, expected, mustExist)
    {
      if name !in storage {
        if mustExist {
          return Failure(StreamNotFound);
        }
        var stream := new InMemoryStream<E>();
        r := stream.Truncate(expected, position);
        assert State() == old(State());
      } else {
        r := storage[name].Truncate(expected, position);
        OnlyOneStreamChanged(name);
        assert State() == Truncate(old(State()), name, position, expected, mustExist).0;
      }
    }

    method DeleteStream(name: string, expected: ExpectedVersion, mustExist: bool) returns (r: Result<(), StoreError>)
      requires Valid()
      modifies this`storage
      ensures Valid() && storage.Values <= old(storage.Values)
      ensures (State(), r) == Delete(old(State()), name, expected, mustExist)
    {
      if name !in storage && mustExist {
        return Failure(StreamNotFound);
      }
      var version := if name in storage then storage[name].version else -1;
      if !VersionMatches(expected, version) {
        return Failure(WrongVersion);
      }
      storage := storage - {name};
      assert State() == Delete(old(State()), name, expected, mustExist).0;
      return Success(());
    }

    method ReadEvents(name: string, from: int, count: int) returns (r: Result<seq<StoredEvent<E>>, StoreError>)
      requires Valid()
      ensures r.Failure? <==> name !in storage
      ensures r.Failure? ==> r.error == StreamNotFound
      ensures r.Success? ==> r.value == ReadForward(storage[name].events, from, count)
      ensures r.Success? && EndsAt(storage[name].events, storage[name].version) ==>
        var all := From(storage[name].events, from);
        r.value <= all && |r.value| == if 0 < count < |all| then count else |all|
    {
      if name !in storage {
        return Failure(StreamNotFound);
      }
      if EndsAt(storage[name].events, storage[name].version) {
        ForwardReadIsExact(storage[name].events, storage[name].version, from, count);
      }
      return Success(ReadForward(storage[name].events, from, count));
    }

    method ReadAll(after: Option<nat>, maxCount: int) returns (r: Result<seq<LoggedEvent<E>>, StoreError>)
      ensures r.Failure? <==> maxCount < 1
      ensures r.Failure? ==> r.error == CountOutOfRange
      ensures r.Success? ==> IsPage(r.value, global, NextRead(after), maxCount)
    {
      if maxCount < 1 {
        return Failure(CountOutOfRange);
      }
      return Success(ReadLog(global, after, maxCount));
    }

    /** One subscription polling until it is told that nothing is left, while nobody appends. */
    method Poll(position: Option<nat>, batchSize: nat) returns (delivered: seq<LoggedEvent<E>>, reached: Option<nat>)
      requires batchSize >= 1 && forall i | 0 <= i < |global| :: global[i].globalPosition == i
      ensures delivered == if NextRead(position) <= |global| then global[NextRead(position)..] else []
      ensures NextRead(reached) == if NextRead(position) <= |global| then |global| else NextRead(position)
    {
      delivered, reached := [], position;
      var start := NextRead(position);
      while true
        invariant start <= NextRead(reached) && (NextRead(reached) <= |global| || reached == position)
        invariant delivered == if start <= |global| then global[start..NextRead(reached)] else []
        decreases |global| - NextRead(reached)
      {
        var events := ReadAll(reached, batchSize);
        if events.value == [] {
          PageIsSlice(events.value, global, NextRead(reached), batchSize);
          break;
        }
        ghost var first, count := NextRead(reached), |events.value|;
        PageContinues(events.value, global, start, first, batchSize);
        reached, delivered := Handle(events.value, first, delivered);
        assert NextRead(reached) == first + count;
      }
    }

    /** The position follows each delivered event. */
    method Handle(events: seq<LoggedEvent<E>>, ghost first: nat, before: seq<LoggedEvent<E>>)
        returns (position: Option<nat>, delivered: seq<LoggedEvent<E>>)
      requires events != [] && forall i | 0 <= i < |events| :: events[i].globalPosition == first + i
      ensures position == Some(first + |events| - 1) && delivered == before + events
    {
      position, delivered := None, before;
      for n := 0 to |events|
        invariant n > 0 ==> position == Some(first + n - 1)
        invariant delivered == before + events[..n]
      {
        delivered := delivered + [events[n]];
        position := Some(events[n].globalPosition);
      }
    }
  }

  lemma PageIsSlice<E>(page: seq<LoggedEvent<E>>, log: seq<LoggedEvent<E>>, next: nat, maxCount: nat)
    requires IsPage(page, log, next, maxCount) && maxCount >= 1
    ensures page == [] ==> next >= |log|
    ensures page != [] ==> next + |page| <= |log| && page == log[next..next + |page|]
  {
    if page != [] {
      var last := |page| - 1;
      assert page[last] == log[next + last];
      assert page == log[next..next + |page|];
    }
  }

  lemma PageContinues<E>(page: seq<LoggedEvent<E>>, log: seq<LoggedEvent<E>>, start: nat, next: nat, maxCount: nat)
    requires IsPage(page, log, next, maxCount) && maxCount >= 1 && page != [] && start <= next
    requires forall i | 0 <= i < |log| :: log[i].globalPosition == i
    ensures next + |page| <= |log| && log[start..next] + page == log[start..next + |page|]
    ensures forall i | 0 <= i < |page| :: page[i].globalPosition == next + i
  {
    PageIsSlice(page, log, next, maxCount);
    SlicesMeet(log, start, next, next + |page|);
  }

  lemma SlicesMeet<T>(s: seq<T>, a: nat, b: nat, c: nat)
    requires a <= b <= c <= |s|
    ensures s[a..b] + s[b..c] == s[a..c]
  {
  }
}
