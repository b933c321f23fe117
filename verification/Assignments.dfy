/** Package-to-pipeline assignments: the binding aggregate, the last-position-wins index and its two writers. */
module Assignments {
  import opened Wrappers
  import opened Text
  import opened CatalogueEvents
  import opened EventStore
  import opened EventStoreRuns

  /*************** The binding aggregate ***************/

  datatype BindingState = BindingState(isActive: bool, id: Option<string>, packageId: Option<string>,
                                       pipelineId: Option<string>, lastUpdated: int)

  const UNBOUND := BindingState(false, None, None, None, 0)

  function Evolve(state: BindingState, e: Event): BindingState {
    match e
    case Binded(id, package, pipeline, utc) => BindingState(true, Some(id), Some(package), Some(pipeline), utc)
    case Unbound(_, _, _, utc) => state.(isActive := false, lastUpdated := utc)
    case _ => state
  }

  function Fold(events: seq<Event>): BindingState {
    if events == [] then UNBOUND else Evolve(Fold(events[..|events| - 1]), events[|events| - 1])
  }

  datatype Command = Bind(id: string, packageId: string, pipelineId: string) | Restore(id: string) | Unbind(id: string)

  datatype BindingError = AlreadyExists | DoesntExist | AlreadyAssigned | Incomplete

  function Decide(state: BindingState, version: int, command: Command, utc: int): Result<seq<Event>, BindingError> {
    if command.Bind? then
      if version >= 0 then Failure(AlreadyExists)
      else Success([Binded(command.id, command.packageId, command.pipelineId, utc)])
    else if version < 0 then Failure(DoesntExist)
    else if command.Restore? && state.isActive then Failure(AlreadyAssigned)
    else if command.Unbind? && !state.isActive then Success([])
    else if state.id.None? || state.packageId.None? || state.pipelineId.None? then Failure(Incomplete)
    else
      var (id, package, pipeline) := (state.id.value, state.packageId.value, state.pipelineId.value);
      Success([if command.Restore? then Binded(id, package, pipeline, utc) else Unbound(id, package, pipeline, utc)])
  }

  class Binding {
    var originalVersion: int
    var state: BindingState
    var changes: seq<Event>

    constructor (events: seq<Event>)
      ensures originalVersion == |events| - 1 && state == Fold(events) && changes == []
    {
      originalVersion, state, changes := |events| - 1, UNBOUND, [];
      new;
      for n := 0 to |events|
        invariant state == Fold(events[..n]) && originalVersion == |events| - 1 && changes == []
      {
        assert events[..n + 1][..n] == events[..n];
        state := Evolve(state, events[n]);
      }
      assert events[..|events|] == events;
    }

    method Apply(e: Event)
      modifies this`state, this`changes
      ensures state == Evolve(old(state), e) && changes == old(changes) + [e]
    {
      state, changes := Evolve(state, e), changes + [e];
    }

    /** On any binding stream's history the aggregate applies what `Decide` says. */
    method Handle(command: Command, utc: int) returns (r: Result<(), BindingError>)
      requires changes == []
      modifies this
      ensures originalVersion == old(originalVersion)
      ensures var decided := Decide(old(state), originalVersion, command, utc);
        && (r.Success? <==> decided.Success?)
        && (r.Failure? ==> r.error == decided.error && state == old(state) && changes == [])
        && (r.Success? ==>
             changes == decided.value
               && state == (if changes == [] then old(state) else Evolve(old(state), changes[0])))
    {
      match command {
        case Bind(id, package, pipeline) =>
          if originalVersion >= 0 { return Failure(AlreadyExists); }
          Apply(Binded(id, package, pipeline, utc));
        case Restore(_) =>
          if originalVersion < 0 { return Failure(DoesntExist); }
          if state.isActive { return Failure(AlreadyAssigned); }
          if state.id.None? || state.packageId.None? || state.pipelineId.None? { return Failure(Incomplete); }
          Apply(Binded(state.id.value, state.packageId.value, state.pipelineId.value, utc));
        case Unbind(_) =>
          if originalVersion < 0 { return Failure(DoesntExist); }
          if state.isActive {
            if state.id.None? || state.packageId.None? || state.pipelineId.None? { return Failure(Incomplete); }
            Apply(Unbound(state.id.value, state.packageId.value, state.pipelineId.value, utc));
          }
      }
      return Success(());
    }
  }

  /*************** The index ***************/

  datatype Assignment = Assignment(active: bool, position: nat)

  type Index = map<string, map<string, Assignment>>

  function Lookup(index: Index, package: string, pipeline: string): Option<Assignment> {
    if package in index && pipeline in index[package] then Some(index[package][pipeline]) else None
  }

  predicate Active(index: Index, package: string, pipeline: string) {
    Lookup(index, package, pipeline).Some? && Lookup(index, package, pipeline).value.active
  }

  /** The entry with the greater position stays. */
  function Put(index: Index, package: string, pipeline: string, active: bool, position: nat): Index {
    var pipelines := if package in index then index[package] else map[];
    var kept := if pipeline in pipelines && position <= pipelines[pipeline].position then pipelines[pipeline]
      else Assignment(active, position);
    index[package := pipelines[pipeline := kept]]
  }

  class PipelineAssignmentIndex {
    var packages: Index

    constructor ()
      ensures packages == map[]
    {
      packages := map[];
    }

    method Update(package: string, pipeline: string, active: bool, position: nat)
      modifies this
      ensures packages == Put(old(packages), package, pipeline, active, position)
    {
      if package !in packages {
        packages := packages[package := map[]];
      }
      var pipelines := packages[package];
      if pipeline in pipelines {
        if position > pipelines[pipeline].position {
          pipelines := pipelines[pipeline := Assignment(active, position)];
        } else {
          assert pipelines[pipeline := pipelines[pipeline]] == pipelines;
        }
      } else {
        pipelines := pipelines[pipeline := Assignment(active, position)];
      }
      packages := packages[package := pipelines];
    }

    method Contains(package: string, pipeline: string) returns (r: bool)
      ensures r <==> Active(packages, package, pipeline)
    {
      return package in packages && pipeline in packages[package] && packages[package][pipeline].active;
    }

    method HasAssignments(package: string) returns (r: bool)
      ensures r <==> exists pipeline :: Active(packages, package, pipeline)
    {
      var pipelines := GetPipelines(package);
      r := pipelines != [];
      if r {
        assert Active(packages, package, pipelines[0]);
      }
    }

    /** The active pipelines, once each, in ordinal order. */
    method GetPipelines(package: string) returns (pipelines: seq<string>)
      ensures Ascending(pipelines)
      ensures forall pipeline :: pipeline in pipelines <==> Active(packages, package, pipeline)
    {
      pipelines := [];
      if package !in packages {
        return;
      }
      var left := packages[package].Keys;
      while left != {}
        invariant left <= packages[package].Keys
        invariant Ascending(pipelines)
        invariant forall p :: p in pipelines <==> p !in left && Active(packages, package, p)
        decreases left
      {
        var p :| p in left;
        left := left - {p};
        if packages[package][p].active {
          pipelines := InsertAscending(p, pipelines);
        }
      }
    }
  }

  /*************** Convergence ***************/

  predicate IsAbout(e: Event, package: string, pipeline: string) {
    IsBindingEvent(e) && e.packageId == package && e.boundPipelineId == pipeline
  }

  predicate Concerns(entry: LoggedEvent<Event>, package: string, pipeline: string) {
    IsAbout(entry.event, package, pipeline)
  }

  /** What either writer does with the log entry at position n. */
  function Arrive(index: Index, log: seq<LoggedEvent<Event>>, n: nat): Index
    requires n < |log|
  {
    var e := log[n].event;
    if IsBindingEvent(e) then Put(index, e.packageId, e.boundPipelineId, e.Binded?, n) else index
  }

  predicate Within(log: seq<LoggedEvent<Event>>, arrivals: seq<nat>) {
    forall i | 0 <= i < |arrivals| :: arrivals[i] < |log|
  }

  function ArriveAll(log: seq<LoggedEvent<Event>>, arrivals: seq<nat>): Index
    requires Within(log, arrivals)
    decreases |arrivals|
  {
    if arrivals == [] then map[] else Arrive(ArriveAll(log, arrivals[..|arrivals| - 1]), log, arrivals[|arrivals| - 1])
  }

  /** The entry for a pair is the update with the greatest position among those that arrived. */
  ghost predicate HoldsGreatest(index: Index, log: seq<LoggedEvent<Event>>, arrived: set<nat>, package: string,
                                pipeline: string)
    requires forall n | n in arrived :: n < |log|
  {
    match Lookup(index, package, pipeline)
    case None => forall n | n in arrived :: !Concerns(log[n], package, pipeline)
    case Some(a) =>
      && a.position in arrived && Concerns(log[a.position], package, pipeline)
      && a.active == log[a.position].event.Binded?
      && forall n | n in arrived && Concerns(log[n], package, pipeline) :: n <= a.position
  }

  function SetOf(s: seq<nat>): set<nat> {
    set n | n in s
  }

  lemma ArriveHoldsGreatest(index: Index, log: seq<LoggedEvent<Event>>, arrived: set<nat>, n: nat, package: string,
                            pipeline: string)
    requires n < |log| && forall m | m in arrived :: m < |log|
    requires HoldsGreatest(index, log, arrived, package, pipeline)
    ensures HoldsGreatest(Arrive(index, log, n), log, arrived + {n}, package, pipeline)
  {
  }

  lemma {:induction false} ArrivalsHoldGreatest(log: seq<LoggedEvent<Event>>, arrivals: seq<nat>, package: string,
                                                pipeline: string)
    requires Within(log, arrivals)
    ensures HoldsGreatest(ArriveAll(log, arrivals), log, SetOf(arrivals), package, pipeline)
    decreases |arrivals|
  {
    if arrivals != [] {
      var init, last := arrivals[..|arrivals| - 1], arrivals[|arrivals| - 1];
      ArrivalsHoldGreatest(log, init, package, pipeline);
      ArriveHoldsGreatest(ArriveAll(log, init), log, SetOf(init), last, package, pipeline);
      assert arrivals == init + [last];
      assert SetOf(arrivals) == SetOf(init) + {last};
    }
  }

  /** Order, delay and duplication do not matter: the same set of arrivals gives every pair the same entry. */
  lemma ArrivalOrderDoesNotMatter(log: seq<LoggedEvent<Event>>, a: seq<nat>, b: seq<nat>, package: string,
                                  pipeline: string)
    requires Within(log, a) && SetOf(a) == SetOf(b)
    ensures Within(log, b)
    ensures Lookup(ArriveAll(log, a), package, pipeline) == Lookup(ArriveAll(log, b), package, pipeline)
  {
    assert forall i | 0 <= i < |b| :: b[i] in SetOf(b);
    assert forall n | n in SetOf(a) :: n < |log|;
    ArrivalsHoldGreatest(log, a, package, pipeline);
    ArrivalsHoldGreatest(log, b, package, pipeline);
  }

  predicate IsNewest(log: seq<LoggedEvent<Event>>, arrived: set<nat>, n: nat, package: string, pipeline: string)
    requires forall m | m in arrived :: m < |log|
  {
    n in arrived && Concerns(log[n], package, pipeline)
    && forall m | m in arrived && Concerns(log[m], package, pipeline) :: m <= n
  }

  /** The index contains a pair exactly when the newest of the pair's entries that arrived binds it. */
  lemma ContainsMeansNewestBinds(log: seq<LoggedEvent<Event>>, arrivals: seq<nat>, package: string, pipeline: string)
    requires Within(log, arrivals)
    ensures Active(ArriveAll(log, arrivals), package, pipeline) <==>
      exists n: nat :: IsNewest(log, SetOf(arrivals), n, package, pipeline) && log[n].event.Binded?
  {
    ArrivalsHoldGreatest(log, arrivals, package, pipeline);
    var entry := Lookup(ArriveAll(log, arrivals), package, pipeline);
    if entry.Some? {
      assert IsNewest(log, SetOf(arrivals), entry.value.position, package, pipeline);
    }
  }

  /*************** Agreement with the binding streams ***************/

  function BindingId(package: string, pipeline: string): string {
    package + "::" + pipeline
  }

  function BindingStream(id: string): string {
    StreamName("Binding", id)
  }

  predicate IsBindingStream(name: string) {
    name == BindingStream(GetId(name))
  }

  predicate HasDoubleColon(s: string) {
    |s| >= 2 && ((s[0] == ':' && s[1] == ':') || HasDoubleColon(s[1..]))
  }

  lemma {:induction false} DoubleColonMeans(s: string)
    ensures HasDoubleColon(s) <==> exists a, b :: s == a + "::" + b
  {
    if |s| >= 2 {
      DoubleColonMeans(s[1..]);
      assert s == [s[0]] + s[1..];
      if s[0] == ':' && s[1] == ':' {
        assert s == "" + "::" + s[2..];
      } else if a, b :| s[1..] == a + "::" + b {
        assert s == ([s[0]] + a) + "::" + b;
      }
      if a, b :| s == a + "::" + b {
        if a == "" {
          assert s == "::" + b;
        } else {
          assert s[1..] == a[1..] + "::" + b;
        }
      }
    }
  }

  /** An event that may follow a binding stream's history: binding and unbinding alternate, for one pair only. */
  predicate MayFollow(id: string, state: BindingState, isFirst: bool, e: Event) {
    && IsBindingEvent(e) && e.bindingId == id == BindingId(e.packageId, e.boundPipelineId)
    && !HasDoubleColon(e.packageId) && !HasDoubleColon(e.boundPipelineId)
    && (e.Binded? <==> !state.isActive)
    && (if isFirst then e.Binded?
        else state.packageId == Some(e.packageId) && state.pipelineId == Some(e.boundPipelineId))
  }

  predicate Legal(id: string, events: seq<Event>) {
    events == [] ||
    var before := events[..|events| - 1];
    Legal(id, before) && MayFollow(id, Fold(before), before == [], events[|events| - 1])
  }

  /** What the state of a non-empty legal stream says. */
  predicate Settled(id: string, state: BindingState, active: bool) {
    && state.id == Some(id) && state.packageId.Some? && state.pipelineId.Some?
    && id == BindingId(state.packageId.value, state.pipelineId.value)
    && !HasDoubleColon(state.packageId.value) && !HasDoubleColon(state.pipelineId.value)
    && state.isActive == active
  }

  predicate AreAbout(events: seq<Event>, state: BindingState) {
    forall e | e in events ::
      IsBindingEvent(e) && state.packageId == Some(e.packageId) && state.pipelineId == Some(e.boundPipelineId)
  }

  predicate Alternate(events: seq<Event>) {
    forall i | 0 <= i < |events| :: events[i].Binded? <==> i % 2 == 0
  }

  lemma AlternateOn(before: seq<Event>, e: Event)
    requires Alternate(before) && (e.Binded? <==> |before| % 2 == 0)
    ensures Alternate(before + [e])
  {
  }

  lemma AboutOn(before: seq<Event>, state: BindingState, e: Event)
    requires before != [] ==> AreAbout(before, state)
    requires var next := Evolve(state, e);
      && IsBindingEvent(e) && next.packageId == Some(e.packageId) && next.pipelineId == Some(e.boundPipelineId)
      && (before != [] ==> next.packageId == state.packageId && next.pipelineId == state.pipelineId)
    ensures AreAbout(before + [e], Evolve(state, e))
  {
    forall x | x in before + [e]
      ensures x in before || x == e
    {
    }
  }

  /** What the events of one binding stream have in common. */
  lemma {:induction false} LegalMeans(id: string, events: seq<Event>)
    requires Legal(id, events)
    ensures events == [] ==> Fold(events) == UNBOUND
    ensures events != [] ==> Settled(id, Fold(events), events[|events| - 1].Binded?) && AreAbout(events, Fold(events))
    ensures Alternate(events)
    decreases |events|
  {
    if events != [] {
      var before, e := events[..|events| - 1], events[|events| - 1];
      LegalMeans(id, before);
      assert events == before + [e];
      if before != [] {
        assert before[|before| - 1].Binded? <==> (|before| - 1) % 2 == 0;
      }
      AlternateOn(before, e);
      AboutOn(before, Fold(before), e);
    }
  }

  lemma {:induction false} LegalPrefix(id: string, events: seq<Event>, n: nat)
    requires Legal(id, events) && n <= |events|
    ensures Legal(id, events[..n])
    decreases |events|
  {
    if n < |events| {
      LegalPrefix(id, events[..|events| - 1], n);
      assert events[..|events| - 1][..n] == events[..n];
    } else {
      assert events[..n] == events;
    }
  }

  /** Whether replaying the pair's binding stream leaves it assigned. */
  predicate Assigned(log: seq<LoggedEvent<Event>>, package: string, pipeline: string) {
    var state := Fold(History(log, BindingStream(BindingId(package, pipeline))));
    state.isActive && state.packageId == Some(package) && state.pipelineId == Some(pipeline)
  }

  ghost predicate StreamOk(s: StoreState<Event>, name: string) {
    && Intact(s, name)
    && if IsBindingStream(name) then Legal(GetId(name), History(s.log, name))
       else forall e | e in History(s.log, name) :: !IsBindingEvent(e)
  }

  lemma {:induction false} EntryInHistory(log: seq<LoggedEvent<Event>>, n: nat)
    requires n < |log|
    ensures log[n].event in History(log, log[n].stream)
    ensures (forall m | n < m < |log| :: log[m].stream != log[n].stream) ==>
      History(log, log[n].stream) != []
        && History(log, log[n].stream)[|History(log, log[n].stream)| - 1] == log[n].event
    decreases |log|
  {
    var init := log[..|log| - 1];
    assert log[..|log|] == log;
    HistoryOfNextPrefix(log, |log| - 1, log[n].stream);
    if n < |log| - 1 {
      EntryInHistory(init, n);
    }
  }

  lemma {:induction false} HistoryEntry(log: seq<LoggedEvent<Event>>, name: string)
    requires History(log, name) != []
    ensures exists n ::
      0 <= n < |log| && log[n].stream == name && log[n].event == History(log, name)[|History(log, name)| - 1]
    decreases |log|
  {
    var last := |log| - 1;
    if log != [] {
      assert log[..|log|] == log;
      HistoryOfNextPrefix(log, last, name);
      if log[last].stream != name {
        assert History(log[..last], name) + [] == History(log[..last], name);
        HistoryEntry(log[..last], name);
        var n :| 0 <= n < last && log[..last][n].stream == name
          && log[..last][n].event == History(log, name)[|History(log, name)| - 1];
        assert log[n].stream == name;
      } else {
        assert log[last].event == History(log, name)[|History(log, name)| - 1];
      }
    }
  }

  /** Every entry about a pair sits in that pair's stream, whose other entries are about the same pair. */
  lemma ConcernsMeansStream(s: StoreState<Event>, n: nat, package: string, pipeline: string)
    requires n < |s.log| && forall name: string :: StreamOk(s, name)
    ensures Concerns(s.log[n], package, pipeline) ==> s.log[n].stream == BindingStream(BindingId(package, pipeline))
    ensures Concerns(s.log[n], package, pipeline) ==>
      forall m | 0 <= m < |s.log| && s.log[m].stream == s.log[n].stream :: Concerns(s.log[m], package, pipeline)
  {
    var name := s.log[n].stream;
    assert StreamOk(s, name);
    EntryInHistory(s.log, n);
    if Concerns(s.log[n], package, pipeline) {
      LegalMeans(GetId(name), History(s.log, name));
      forall m | 0 <= m < |s.log| && s.log[m].stream == name
        ensures Concerns(s.log[m], package, pipeline)
      {
        EntryInHistory(s.log, m);
      }
    }
  }

  /** Once everything about a pair has arrived, in whatever order, the index and replay agree on it. */
  lemma ArrivedAgreesWithReplay(s: StoreState<Event>, index: Index, arrived: set<nat>, package: string,
                                pipeline: string)
    requires forall name: string :: StreamOk(s, name)
    requires (forall n | n in arrived :: n < |s.log|) && HoldsGreatest(index, s.log, arrived, package, pipeline)
    requires forall n | 0 <= n < |s.log| && Concerns(s.log[n], package, pipeline) :: n in arrived
    ensures Active(index, package, pipeline) <==> Assigned(s.log, package, pipeline)
  {
    var name := BindingStream(BindingId(package, pipeline));
    var history := History(s.log, name);
    GetIdOfStreamName("Binding", BindingId(package, pipeline));
    assert StreamOk(s, name);
    LegalMeans(BindingId(package, pipeline), history);
    match Lookup(index, package, pipeline) {
      case None =>
        if history != [] {
          HistoryEntry(s.log, name);
          var n :| 0 <= n < |s.log| && s.log[n].stream == name && s.log[n].event == history[|history| - 1];
          assert s.log[n].event in history;
          assert !Concerns(s.log[n], package, pipeline);
        }
      case Some(a) =>
        ConcernsMeansStream(s, a.position, package, pipeline);
        EntryInHistory(s.log, a.position);
    }
  }
}
