/** Pipelines: the event fold, the aggregate's guards, interleaved commands and the listing projection. */
module Pipelines {
  import opened Wrappers
  import opened Text
  import opened CatalogueEvents
  import opened EventStore
  import opened EventStoreRuns

  /*************** State and events ***************/

  datatype Workspace = Workspace(displayName: string, displayScale: int, geometryRef: GeometryRef,
                                 owner: Option<string>, lockedAt: Option<int>) {
    function Id(): string {
      geometryRef.globalId
    }
  }

  datatype PipelineState = PipelineState(id: Option<string>, displayName: string, description: Option<string>,
                                         workspaces: seq<Workspace>, lastUpdated: int)

  const BLANK := PipelineState(None, "", Some(""), [], 0)

  function SetOwner(workspaces: seq<Workspace>, id: string, owner: Option<string>, at: Option<int>): (r: seq<Workspace>)
    ensures |r| == |workspaces|
    ensures forall i | 0 <= i < |r| ::
      r[i] == if workspaces[i].Id() == id then workspaces[i].(owner := owner, lockedAt := at) else workspaces[i]
  {
    seq(|workspaces|, i requires 0 <= i < |workspaces| =>
      if workspaces[i].Id() == id then workspaces[i].(owner := owner, lockedAt := at) else workspaces[i])
  }

  function Evolve(state: PipelineState, e: Event): PipelineState {
    match e
    case PipelineCreated(id, name, description, utc) =>
      state.(id := Some(id), displayName := name, description := description, lastUpdated := utc)
    case WorkspaceAdded(name, scale, geometry, utc) =>
      state.(workspaces := state.workspaces + [Workspace(name, scale, geometry, None, None)], lastUpdated := utc)
    case WorkspaceLocked(id, owner, utc) =>
      state.(workspaces := SetOwner(state.workspaces, id, Some(owner), Some(utc)), lastUpdated := utc)
    case WorkspaceUnlocked(id, _, utc) =>
      state.(workspaces := SetOwner(state.workspaces, id, None, None), lastUpdated := utc)
    case _ => state
  }

  function Fold(events: seq<Event>): PipelineState {
    if events == [] then BLANK else Evolve(Fold(events[..|events| - 1]), events[|events| - 1])
  }

  /*************** What a folded history shows ***************/

  ghost function CountAdded(events: seq<Event>): nat {
    if events == [] then 0
    else CountAdded(events[..|events| - 1]) + if events[|events| - 1].WorkspaceAdded? then 1 else 0
  }

  /** Who holds a workspace after these events, and since when: the newest claim for its identifier says so. */
  ghost function Holder(events: seq<Event>, id: string): (Option<string>, Option<int>) {
    if events == [] then (None, None) else
      match events[|events| - 1]
      case WorkspaceLocked(workspace, owner, utc) =>
        if workspace == id then (Some(owner), Some(utc)) else Holder(events[..|events| - 1], id)
      case WorkspaceUnlocked(workspace, _, _) =>
        if workspace == id then (None, None) else Holder(events[..|events| - 1], id)
      case _ => Holder(events[..|events| - 1], id)
  }

  ghost predicate ShowsAt(events: seq<Event>, p: nat)
    requires p < |events| && events[p].WorkspaceAdded?
  {
    var k := CountAdded(events[..p]);
    var workspaces := Fold(events).workspaces;
    && k < |workspaces|
    && var (owner, lockedAt) := Holder(events[p + 1..], events[p].geometryRef.globalId);
       workspaces[k] ==
         Workspace(events[p].displayName, events[p].displayScale, events[p].geometryRef, owner, lockedAt)
  }

  lemma {:induction false} CountGrows(events: seq<Event>, p: nat)
    requires p < |events| && events[p].WorkspaceAdded?
    ensures CountAdded(events[..p]) < CountAdded(events)
    decreases |events|
  {
    var init := events[..|events| - 1];
    if p < |init| {
      assert init[..p] == events[..p];
      CountGrows(init, p);
    } else {
      assert events[..p] == init;
    }
  }

  lemma ShownAtStays(events: seq<Event>, p: nat)
    requires p + 1 < |events| && events[p].WorkspaceAdded? && ShowsAt(events[..|events| - 1], p)
    requires |Fold(events[..|events| - 1]).workspaces| == CountAdded(events[..|events| - 1])
    ensures ShowsAt(events, p)
  {
    var init, e := events[..|events| - 1], events[|events| - 1];
    assert init[..p] == events[..p];
    CountGrows(init, p);
    var rest := events[p + 1..];
    assert rest[|rest| - 1] == e && rest[..|rest| - 1] == init[p + 1..];
  }

  /**
   * Every history folds to the workspaces it added, in order, each as it was described and held as the newest claim
   * made after its addition says.
   */
  lemma {:induction false} FoldShowsWorkspaces(events: seq<Event>)
    ensures |Fold(events).workspaces| == CountAdded(events)
    ensures forall p: nat | p < |events| && events[p].WorkspaceAdded? :: ShowsAt(events, p)
    decreases |events|
  {
    if events != [] {
      var init, e := events[..|events| - 1], events[|events| - 1];
      FoldShowsWorkspaces(init);
      forall p: nat | p < |events| && events[p].WorkspaceAdded? ensures ShowsAt(events, p) {
        if p < |init| {
          assert ShowsAt(init, p);
          ShownAtStays(events, p);
        } else {
          assert events[..p] == init && events[p + 1..] == [];
        }
      }
    }
  }

  /** The names shown are those of the newest creation, and the time is that of the newest event. */
  lemma {:induction false} FoldShowsPipeline(events: seq<Event>, p: nat)
    requires p < |events| && events[p].PipelineCreated?
    requires forall i | p < i < |events| :: !events[i].PipelineCreated?
    ensures Fold(events).id == Some(events[p].pipelineId) && Fold(events).displayName == events[p].displayName
    ensures Fold(events).description == events[p].description
    ensures IsPipelineEvent(events[|events| - 1]) ==> Fold(events).lastUpdated == events[|events| - 1].utc
    decreases |events|
  {
    if p < |events| - 1 {
      FoldShowsPipeline(events[..|events| - 1], p);
    }
  }

  /*************** The aggregate ***************/

  datatype Command =
    | Create(pipelineId: string, displayName: string, description: Option<string>, utc: int)
    | CreateWorkspace(pipelineId: string, displayName: string, displayScale: int, geometryRef: GeometryRef, utc: int)
    | LockWorkspace(pipelineId: string, workspaceId: string, username: string, utc: int)
    | UnlockWorkspace(pipelineId: string, workspaceId: string, username: string, utc: int)

  datatype CommandError =
    | AlreadyExists | DoesntExist | WorkspaceConflict | WorkspaceNotFound | SeveralWorkspaces | BlankUsername
    | Refused(error: StoreError)

  function Upper(upper: char -> char, s: string): string {
    seq(|s|, i requires 0 <= i < |s| => upper(s[i]))
  }

  /** Names compare without case, character by character under the invariant mapping `upper`. */
  predicate SameName(upper: char -> char, a: string, b: string) {
    Upper(upper, a) == Upper(upper, b)
  }

  predicate NameTaken(upper: char -> char, workspaces: seq<Workspace>, name: string) {
    exists w | w in workspaces :: SameName(upper, w.displayName, name)
  }

  predicate NamesUnique(upper: char -> char, workspaces: seq<Workspace>) {
    forall i, j | 0 <= i < j < |workspaces| :: !SameName(upper, workspaces[i].displayName, workspaces[j].displayName)
  }

  /** Two names are the same if they are equally long and agree, character by character, in upper case. */
  lemma SameNameMeans(upper: char -> char, a: string, b: string)
    ensures SameName(upper, a, b) <==> |a| == |b| && forall i | 0 <= i < |a| :: upper(a[i]) == upper(b[i])
  {
    var x, y := Upper(upper, a), Upper(upper, b);
    if |a| == |b| && forall i | 0 <= i < |a| :: upper(a[i]) == upper(b[i]) {
      assert x == y;
    }
    if x == y {
      forall i | 0 <= i < |a| ensures upper(a[i]) == upper(b[i]) {
        assert x[i] == y[i];
      }
    }
  }

  function WithId(workspaces: seq<Workspace>, id: string): (found: seq<Workspace>)
    ensures forall w :: w in found <==> w in workspaces && w.Id() == id
  {
    if workspaces == [] then [] else
      (if workspaces[0].Id() == id then [workspaces[0]] else []) + WithId(workspaces[1..], id)
  }

  function Decide(upper: char -> char, state: PipelineState, version: int, command: Command)
      : Result<seq<Event>, CommandError> {
    match command
    case Create(id, name, description, utc) =>
      if version >= 0 then Failure(AlreadyExists) else Success([PipelineCreated(id, name, description, utc)])
    case CreateWorkspace(_, name, scale, geometry, utc) =>
      if version < 0 then Failure(DoesntExist)
      else if NameTaken(upper, state.workspaces, name) then Failure(WorkspaceConflict)
      else Success([WorkspaceAdded(name, scale, geometry, utc)])
    case LockWorkspace(_, id, username, utc) =>
      if version < 0 then Failure(DoesntExist)
      else if IsBlank(username) then Failure(BlankUsername)
      else
        var found := WithId(state.workspaces, id);
        if found == [] then Failure(WorkspaceNotFound)
        else if |found| > 1 then Failure(SeveralWorkspaces)
        else if found[0].owner == Some(username) then Success([])
        else Success([WorkspaceLocked(id, username, utc)])
    case UnlockWorkspace(_, id, username, utc) =>
      if version < 0 then Failure(DoesntExist)
      else if IsBlank(username) then Failure(BlankUsername)
      else
        var found := WithId(state.workspaces, id);
        if found == [] then Failure(WorkspaceNotFound)
        else if |found| > 1 then Failure(SeveralWorkspaces)
        else if found[0].owner == None then Success([])
        else Success([WorkspaceUnlocked(id, username, utc)])
  }

  class Pipeline {
    const upper: char -> char
    var originalVersion: int
    var state: PipelineState
    var changes: seq<Event>

    constructor (upper: char -> char)
      ensures this.upper == upper && originalVersion == -1 && state == BLANK && changes == []
    {
      this.upper := upper;
      originalVersion, state, changes := -1, BLANK, [];
    }

    method Load(events: seq<Event>)
      requires originalVersion == -1 && state == BLANK && changes == []
      modifies this
      ensures originalVersion == |events| - 1 && state == Fold(events) && changes == []
    {
      for n := 0 to |events|
        invariant state == Fold(events[..n]) && originalVersion == n - 1 && changes == []
      {
        assert events[..n + 1][..n] == events[..n];
        state := Evolve(state, events[n]);
        originalVersion := originalVersion + 1;
      }
      assert events[..|events|] == events;
    }

    method Apply(e: Event)
      modifies this`state, this`changes
      ensures state == Evolve(old(state), e) && changes == old(changes) + [e]
    {
      state, changes := Evolve(state, e), changes + [e];
    }

    method Handle(command: Command) returns (r: Result<(), CommandError>)
      requires changes == []
      modifies this
      ensures originalVersion == old(originalVersion)
      ensures var decided := Decide(upper, old(state), originalVersion, command);
        && (r.Success? <==> decided.Success?)
        && (r.Failure? ==> r.error == decided.error && state == old(state) && changes == [])
        && (r.Success? ==>
             changes == decided.value
               && state == (if changes == [] then old(state) else Evolve(old(state), changes[0])))
    {
      match command {
        case Create(id, name, description, utc) =>
          if originalVersion >= 0 { return Failure(AlreadyExists); }
          Apply(PipelineCreated(id, name, description, utc));
        case CreateWorkspace(_, name, scale, geometry, utc) =>
          if originalVersion < 0 { return Failure(DoesntExist); }
          for n := 0 to |state.workspaces|
            invariant forall w | w in state.workspaces[..n] :: !SameName(upper, w.displayName, name)
            invariant state == old(state) && changes == [] && originalVersion == old(originalVersion)
          {
            if SameName(upper, state.workspaces[n].displayName, name) { return Failure(WorkspaceConflict); }
          }
          assert state.workspaces[..|state.workspaces|] == state.workspaces;
          Apply(WorkspaceAdded(name, scale, geometry, utc));
        case LockWorkspace(_, id, username, utc) =>
          if originalVersion < 0 { return Failure(DoesntExist); }
          if IsBlank(username) { return Failure(BlankUsername); }
          var found := WithId(state.workspaces, id);
          if found == [] { return Failure(WorkspaceNotFound); }
          if |found| > 1 { return Failure(SeveralWorkspaces); }
          if found[0].owner == Some(username) { return Success(()); }
          Apply(WorkspaceLocked(id, username, utc));
        case UnlockWorkspace(_, id, username, utc) =>
          if originalVersion < 0 { return Failure(DoesntExist); }
          if IsBlank(username) { return Failure(BlankUsername); }
          var found := WithId(state.workspaces, id);
          if found == [] { return Failure(WorkspaceNotFound); }
          if |found| > 1 { return Failure(SeveralWorkspaces); }
          if found[0].owner == None { return Success(()); }
          Apply(WorkspaceUnlocked(id, username, utc));
      }
      return Success(());
    }
  }

  /*************** What a stream may hold ***************/

  /** The event may follow a history that folds to `state`. */
  predicate MayFollow(upper: char -> char, id: string, state: PipelineState, isFirst: bool, e: Event) {
    match e
    case PipelineCreated(created, _, _, _) => isFirst && created == id
    case WorkspaceAdded(name, _, _, _) => !isFirst && !NameTaken(upper, state.workspaces, name)
    case WorkspaceLocked(workspace, owner, _) =>
      !isFirst && exists w | w in state.workspaces :: w.Id() == workspace && w.owner != Some(owner)
    case WorkspaceUnlocked(workspace, _, _) =>
      !isFirst && exists w | w in state.workspaces :: w.Id() == workspace && w.owner != None
    case _ => false
  }

  predicate Legal(upper: char -> char, id: string, events: seq<Event>) {
    events == [] ||
    var before := events[..|events| - 1];
    Legal(upper, id, before) && MayFollow(upper, id, Fold(before), before == [], events[|events| - 1])
  }

  lemma {:induction false} LegalPrefix(upper: char -> char, id: string, events: seq<Event>, n: nat)
    requires Legal(upper, id, events) && n <= |events|
    ensures Legal(upper, id, events[..n])
    decreases |events|
  {
    if n < |events| {
      LegalPrefix(upper, id, events[..|events| - 1], n);
      assert events[..|events| - 1][..n] == events[..n];
    } else {
      assert events[..n] == events;
    }
  }

  lemma {:induction false} NamesStayUnique(upper: char -> char, id: string, events: seq<Event>)
    requires Legal(upper, id, events)
    ensures NamesUnique(upper, Fold(events).workspaces)
    decreases |events|
  {
    if events != [] {
      NamesStayUnique(upper, id, events[..|events| - 1]);
    }
  }

  /** No two workspaces of a legal history have names of one length that agree in upper case. */
  lemma NamesDiffer(upper: char -> char, id: string, events: seq<Event>, i: nat, j: nat)
    requires Legal(upper, id, events) && i < j < |Fold(events).workspaces|
    ensures var a, b := Fold(events).workspaces[i].displayName, Fold(events).workspaces[j].displayName;
            |a| == |b| ==> exists k :: 0 <= k < |a| && upper(a[k]) != upper(b[k])
  {
    NamesStayUnique(upper, id, events);
    SameNameMeans(upper, Fold(events).workspaces[i].displayName, Fold(events).workspaces[j].displayName);
  }

  lemma {:induction false} CreatedFirstAndOnce(upper: char -> char, id: string, events: seq<Event>)
    requires Legal(upper, id, events)
    ensures forall i | 0 <= i < |events| :: events[i].PipelineCreated? <==> i == 0
    ensures events != [] ==> Fold(events).id == Some(id) == Some(events[0].pipelineId)
    decreases |events|
  {
    if events != [] {
      var before := events[..|events| - 1];
      CreatedFirstAndOnce(upper, id, before);
      assert forall i | 0 <= i < |before| :: events[i] == before[i];
    }
  }

  lemma ClaimMayFollow(upper: char -> char, id: string, state: PipelineState, version: int, command: Command)
    requires command.LockWorkspace? || command.UnlockWorkspace?
    requires Decide(upper, state, version, command).Success? && Decide(upper, state, version, command).value != []
    ensures MayFollow(upper, id, state, false, Decide(upper, state, version, command).value[0])
  {
    var found := WithId(state.workspaces, command.workspaceId);
    assert found[0] in found;
  }

  /** Whatever is decided is at most one event, and one that may follow. */
  lemma DecidedMayFollow(upper: char -> char, state: PipelineState, version: int, command: Command)
    requires Decide(upper, state, version, command).Success?
    ensures var added := Decide(upper, state, version, command).value;
      |added| <= 1 && (added != [] ==> MayFollow(upper, command.pipelineId, state, version < 0, added[0]))
  {
    if command.LockWorkspace? || command.UnlockWorkspace? {
      if Decide(upper, state, version, command).value != [] {
        ClaimMayFollow(upper, command.pipelineId, state, version, command);
      }
    }
  }

  lemma LegalExtends(upper: char -> char, id: string, events: seq<Event>, e: Event)
    requires Legal(upper, id, events) && MayFollow(upper, id, Fold(events), events == [], e)
    ensures Legal(upper, id, events + [e])
  {
    assert (events + [e])[..|events|] == events;
  }

  /*************** Interleaved commands and the projection ***************/

  function PipelineStream(id: string): string {
    StreamName("Pipeline", id)
  }

  predicate IsPipelineStream(name: string) {
    name == PipelineStream(GetId(name))
  }

  /** A command between its load and its append, with the history it saw. */
  datatype Session = Session(command: Command, seen: seq<Event>)

  datatype System = System(store: StoreState<Event>, sessions: seq<Session>, consumed: nat, listing: map<string,
                           PipelineState>)

  datatype SystemStep = Begin(command: Command) | Commit(session: nat) | Foreign(name: string,
      expected: ExpectedVersion, events: seq<Event>) | Consume

  const EMPTY := System(EmptyStore(), [], 0, map[])

  /** Creation expects a new stream and loads nothing; every other command loads and fails without a stream. */
  function Load(s: System, command: Command): Result<Session, CommandError> {
    var name := PipelineStream(command.pipelineId);
    if command.Create? then Success(Session(command, []))
    else if name !in s.store.streams then Failure(Refused(StreamNotFound))
    else Success(Session(command, Payloads(s.store.streams[name].events)))
  }

  function CommitSession(upper: char -> char, store: StoreState<Event>, session: Session)
      : (StoreState<Event>, Result<seq<Event>, CommandError>) {
    var decided := Decide(upper, Fold(session.seen), |session.seen| - 1, session.command);
    if decided.Failure? || decided.value == [] then (store, decided)
    else
      var (after, r) :=
        Append(store, PipelineStream(session.command.pipelineId), Exactly(|session.seen| - 1), decided.value);
      (after, if r.Success? then decided else Failure(Refused(r.error)))
  }

  datatype HandlingStatus = Handled | Ignored | Failed

  function Show(listing: map<string, PipelineState>, stream: string, e: Event)
      : (map<string, PipelineState>, HandlingStatus) {
    match e
    case PipelineCreated(id, _, _, _) => (if id in listing then listing else listing[id := Evolve(BLANK, e)], Handled)
    case WorkspaceAdded(_, _, _, _) => Update(listing, GetId(stream), e)
    case WorkspaceLocked(_, _, _) => Update(listing, GetId(stream), e)
    case WorkspaceUnlocked(_, _, _) => Update(listing, GetId(stream), e)
    case _ => (listing, Ignored)
  }

  function Update(listing: map<string, PipelineState>, id: string, e: Event)
      : (map<string, PipelineState>, HandlingStatus) {
    if id in listing then (listing[id := Evolve(listing[id], e)], Handled) else (listing, Failed)
  }

  /** Other aggregates write their own streams and their own events; the subscription consumes the log in order. */
  function Next(upper: char -> char, s: System, step: SystemStep): System {
    match step
    case Begin(command) =>
      (match Load(s, command)
       case Success(session) => s.(sessions := s.sessions + [session])
       case Failure(_) => s)
    case Commit(i) =>
      if i >= |s.sessions| then s
      else s.(store := CommitSession(upper, s.store, s.sessions[i]).0,
              sessions := s.sessions[..i] + s.sessions[i + 1..])
    case Foreign(name, expected, events) =>
      if IsPipelineStream(name) || exists e | e in events :: IsPipelineEvent(e) then s
      else s.(store := Append(s.store, name, expected, events).0)
    case Consume =>
      if s.consumed >= |s.store.log| then s
      else
        var entry := s.store.log[s.consumed];
        s.(consumed := s.consumed + 1, listing := Show(s.listing, entry.stream, entry.event).0)
  }

  function Run(upper: char -> char, steps: seq<SystemStep>): System {
    if steps == [] then EMPTY else Next(upper, Run(upper, steps[..|steps| - 1]), steps[|steps| - 1])
  }

  class InMemoryPipelineRepository {
    var pipelines: map<string, PipelineState>

    constructor ()
      ensures pipelines == map[]
    {
      pipelines := map[];
    }

    method HandleEvent(stream: string, e: Event) returns (status: HandlingStatus)
      modifies this
      ensures (pipelines, status) == Show(old(pipelines), stream, e)
    {
      match e {
        case PipelineCreated(_, _, _, _) => status := HandleCreated(e);
        case WorkspaceAdded(_, _, _, _) => status := HandleUpdated(GetId(stream), e);
        case WorkspaceLocked(_, _, _) => status := HandleUpdated(GetId(stream), e);
        case WorkspaceUnlocked(_, _, _) => status := HandleUpdated(GetId(stream), e);
        case _ => status := Ignored;
      }
    }

    method HandleCreated(e: Event) returns (status: HandlingStatus)
      requires e.PipelineCreated?
      modifies this
      ensures pipelines == if e.pipelineId in old(pipelines) then old(pipelines)
        else old(pipelines)[e.pipelineId := Evolve(BLANK, e)]
      ensures status == Handled
    {
      if e.pipelineId !in pipelines {
        pipelines := pipelines[e.pipelineId := Evolve(BLANK, e)];
      }
      return Handled;
    }

    method HandleUpdated(id: string, e: Event) returns (status: HandlingStatus)
      modifies this
      ensures (pipelines, status) == Update(old(pipelines), id, e)
    {
      if id in pipelines {
        pipelines := pipelines[id := Evolve(pipelines[id], e)];
        return Handled;
      }
      return Failed;
    }
  }

  /*************** What every run keeps ***************/

  /** Pipeline streams have legal histories, and no other stream holds a pipeline event. */
  ghost predicate StreamOk(upper: char -> char, s: StoreState<Event>, name: string) {
    && Intact(s, name)
    && if IsPipelineStream(name) then Legal(upper, GetId(name), History(s.log, name))
       else forall e | e in History(s.log, name) :: !IsPipelineEvent(e)
  }

  predicate SawPrefix(s: StoreState<Event>, session: Session) {
    session.seen <= History(s.log, PipelineStream(session.command.pipelineId))
  }

  /** The entry for one pipeline is the fold of what was consumed of its stream. */
  predicate Shows(log: seq<LoggedEvent<Event>>, listing: map<string, PipelineState>, id: string) {
    var consumed := History(log, PipelineStream(id));
    if consumed == [] then id !in listing else id in listing && listing[id] == Fold(consumed)
  }

  ghost predicate Sound(upper: char -> char, s: System) {
    && (forall name: string :: StreamOk(upper, s.store, name))
    && (forall session | session in s.sessions :: SawPrefix(s.store, session))
    && s.consumed <= |s.store.log|
    && (forall id: string :: Shows(s.store.log[..s.consumed], s.listing, id))
  }

  lemma PipelineStreamId(id: string)
    ensures GetId(PipelineStream(id)) == id && IsPipelineStream(PipelineStream(id))
  {
    GetIdOfStreamName("Pipeline", id);
  }

  lemma ForeignKeepsStreamOk(upper: char -> char, s: StoreState<Event>, name: string, expected: ExpectedVersion,
                             events: seq<Event>, other: string)
    requires StreamOk(upper, s, other) && !IsPipelineStream(name)
    requires forall e | e in events :: !IsPipelineEvent(e)
    ensures StreamOk(upper, Append(s, name, expected, events).0, other)
  {
    AppendExtendsHistory(s, name, expected, events, other);
    assert History(s.log, other) + [] == History(s.log, other);
  }

  /** An append that meets its expected version extends exactly the history it was decided from. */
  lemma OwnAppendKeepsStreamOk(upper: char -> char, s: StoreState<Event>, id: string, seen: seq<Event>, e: Event)
    requires StreamOk(upper, s, PipelineStream(id)) && seen <= History(s.log, PipelineStream(id))
    requires Legal(upper, id, seen) ==> MayFollow(upper, id, Fold(seen), seen == [], e)
    ensures var (after, r) := Append(s, PipelineStream(id), Exactly(|seen| - 1), [e]);
      StreamOk(upper, after, PipelineStream(id))
        && History(s.log, PipelineStream(id)) <= History(after.log, PipelineStream(id))
  {
    var name := PipelineStream(id);
    PipelineStreamId(id);
    AppendExtendsHistory(s, name, Exactly(|seen| - 1), [e], name);
    if Append(s, name, Exactly(|seen| - 1), [e]).1.Success? {
      assert seen == History(s.log, name);
      LegalExtends(upper, id, seen, e);
    } else {
      assert History(s.log, name) + [] == History(s.log, name);
    }
  }

  lemma OtherAppendKeepsStreamOk(upper: char -> char, s: StoreState<Event>, name: string, expected: ExpectedVersion,
                                 events: seq<Event>, other: string)
    requires StreamOk(upper, s, other) && name != other
    ensures var after := Append(s, name, expected, events).0;
      StreamOk(upper, after, other) && History(s.log, other) <= History(after.log, other)
  {
    AppendExtendsHistory(s, name, expected, events, other);
    assert History(s.log, other) + [] == History(s.log, other);
  }

  /**
   * A session's append keeps every stream legal, because its expected version makes it land only on the history it saw.
   */
  lemma CommitKeepsStreamOk(upper: char -> char, s: StoreState<Event>, session: Session, other: string)
    requires StreamOk(upper, s, other) && StreamOk(upper, s, PipelineStream(session.command.pipelineId))
      && SawPrefix(s, session)
    ensures StreamOk(upper, CommitSession(upper, s, session).0, other)
    ensures History(s.log, other) <= History(CommitSession(upper, s, session).0.log, other)
  {
    var id, seen := session.command.pipelineId, session.seen;
    var decided := Decide(upper, Fold(seen), |seen| - 1, session.command);
    if decided.Success? && decided.value != [] {
      DecidedMayFollow(upper, Fold(seen), |seen| - 1, session.command);
      assert decided.value == [decided.value[0]];
      if other == PipelineStream(id) {
        OwnAppendKeepsStreamOk(upper, s, id, seen, decided.value[0]);
      } else {
        OtherAppendKeepsStreamOk(upper, s, PipelineStream(id), Exactly(|seen| - 1), decided.value, other);
      }
    }
  }

  lemma OwnEntryShows(listing: map<string, PipelineState>, id: string, before: seq<Event>, e: Event)
    requires if before == [] then id !in listing else id in listing && listing[id] == Fold(before)
    requires IsPipelineEvent(e) && (e.PipelineCreated? <==> before == []) && (e.PipelineCreated? ==> e.pipelineId == id)
    ensures var after := Show(listing, PipelineStream(id), e).0; id in after && after[id] == Fold(before + [e])
  {
    PipelineStreamId(id);
    assert (before + [e])[..|before|] == before;
  }

  lemma OtherEntryShows(listing: map<string, PipelineState>, id: string, stream: string, e: Event)
    requires IsPipelineEvent(e) ==> GetId(stream) != id && (e.PipelineCreated? ==> e.pipelineId == GetId(stream))
    ensures
      var after := Show(listing, stream, e).0;
      (id in after <==> id in listing) && (id in listing ==> after[id] == listing[id])
  {
  }

  lemma DeliveryShows(upper: char -> char, s: System, id: string)
    requires Sound(upper, s) && s.consumed < |s.store.log|
    ensures var entry := s.store.log[s.consumed];
      Shows(s.store.log[..s.consumed + 1], Show(s.listing, entry.stream, entry.event).0, id)
  {
    var log, n := s.store.log, s.consumed;
    var entry := log[n];
    var name := PipelineStream(id);
    var before := History(log[..n], name);
    HistoryOfNextPrefix(log, n, name);
    assert Shows(log[..n], s.listing, id);
    assert StreamOk(upper, s.store, entry.stream);
    PipelineStreamId(id);
    EntryFits(upper, s, n);
    if entry.stream == name {
      OwnEntryShows(s.listing, id, before, entry.event);
    } else {
      assert before + [] == before;
      OtherEntryShows(s.listing, id, entry.stream, entry.event);
    }
  }

  /** The next entry either opens its own pipeline, or updates one already consumed, or is no pipeline event. */
  lemma EntryFits(upper: char -> char, s: System, n: nat)
    requires n < |s.store.log| && StreamOk(upper, s.store, s.store.log[n].stream)
    ensures var entry := s.store.log[n];
      IsPipelineEvent(entry.event) ==>
        && IsPipelineStream(entry.stream)
        && (entry.event.PipelineCreated? <==> History(s.store.log[..n], entry.stream) == [])
        && (entry.event.PipelineCreated? ==> entry.event.pipelineId == GetId(entry.stream))
    ensures IsPipelineStream(s.store.log[n].stream) ==> IsPipelineEvent(s.store.log[n].event)
  {
    var log, name := s.store.log, s.store.log[n].stream;
    HistoryOfNextPrefix(log, n, name);
    HistoryOfPrefix(log, n + 1, name);
    var before, upTo, all := History(log[..n], name), History(log[..n + 1], name), History(log, name);
    assert all[|upTo| - 1] == upTo[|upTo| - 1] == log[n].event && all[..|upTo|] == upTo;
    assert log[n].event in all;
    if IsPipelineStream(name) {
      LegalPrefix(upper, GetId(name), all, |upTo|);
      assert upTo[..|upTo| - 1] == before;
    }
  }

  lemma PrefixOfGrown(s: StoreState<Event>, after: StoreState<Event>, session: Session)
    requires SawPrefix(s, session)
    requires var name := PipelineStream(session.command.pipelineId); History(s.log, name) <= History(after.log, name)
    ensures SawPrefix(after, session)
  {
  }

  lemma CommitKeepsSound(upper: char -> char, s: System, i: nat)
    requires Sound(upper, s) && i < |s.sessions|
    ensures Sound(upper, Next(upper, s, Commit(i)))
  {
    var session, after := s.sessions[i], Next(upper, s, Commit(i));
    assert SawPrefix(s.store, session) && StreamOk(upper, s.store, PipelineStream(session.command.pipelineId));
    forall name: string
      ensures StreamOk(upper, after.store, name) && History(s.store.log, name) <= History(after.store.log, name)
    {
      assert StreamOk(upper, s.store, name);
      CommitKeepsStreamOk(upper, s.store, session, name);
    }
    forall other | other in after.sessions
      ensures SawPrefix(after.store, other)
    {
      assert other in s.sessions && SawPrefix(s.store, other);
      PrefixOfGrown(s.store, after.store, other);
    }
    assert after.store.log[..s.consumed] == s.store.log[..s.consumed];
  }

  lemma ForeignKeepsSound(upper: char -> char, s: System, name: string, expected: ExpectedVersion, events: seq<Event>)
    requires Sound(upper, s)
    ensures Sound(upper, Next(upper, s, Foreign(name, expected, events)))
  {
    var after := Next(upper, s, Foreign(name, expected, events));
    if !IsPipelineStream(name) && forall e | e in events :: !IsPipelineEvent(e) {
      forall other: string
        ensures StreamOk(upper, after.store, other) && History(s.store.log, other) <= History(after.store.log, other)
      {
        assert StreamOk(upper, s.store, other);
        ForeignKeepsStreamOk(upper, s.store, name, expected, events, other);
        AppendExtendsHistory(s.store, name, expected, events, other);
      }
      forall session | session in after.sessions
        ensures SawPrefix(after.store, session)
      {
        PrefixOfGrown(s.store, after.store, session);
      }
      assert after.store.log[..s.consumed] == s.store.log[..s.consumed];
    }
  }

  lemma DeliveryKeepsSound(upper: char -> char, s: System)
    requires Sound(upper, s) && s.consumed < |s.store.log|
    ensures Sound(upper, Next(upper, s, Consume))
  {
    var after := Next(upper, s, Consume);
    var consumed := after.store.log[..after.consumed];
    forall id: string
      ensures Shows(consumed, after.listing, id)
    {
      DeliveryShows(upper, s, id);
    }
  }

  lemma NextKeepsSound(upper: char -> char, s: System, step: SystemStep)
    requires Sound(upper, s)
    ensures Sound(upper, Next(upper, s, step))
  {
    match step
    case Begin(command) =>
      assert StreamOk(upper, s.store, PipelineStream(command.pipelineId));
    case Commit(i) =>
      if i < |s.sessions| {
        CommitKeepsSound(upper, s, i);
      }
    case Foreign(name, expected, events) => ForeignKeepsSound(upper, s, name, expected, events);
    case Consume =>
      if s.consumed < |s.store.log| {
        DeliveryKeepsSound(upper, s);
      }
  }

  lemma {:induction false} RunsAreSound(upper: char -> char, steps: seq<SystemStep>)
    ensures Sound(upper, Run(upper, steps))
    decreases |steps|
  {
    if steps != [] {
      RunsAreSound(upper, steps[..|steps| - 1]);
      NextKeepsSound(upper, Run(upper, steps[..|steps| - 1]), steps[|steps| - 1]);
    }
  }

  /** Under every interleaving: creation first and once, unique names, and a listing that agrees with replay. */
  lemma PipelinesStayWellFormed(upper: char -> char, steps: seq<SystemStep>, id: string)
    ensures Run(upper, steps).consumed <= |Run(upper, steps).store.log|
    ensures
      var s := Run(upper, steps);
      var all := History(s.store.log, PipelineStream(id));
      var consumed := History(s.store.log[..s.consumed], PipelineStream(id));
      && (forall i | 0 <= i < |all| :: all[i].PipelineCreated? <==> i == 0)
      && (all != [] ==> all[0].pipelineId == id)
      && NamesUnique(upper, Fold(all).workspaces)
      && consumed <= all
      && (id in s.listing <==> consumed != [])
      && (id in s.listing ==> s.listing[id] == Fold(consumed))
  {
    RunsAreSound(upper, steps);
    var s := Run(upper, steps);
    PipelineStreamId(id);
    assert StreamOk(upper, s.store, PipelineStream(id)) && Shows(s.store.log[..s.consumed], s.listing, id);
    NamesStayUnique(upper, id, History(s.store.log, PipelineStream(id)));
    CreatedFirstAndOnce(upper, id, History(s.store.log, PipelineStream(id)));
    HistoryOfPrefix(s.store.log, s.consumed, PipelineStream(id));
  }

  /** No delivery ever meets an update before its pipeline's creation. */
  lemma NoDeliveryFails(upper: char -> char, steps: seq<SystemStep>)
    ensures var s := Run(upper, steps);
      s.consumed < |s.store.log| ==>
        var entry := s.store.log[s.consumed];
        Show(s.listing, entry.stream, entry.event).1 == if IsPipelineEvent(entry.event) then Handled else Ignored
  {
    RunsAreSound(upper, steps);
    var s := Run(upper, steps);
    if s.consumed < |s.store.log| {
      var entry := s.store.log[s.consumed];
      assert StreamOk(upper, s.store, entry.stream);
      EntryFits(upper, s, s.consumed);
      assert Shows(s.store.log[..s.consumed], s.listing, GetId(entry.stream));
    }
  }

  lemma StaleAppendIsRefused(s: StoreState<Event>, name: string, seen: nat, events: seq<Event>)
    requires Intact(s, name) && seen < |History(s.log, name)|
    ensures Append(s, name, Exactly(seen - 1), events).0.log == s.log
  {
  }

  lemma StaleCommitIsRefused(upper: char -> char, s: StoreState<Event>, session: Session)
    requires var name := PipelineStream(session.command.pipelineId);
      Intact(s, name) && |session.seen| < |History(s.log, name)|
    ensures CommitSession(upper, s, session).0.log == s.log
  {
    var decided := Decide(upper, Fold(session.seen), |session.seen| - 1, session.command);
    if decided.Success? {
      StaleAppendIsRefused(s, PipelineStream(session.command.pipelineId), |session.seen|, decided.value);
    }
  }

  lemma AppendGrows(s: StoreState<Event>, name: string, seen: nat, events: seq<Event>)
    requires Intact(s, name) && seen <= |History(s.log, name)|
    requires Append(s, name, Exactly(seen - 1), events).1.Success?
    ensures var after := Append(s, name, Exactly(seen - 1), events).0;
      Intact(after, name) && seen < |History(after.log, name)|
  {
    AppendExtendsHistory(s, name, Exactly(seen - 1), events, name);
  }

  lemma CommitGrows(upper: char -> char, s: StoreState<Event>, session: Session)
    requires Intact(s, PipelineStream(session.command.pipelineId)) && SawPrefix(s, session)
    requires var (after, r) := CommitSession(upper, s, session); r.Success? && r.value != []
    ensures
      var name := PipelineStream(session.command.pipelineId);
      var after := CommitSession(upper, s, session).0;
      Intact(after, name) && |session.seen| < |History(after.log, name)|
  {
    var decided := Decide(upper, Fold(session.seen), |session.seen| - 1, session.command);
    AppendGrows(s, PipelineStream(session.command.pipelineId), |session.seen|, decided.value);
  }

  /** Of two commands that saw the same history of a pipeline, at most one appends. */
  lemma OneOfTwoRacersWins(upper: char -> char, s: StoreState<Event>, a: Session, b: Session)
    requires a.command.pipelineId == b.command.pipelineId && a.seen == b.seen
    requires Intact(s, PipelineStream(a.command.pipelineId)) && SawPrefix(s, a)
    requires var (after, r) := CommitSession(upper, s, a); r.Success? && r.value != []
    ensures var after := CommitSession(upper, s, a).0;
      CommitSession(upper, after, b).0.log == after.log
  {
    CommitGrows(upper, s, a);
    StaleCommitIsRefused(upper, CommitSession(upper, s, a).0, b);
  }

  lemma SingleMatch(workspaces: seq<Workspace>, id: string)
    requires |WithId(workspaces, id)| == 1
    ensures exists i :: 0 <= i < |workspaces| && workspaces[i].Id() == id
    ensures forall i | 0 <= i < |workspaces| && workspaces[i].Id() == id :: workspaces[i] == WithId(workspaces, id)[0]
  {
    var found := WithId(workspaces, id);
    assert found[0] in found;
    assert forall w | w in found :: w == found[0];
    assert forall i | 0 <= i < |workspaces| && workspaces[i].Id() == id :: workspaces[i] in found;
  }

  /**
   * Claiming makes the user the owner of that one workspace, releasing clears its owner, and no other workspace
   * changes.
   */
  lemma ClaimsChangeOneWorkspace(upper: char -> char, state: PipelineState, version: int, command: Command)
    requires command.LockWorkspace? || command.UnlockWorkspace?
    requires Decide(upper, state, version, command).Success?
    ensures
      var added := Decide(upper, state, version, command).value;
      var before := state.workspaces;
      var after := (if added == [] then state else Evolve(state, added[0])).workspaces;
      && |added| <= 1 && |after| == |before|
      && (exists i :: 0 <= i < |before| && before[i].Id() == command.workspaceId)
      && forall i | 0 <= i < |after| ::
           if before[i].Id() == command.workspaceId
           then after[i].owner == (if command.LockWorkspace? then Some(command.username) else None)
           else after[i] == before[i]
  {
    SingleMatch(state.workspaces, command.workspaceId);
  }

  /*************** Something does happen ***************/

  lemma RunNext(upper: char -> char, steps: seq<SystemStep>, step: SystemStep)
    ensures Run(upper, steps + [step]) == Next(upper, Run(upper, steps), step)
  {
    assert (steps + [step])[..|steps|] == steps;
  }

  ghost function Creation(id: string, name: string, description: Option<string>, utc: int): seq<SystemStep> {
    [Begin(Create(id, name, description, utc)), Commit(0), Consume]
  }

  lemma CreationIsCommitted(upper: char -> char, id: string, name: string, description: Option<string>, utc: int)
    ensures var created := PipelineCreated(id, name, description, utc);
            var s := Run(upper, [Begin(Create(id, name, description, utc)), Commit(0)]);
            && s.sessions == [] && s.consumed == 0 && s.listing == map[]
            && s.store.streams == map[PipelineStream(id) := StreamState([StoredEvent(created, 0)], 0)]
            && s.store.log == [LoggedEvent(PipelineStream(id), created, 0, 0)]
  {
    var command, created := Create(id, name, description, utc), PipelineCreated(id, name, description, utc);
    RunNext(upper, [], Begin(command));
    RunNext(upper, [Begin(command)], Commit(0));
    assert [] + [Begin(command)] == [Begin(command)];
    assert [Begin(command)] + [Commit(0)] == [Begin(command), Commit(0)];
    var session := Session(command, []);
    var begun := Run(upper, [Begin(command)]);
    assert begun.sessions == [] + [session] == [session];
    assert Fold([]) == BLANK;
    assert Decide(upper, BLANK, -1, command) == Success([created]);
    CommitOne(upper, session, created);
  }

  lemma CommitOne(upper: char -> char, session: Session, created: Event)
    requires session.command.Create? && session.seen == []
    requires Decide(upper, BLANK, -1, session.command) == Success([created])
    ensures var name := PipelineStream(session.command.pipelineId);
            CommitSession(upper, EmptyStore(), session).0 ==
            StoreState(map[name := StreamState([StoredEvent(created, 0)], 0)], [LoggedEvent(name, created, 0, 0)])
  {
    var name := PipelineStream(session.command.pipelineId);
    assert Fold(session.seen) == BLANK;
    var numbered := Numbered([created], -1);
    assert numbered == [StoredEvent(created, 0)];
    assert Logged(name, numbered, 0) == [LoggedEvent(name, created, 0, 0)];
    var empty: seq<StoredEvent<Event>> := [];
    var log: seq<LoggedEvent<Event>> := [];
    assert empty + numbered == numbered;
    assert log + Logged(name, numbered, 0) == Logged(name, numbered, 0);
  }

  /** A creation that nothing disturbs ends up in the listing as it was asked for. */
  lemma CreationIsListed(upper: char -> char, id: string, name: string, description: Option<string>, utc: int)
    ensures Run(upper, Creation(id, name, description, utc)).listing ==
            map[id := PipelineState(Some(id), name, description, [], utc)]
  {
    CreationIsCommitted(upper, id, name, description, utc);
    var steps: seq<SystemStep> := [Begin(Create(id, name, description, utc)), Commit(0)];
    RunNext(upper, steps, Consume);
    assert steps + [Consume] == Creation(id, name, description, utc);
  }

  lemma LastTakenOut<T>(s: seq<T>, x: T)
    ensures (s + [x])[|s|] == x && (s + [x])[..|s|] + (s + [x])[|s| + 1..] == s
  {
  }

  /** What is loaded last and committed next leaves the other sessions as they were. */
  lemma BeginAndCommit(upper: char -> char, s: System, command: Command, session: Session)
    requires Load(s, command) == Success(session)
    ensures var after := Next(upper, Next(upper, s, Begin(command)), Commit(|s.sessions|));
            after.sessions == s.sessions && after.store == CommitSession(upper, s.store, session).0
  {
    LastTakenOut(s.sessions, session);
  }

  /**
   * In every reachable state a command that nothing disturbs appends what it decides: creation from nothing, every
   * other command from the whole history of its stream.
   */
  lemma UndisturbedCommandLands(upper: char -> char, steps: seq<SystemStep>, command: Command, e: Event)
    requires var s, name := Run(upper, steps), PipelineStream(command.pipelineId);
             var history := History(s.store.log, name);
             && (if command.Create? then history == [] else name in s.store.streams)
             && Decide(upper, Fold(history), |history| - 1, command) == Success([e])
    ensures var s, name := Run(upper, steps), PipelineStream(command.pipelineId);
            var after := Run(upper, steps + [Begin(command)] + [Commit(|s.sessions|)]);
            after.sessions == s.sessions && History(after.store.log, name) == History(s.store.log, name) + [e]
  {
    var s, name := Run(upper, steps), PipelineStream(command.pipelineId);
    var history := History(s.store.log, name);
    RunsAreSound(upper, steps);
    assert StreamOk(upper, s.store, name);
    RunNext(upper, steps, Begin(command));
    RunNext(upper, steps + [Begin(command)], Commit(|s.sessions|));
    BeginAndCommit(upper, s, command, Session(command, history));
    AppendExtendsHistory(s.store, name, Exactly(|history| - 1), [e], name);
  }
}
