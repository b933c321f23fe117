/** Runs of the assignment service beside the subscription that projects the same events. */
module AssignmentRuns {
  import opened Wrappers
  import opened Text
  import opened CatalogueEvents
  import opened EventStore
  import opened EventStoreRuns
  import opened Assignments

  /*************** Binding identifiers ***************/

  lemma {:induction false} DoubleColonAt(s: string, i: nat)
    requires i + 1 < |s| && s[i] == ':' && s[i + 1] == ':'
    ensures HasDoubleColon(s)
  {
    if i > 0 {
      DoubleColonAt(s[1..], i - 1);
    }
  }

  lemma BindingIdParts(p: string, q: string)
    ensures var id := BindingId(p, q);
      |id| == |p| + 2 + |q| && id[..|p|] == p && id[|p|] == ':' && id[|p| + 1] == ':' && id[|p| + 2..] == q
  {
  }

  lemma ColonMovesOver(p: string, q: string)
    ensures BindingId(p + ":", q) == BindingId(p, ":" + q)
  {
    assert (p + ":") + "::" + q == p + "::" + (":" + q);
  }

  /** The two halves collide in one way only: a colon moves from the end of the package to the front of the pipeline. */
  lemma BindingIdsCollide(p: string, q: string, p2: string, q2: string)
    requires !HasDoubleColon(p) && !HasDoubleColon(p2)
    ensures BindingId(p, q) == BindingId(p2, q2) <==>
      (p == p2 && q == q2) || (p2 == p + ":" && q == ":" + q2) || (p == p2 + ":" && q2 == ":" + q)
  {
    ColonMovesOver(p, q2);
    ColonMovesOver(p2, q);
    if BindingId(p, q) == BindingId(p2, q2) {
      if |p| <= |p2| {
        ShorterPackageCollides(p, q, p2, q2);
      } else {
        ShorterPackageCollides(p2, q2, p, q);
      }
    }
  }

  lemma ShorterPackageCollides(p: string, q: string, p2: string, q2: string)
    requires !HasDoubleColon(p2) && |p| <= |p2| && BindingId(p, q) == BindingId(p2, q2)
    ensures (p == p2 && q == q2) || (p2 == p + ":" && q == ":" + q2)
  {
    var id := BindingId(p, q);
    BindingIdParts(p, q);
    BindingIdParts(p2, q2);
    assert p2[..|p|] == p;
    if |p2| >= |p| + 2 {
      assert p2[|p|] == id[|p|] && p2[|p| + 1] == id[|p| + 1];
      DoubleColonAt(p2, |p|);
    } else if |p2| == |p| + 1 {
      OneFurther(id, p, p2);
    }
  }

  lemma OneFurther(id: string, p: string, p2: string)
    requires |p2| == |p| + 1 && |p| + 3 <= |id| && id[..|p2|] == p2 && p2[..|p|] == p && id[|p|] == ':'
      && id[|p| + 2] == ':'
    ensures p2 == p + ":" && id[|p| + 2..] == ":" + id[|p| + 3..]
  {
    assert p2[|p|] == id[|p|];
    assert id[|p| + 2..] == [id[|p| + 2]] + id[|p| + 3..];
  }

  /*************** The identifiers that exist ***************/

  /** Which identifiers packages and pipelines are created under. */
  datatype Issued = Issued(package: string -> bool, pipeline: string -> bool)

  /** Eighteen characters of the alphabet of digits and small letters. */
  predicate IsGenerated(id: string) {
    |id| == 18 && forall c | c in id :: '0' <= c <= '9' || 'a' <= c <= 'z'
  }

  lemma DigitOrLetter(c: char)
    ensures c in "0123456789" <==> '0' <= c <= '9'
    ensures c in "abcdefghijklmnopqrstuvwxyz" <==> 'a' <= c <= 'z'
  {
    var digits, letters := "0123456789", "abcdefghijklmnopqrstuvwxyz";
    if '0' <= c <= '9' {
      assert digits[c as int - '0' as int] == c;
    }
    if 'a' <= c <= 'z' {
      assert letters[c as int - 'a' as int] == c;
    }
  }

  /** Generated identifiers are the words of eighteen characters over the generator's alphabet. */
  lemma GeneratedIs(id: string)
    ensures IsGenerated(id) <==>
            |id| == 18 && forall c | c in id :: c in "0123456789" || c in "abcdefghijklmnopqrstuvwxyz"
  {
    forall c ensures c in "0123456789" || c in "abcdefghijklmnopqrstuvwxyz" <==> '0' <= c <= '9' || 'a' <= c <= 'z' {
      DigitOrLetter(c);
    }
  }

  /** What the controllers create packages and pipelines under. */
  const GENERATED := Issued(IsGenerated, IsGenerated)

  predicate IsStreamOf(kind: string, name: string) {
    name == StreamName(kind, GetId(name))
  }

  /** The pairs that pass validation. */
  predicate Assignable(issued: Issued, package: string, pipeline: string) {
    && issued.package(package) && !IsBlank(package) && !HasDoubleColon(package)
    && issued.pipeline(pipeline) && !IsBlank(pipeline) && !HasDoubleColon(pipeline)
  }

  predicate ColonMoves(issued: Issued, package: string, pipeline: string) {
    Assignable(issued, package + ":", pipeline) && Assignable(issued, package, ":" + pipeline)
  }

  /** No two assignable pairs differ by a colon that moves across the separator. */
  ghost predicate Apart(issued: Issued) {
    forall package, pipeline :: !ColonMoves(issued, package, pipeline)
  }

  lemma ApartIdsDiffer(issued: Issued, p: string, q: string, p2: string, q2: string)
    requires Apart(issued) && Assignable(issued, p, q) && Assignable(issued, p2, q2)
      && BindingId(p, q) == BindingId(p2, q2)
    ensures p == p2 && q == q2
  {
    BindingIdsCollide(p, q, p2, q2);
    assert !ColonMoves(issued, p, q2) && !ColonMoves(issued, p2, q);
  }

  lemma GeneratedAreApart()
    ensures Apart(GENERATED)
  {
    forall package, pipeline
      ensures !ColonMoves(GENERATED, package, pipeline)
    {
      assert (package + ":")[|package|] == ':';
      assert ':' in package + ":";
    }
  }

  /*************** The protocol ***************/

  datatype Stage = Checked(found: bool) | Decided(seen: seq<Event>, added: seq<Event>) | Appended(position: nat)

  /** The one mutation that holds the gate. */
  datatype Session = Session(assign: bool, id: string, packageId: string, pipelineId: string, stage: Stage)

  /** `published` records the positions the service has put into the index; no step reads it. */
  datatype System = System(store: StoreState<Event>, gate: Option<Session>, consumed: nat, index: Index,
                           published: set<nat>)

  const EMPTY := System(EmptyStore(), None, 0, map[], {})

  datatype SystemStep =
    | StartAssign(packageId: string, pipelineId: string)
    | StartRemove(bindingId: string)
    | LoadAndDecide(utc: int)
    | AppendDecided
    | Publish
    | Abandon
    | Foreign(name: string, expected: ExpectedVersion, events: seq<Event>)
    | Consume

  function Loaded(store: StoreState<Event>, name: string): seq<Event> {
    if name in store.streams then Payloads(store.streams[name].events) else []
  }

  /** Validation precedes the gate; the existence and activity checks run under it. */
  function Assign(s: System, package: string, pipeline: string): System {
    var id := BindingId(package, pipeline);
    var found := BindingStream(id) in s.store.streams;
    if IsBlank(package) || IsBlank(pipeline) || HasDoubleColon(package) || HasDoubleColon(pipeline)
      || s.gate.Some? then s
    else if StreamName("Package", package) !in s.store.streams || StreamName("Pipeline", pipeline) !in s.store.streams
      then s
    else if found && Fold(Loaded(s.store, BindingStream(id))).isActive then s
    else s.(gate := Some(Session(true, id, package, pipeline, Checked(found))))
  }

  function Remove(s: System, id: string): System {
    var state := Fold(Loaded(s.store, BindingStream(id)));
    if s.gate.Some? || BindingStream(id) !in s.store.streams then s
    else if !state.isActive || state.packageId.None? || state.pipelineId.None? then s
    else s.(gate := Some(Session(false, id, state.packageId.value, state.pipelineId.value, Checked(true))))
  }

  function CommandOf(session: Session): Command
    requires session.stage.Checked?
  {
    if !session.assign then Unbind(session.id)
    else if session.stage.found then Restore(session.id)
    else Bind(session.id, session.packageId, session.pipelineId)
  }

  /** The events a command decides from: binding a new pair expects no stream and loads nothing. */
  function SeenBy(store: StoreState<Event>, session: Session): seq<Event>
    requires session.stage.Checked?
  {
    if CommandOf(session).Bind? then [] else Loaded(store, BindingStream(session.id))
  }

  /** Other writers open package and pipeline streams under issued identifiers only, and never a binding stream. */
  predicate MayWrite(issued: Issued, name: string, events: seq<Event>) {
    && !IsBindingStream(name) && (forall e | e in events :: !IsBindingEvent(e))
    && (IsStreamOf("Package", name) ==> issued.package(GetId(name)))
    && (IsStreamOf("Pipeline", name) ==> issued.pipeline(GetId(name)))
  }

  function Next(issued: Issued, s: System, step: SystemStep): System {
    match step
    case StartAssign(package, pipeline) => Assign(s, package, pipeline)
    case StartRemove(id) => Remove(s, id)
    case LoadAndDecide(utc) =>
      if s.gate.None? || !s.gate.value.stage.Checked? then s else
        var session := s.gate.value;
        var seen := SeenBy(s.store, session);
        (match Decide(Fold(seen), |seen| - 1, CommandOf(session), utc)
         case Success(added) => s.(gate := Some(session.(stage := Decided(seen, added))))
         case Failure(_) => s.(gate := None))
    case AppendDecided =>
      if s.gate.None? || !s.gate.value.stage.Decided? then s else
        var session := s.gate.value;
        var (after, r) :=
          Append(s.store, BindingStream(session.id), Exactly(|session.stage.seen| - 1), session.stage.added);
        s.(store := after,
           gate := if r.Success? && r.value.globalPosition >= 0
             then Some(session.(stage := Appended(r.value.globalPosition))) else None)
    case Publish =>
      if s.gate.None? || !s.gate.value.stage.Appended? then s else
        var session := s.gate.value;
        var position := session.stage.position;
        s.(gate := None, index := Put(s.index, session.packageId, session.pipelineId, session.assign, position),
           published := s.published + {position})
    case Abandon => s.(gate := None)
    case Foreign(name, expected, events) =>
      if !MayWrite(issued, name, events) then s else s.(store := Append(s.store, name, expected, events).0)
    case Consume =>
      if s.consumed >= |s.store.log| then s
      else s.(consumed := s.consumed + 1, index := Arrive(s.index, s.store.log, s.consumed))
  }

  function Run(issued: Issued, s: System, steps: seq<SystemStep>): System
    decreases |steps|
  {
    if steps == [] then s else Next(issued, Run(issued, s, steps[..|steps| - 1]), steps[|steps| - 1])
  }

  /*************** What every run keeps ***************/

  function Below(n: nat): (r: set<nat>)
    ensures forall m: nat :: m in r <==> m < n
  {
    if n == 0 then {} else Below(n - 1) + {n - 1}
  }

  function Arrived(s: System): set<nat> {
    s.published + Below(s.consumed)
  }

  /** The gate holder's checks still describe its stream, because nobody else writes binding streams. */
  ghost predicate SessionOk(issued: Issued, s: StoreState<Event>, session: Session) {
    var history := History(s.log, BindingStream(session.id));
    && session.id == BindingId(session.packageId, session.pipelineId)
    && Assignable(issued, session.packageId, session.pipelineId)
    && match session.stage
       case Checked(found) => (found <==> history != []) && Fold(history).isActive == !session.assign
       case Decided(seen, added) =>
         && seen == history && |added| == 1 && MayFollow(session.id, Fold(seen), seen == [], added[0])
         && added[0].Binded? == session.assign && Assignable(issued, added[0].packageId, added[0].boundPipelineId)
         && (seen == [] || Apart(issued) ==>
               added[0].packageId == session.packageId && added[0].boundPipelineId == session.pipelineId)
       case Appended(position) =>
         && position < |s.log| && IsBindingEvent(s.log[position].event)
         && s.log[position].event.Binded? == session.assign
         && (Apart(issued) ==> Concerns(s.log[position], session.packageId, session.pipelineId))
  }

  ghost predicate IndexOk(s: System, package: string, pipeline: string) {
    && (forall n | n in Arrived(s) :: n < |s.store.log|)
    && HoldsGreatest(s.index, s.store.log, Arrived(s), package, pipeline)
  }

  /**
   * A binding stream is never left behind empty and is about an assignable pair; other streams have issued identifiers.
   */
  predicate StreamKept(issued: Issued, s: StoreState<Event>, name: string) {
    && (IsBindingStream(name) && name in s.streams ==> History(s.log, name) != [])
    && (IsBindingStream(name) && History(s.log, name) != [] ==>
          var state := Fold(History(s.log, name));
          state.packageId.Some? && state.pipelineId.Some?
          && Assignable(issued, state.packageId.value, state.pipelineId.value))
    && (IsStreamOf("Package", name) && name in s.streams ==> issued.package(GetId(name)))
    && (IsStreamOf("Pipeline", name) && name in s.streams ==> issued.pipeline(GetId(name)))
  }

  ghost predicate Sound(issued: Issued, s: System) {
    && s.consumed <= |s.store.log|
    && (forall name: string :: StreamOk(s.store, name) && StreamKept(issued, s.store, name))
    && (s.gate.Some? ==> SessionOk(issued, s.store, s.gate.value))
    && (Apart(issued) ==> forall package: string, pipeline: string :: IndexOk(s, package, pipeline))
  }

  lemma BindingStreamId(id: string)
    ensures GetId(BindingStream(id)) == id && IsBindingStream(BindingStream(id))
  {
    GetIdOfStreamName("Binding", id);
  }

  lemma StreamNameId(kind: string, id: string)
    requires '-' !in kind
    ensures IsStreamOf(kind, StreamName(kind, id)) && GetId(StreamName(kind, id)) == id
  {
    GetIdOfStreamName(kind, id);
  }

  lemma LoadedIsHistory(s: StoreState<Event>, id: string)
    requires StreamOk(s, BindingStream(id))
    ensures Loaded(s, BindingStream(id)) == History(s.log, BindingStream(id))
    ensures Legal(id, History(s.log, BindingStream(id)))
  {
    BindingStreamId(id);
  }

  /** What every sound state says of a binding stream. */
  lemma BindingStreamFacts(issued: Issued, s: System, id: string)
    requires Sound(issued, s)
    ensures
      var name := BindingStream(id);
      var history := History(s.store.log, name);
      && Loaded(s.store, name) == history && (name in s.store.streams <==> history != [])
      && (history == [] ==> Fold(history) == UNBOUND)
      && (history != [] ==>
            && Settled(id, Fold(history), Fold(history).isActive)
            && Assignable(issued, Fold(history).packageId.value, Fold(history).pipelineId.value))
  {
    var name := BindingStream(id);
    BindingStreamId(id);
    assert StreamOk(s.store, name) && StreamKept(issued, s.store, name);
    LoadedIsHistory(s.store, id);
    LegalMeans(id, History(s.store.log, name));
  }

  lemma StartAssignKeepsSession(issued: Issued, s: System, package: string, pipeline: string)
    requires Sound(issued, s)
    ensures var after := Assign(s, package, pipeline);
      after.gate.Some? ==> SessionOk(issued, after.store, after.gate.value)
  {
    BindingStreamFacts(issued, s, BindingId(package, pipeline));
    StreamNameId("Package", package);
    StreamNameId("Pipeline", pipeline);
    assert StreamKept(issued, s.store, StreamName("Package", package));
    assert StreamKept(issued, s.store, StreamName("Pipeline", pipeline));
  }

  lemma StartRemoveKeepsSession(issued: Issued, s: System, id: string)
    requires Sound(issued, s)
    ensures var after := Remove(s, id); after.gate.Some? ==> SessionOk(issued, after.store, after.gate.value)
  {
    BindingStreamFacts(issued, s, id);
  }

  /** A restore or removal speaks of the pair its stream was opened with. */
  lemma DecisionKeepsSession(issued: Issued, s: System, utc: int)
    requires Sound(issued, s) && s.gate.Some? && s.gate.value.stage.Checked?
    ensures var after := Next(issued, s, LoadAndDecide(utc));
      after.gate.Some? && after.gate.value.stage.Decided? && SessionOk(issued, after.store, after.gate.value)
  {
    var session := s.gate.value;
    var history := History(s.store.log, BindingStream(session.id));
    var state := Fold(history);
    BindingStreamFacts(issued, s, session.id);
    if history != [] && Apart(issued) {
      ApartIdsDiffer(issued, session.packageId, session.pipelineId, state.packageId.value, state.pipelineId.value);
    }
  }

  /** The gate holder's append meets the version it expects and lands on exactly the history it decided from. */
  lemma AppendIsNeverRefused(issued: Issued, s: System)
    requires Sound(issued, s) && s.gate.Some? && s.gate.value.stage.Decided?
    ensures
      var session := s.gate.value;
      var name := BindingStream(session.id);
      var (after, r) := Append(s.store, name, Exactly(|session.stage.seen| - 1), session.stage.added);
      && r == Success(AppendResult(|s.store.log|, |session.stage.seen|))
      && |after.log| == |s.store.log| + 1 && after.log[..|s.store.log|] == s.store.log
      && after.log[|s.store.log|].event == session.stage.added[0] && after.log[|s.store.log|].stream == name
      && after.streams.Keys == s.store.streams.Keys + {name}
  {
    assert StreamOk(s.store, BindingStream(s.gate.value.id));
  }

  lemma FoldOfNext(history: seq<Event>, e: Event)
    ensures Fold(history + [e]) == Evolve(Fold(history), e)
  {
    assert (history + [e])[..|history|] == history;
  }

  lemma LegalNext(id: string, history: seq<Event>, e: Event)
    requires Legal(id, history) && MayFollow(id, Fold(history), history == [], e)
    ensures Legal(id, history + [e])
  {
    assert (history + [e])[..|history|] == history;
  }

  lemma OwnAppendKeepsLegal(s: StoreState<Event>, id: string, history: seq<Event>, e: Event)
    requires history == History(s.log, BindingStream(id)) && StreamOk(s, BindingStream(id))
    requires MayFollow(id, Fold(history), history == [], e)
    ensures var after := Append(s, BindingStream(id), Exactly(|history| - 1), [e]).0;
      StreamOk(after, BindingStream(id)) && History(after.log, BindingStream(id)) == history + [e]
  {
    AppendExtendsHistory(s, BindingStream(id), Exactly(|history| - 1), [e], BindingStream(id));
    BindingStreamId(id);
    LegalNext(id, history, e);
  }

  /** The state keeps the pair the stream was opened with. */
  lemma NextKeepsPair(id: string, history: seq<Event>, e: Event)
    requires MayFollow(id, Fold(history), history == [], e)
    ensures Fold(history + [e]).packageId == Some(e.packageId)
      && Fold(history + [e]).pipelineId == Some(e.boundPipelineId)
  {
    FoldOfNext(history, e);
  }

  lemma OwnAppendKeepsStream(issued: Issued, s: StoreState<Event>, id: string, history: seq<Event>, e: Event)
    requires history == History(s.log, BindingStream(id)) && StreamOk(s, BindingStream(id))
    requires MayFollow(id, Fold(history), history == [], e) && Assignable(issued, e.packageId, e.boundPipelineId)
    ensures var after := Append(s, BindingStream(id), Exactly(|history| - 1), [e]).0;
      && StreamOk(after, BindingStream(id)) && StreamKept(issued, after, BindingStream(id))
      && History(after.log, BindingStream(id)) == history + [e]
  {
    OwnAppendKeepsLegal(s, id, history, e);
    NextKeepsPair(id, history, e);
    KindsDiffer(id);
  }

  lemma KindsDiffer(id: string)
    ensures !IsStreamOf("Package", BindingStream(id)) && !IsStreamOf("Pipeline", BindingStream(id))
  {
    assert BindingStream(id)[0] == 'B';
    assert StreamName("Package", GetId(BindingStream(id)))[0] == 'P';
    assert StreamName("Pipeline", GetId(BindingStream(id)))[0] == 'P';
  }

  lemma OtherAppendKeepsStream(issued: Issued, s: StoreState<Event>, name: string, expected: ExpectedVersion,
                               events: seq<Event>, other: string)
    requires StreamOk(s, other) && StreamKept(issued, s, other) && name != other
    ensures var after := Append(s, name, expected, events).0;
      StreamOk(after, other) && StreamKept(issued, after, other)
  {
    AppendExtendsHistory(s, name, expected, events, other);
    assert History(s.log, other) + [] == History(s.log, other);
  }

  lemma AppendedStore(issued: Issued, s: System)
    requires s.gate.Some? && s.gate.value.stage.Decided?
    ensures
      var session, after := s.gate.value, Next(issued, s, AppendDecided);
      && after.index == s.index && after.store ==
           Append(s.store, BindingStream(session.id), Exactly(|session.stage.seen| - 1), session.stage.added).0
  {
  }

  lemma AppendKeepsStream(issued: Issued, s: System, name: string)
    requires Sound(issued, s) && s.gate.Some? && s.gate.value.stage.Decided?
    ensures var after := Next(issued, s, AppendDecided);
      StreamOk(after.store, name) && StreamKept(issued, after.store, name)
  {
    var session := s.gate.value;
    var own := BindingStream(session.id);
    assert StreamOk(s.store, name) && StreamKept(issued, s.store, name);
    AppendedStore(issued, s);
    if name == own {
      assert session.stage.added == [session.stage.added[0]];
      OwnAppendKeepsStream(issued, s.store, session.id, session.stage.seen, session.stage.added[0]);
    } else {
      OtherAppendKeepsStream(issued, s.store, own, Exactly(|session.stage.seen| - 1), session.stage.added, name);
    }
  }

  /** Entries already in the log keep their meaning when it grows. */
  lemma GrowthKeepsIndex(issued: Issued, s: System, after: System)
    requires Sound(issued, s) && s.store.log <= after.store.log
    requires after.index == s.index && Arrived(after) == Arrived(s)
    ensures Apart(issued) ==> forall package: string, pipeline: string :: IndexOk(after, package, pipeline)
  {
    if Apart(issued) {
      forall package: string, pipeline: string
        ensures IndexOk(after, package, pipeline)
      {
        assert IndexOk(s, package, pipeline);
      }
    }
  }

  lemma AppendKeepsSound(issued: Issued, s: System)
    requires Sound(issued, s) && s.gate.Some? && s.gate.value.stage.Decided?
    ensures Sound(issued, Next(issued, s, AppendDecided))
  {
    var after := Next(issued, s, AppendDecided);
    AppendIsNeverRefused(issued, s);
    forall name: string
      ensures StreamOk(after.store, name) && StreamKept(issued, after.store, name)
    {
      AppendKeepsStream(issued, s, name);
    }
    GrowthKeepsIndex(issued, s, after);
  }

  lemma ArrivalKeepsIndex(issued: Issued, s: System, after: System, n: nat)
    requires Sound(issued, s) && n < |s.store.log| && after.store == s.store && Arrived(after) == Arrived(s) + {n}
    requires Apart(issued) ==> after.index == Arrive(s.index, s.store.log, n)
    ensures Apart(issued) ==> forall package: string, pipeline: string :: IndexOk(after, package, pipeline)
  {
    if Apart(issued) {
      forall package: string, pipeline: string
        ensures IndexOk(after, package, pipeline)
      {
        assert IndexOk(s, package, pipeline);
        ArriveHoldsGreatest(s.index, s.store.log, Arrived(s), n, package, pipeline);
      }
    }
  }

  lemma PublishKeepsSound(issued: Issued, s: System)
    requires Sound(issued, s) && s.gate.Some? && s.gate.value.stage.Appended?
    ensures Sound(issued, Next(issued, s, Publish))
  {
    var after := Next(issued, s, Publish);
    var position := s.gate.value.stage.position;
    assert Arrived(after) == Arrived(s) + {position};
    ArrivalKeepsIndex(issued, s, after, position);
  }

  lemma ConsumeKeepsSound(issued: Issued, s: System)
    requires Sound(issued, s) && s.consumed < |s.store.log|
    ensures Sound(issued, Next(issued, s, Consume))
  {
    var after := Next(issued, s, Consume);
    assert Arrived(after) == Arrived(s) + {s.consumed};
    ArrivalKeepsIndex(issued, s, after, s.consumed);
  }

  lemma ForeignKeepsStream(issued: Issued, s: StoreState<Event>, name: string, expected: ExpectedVersion,
                           events: seq<Event>, other: string)
    requires StreamOk(s, other) && StreamKept(issued, s, other) && MayWrite(issued, name, events)
    ensures var after := Append(s, name, expected, events).0;
      && StreamOk(after, other) && StreamKept(issued, after, other) && s.log <= after.log
      && (IsBindingStream(other) ==> History(after.log, other) == History(s.log, other))
  {
    AppendExtendsHistory(s, name, expected, events, other);
    assert History(s.log, other) + [] == History(s.log, other);
  }

  lemma ForeignKeepsSound(issued: Issued, s: System, name: string, expected: ExpectedVersion, events: seq<Event>)
    requires Sound(issued, s) && MayWrite(issued, name, events)
    ensures Sound(issued, Next(issued, s, Foreign(name, expected, events)))
    ensures s.store.log <= Next(issued, s, Foreign(name, expected, events)).store.log
  {
    var after := Next(issued, s, Foreign(name, expected, events));
    forall other: string
      ensures StreamOk(after.store, other) && StreamKept(issued, after.store, other)
      ensures IsBindingStream(other) ==> History(after.store.log, other) == History(s.store.log, other)
      ensures s.store.log <= after.store.log
    {
      assert StreamOk(s.store, other) && StreamKept(issued, s.store, other);
      ForeignKeepsStream(issued, s.store, name, expected, events, other);
    }
    assert StreamOk(s.store, name) && StreamKept(issued, s.store, name);
    ForeignKeepsStream(issued, s.store, name, expected, events, name);
    if s.gate.Some? {
      BindingStreamId(s.gate.value.id);
    }
    GrowthKeepsIndex(issued, s, after);
  }

  lemma SessionChangeKeepsSound(issued: Issued, s: System, gate: Option<Session>)
    requires Sound(issued, s) && (gate.Some? ==> SessionOk(issued, s.store, gate.value))
    ensures Sound(issued, s.(gate := gate))
  {
    GrowthKeepsIndex(issued, s, s.(gate := gate));
  }

  lemma NextKeepsSound(issued: Issued, s: System, step: SystemStep)
    requires Sound(issued, s)
    ensures var after := Next(issued, s, step);
      Sound(issued, after) && s.store.log <= after.store.log && s.published <= after.published
  {
    match step
    case StartAssign(package, pipeline) =>
      StartAssignKeepsSession(issued, s, package, pipeline);
      SessionChangeKeepsSound(issued, s, Assign(s, package, pipeline).gate);
    case StartRemove(id) =>
      StartRemoveKeepsSession(issued, s, id);
      SessionChangeKeepsSound(issued, s, Remove(s, id).gate);
    case LoadAndDecide(utc) =>
      if s.gate.Some? && s.gate.value.stage.Checked? {
        DecisionKeepsSession(issued, s, utc);
        SessionChangeKeepsSound(issued, s, Next(issued, s, step).gate);
      }
    case AppendDecided =>
      if s.gate.Some? && s.gate.value.stage.Decided? {
        AppendIsNeverRefused(issued, s);
        AppendKeepsSound(issued, s);
      }
    case Publish =>
      if s.gate.Some? && s.gate.value.stage.Appended? {
        PublishKeepsSound(issued, s);
      }
    case Abandon => SessionChangeKeepsSound(issued, s, None);
    case Foreign(name, expected, events) =>
      if MayWrite(issued, name, events) {
        ForeignKeepsSound(issued, s, name, expected, events);
      }
    case Consume =>
      if s.consumed < |s.store.log| {
        ConsumeKeepsSound(issued, s);
      }
  }

  lemma {:induction false} RunKeepsSound(issued: Issued, s: System, steps: seq<SystemStep>)
    requires Sound(issued, s)
    ensures var now := Run(issued, s, steps);
      Sound(issued, now) && s.store.log <= now.store.log && s.published <= now.published
    decreases |steps|
  {
    if steps != [] {
      RunKeepsSound(issued, s, steps[..|steps| - 1]);
      NextKeepsSound(issued, Run(issued, s, steps[..|steps| - 1]), steps[|steps| - 1]);
    }
  }

  lemma EmptyIsSound(issued: Issued)
    ensures Sound(issued, EMPTY)
  {
  }

  /*************** The guarantees ***************/

  ghost predicate AllArrived(s: System, package: string, pipeline: string) {
    forall n: nat | n < |s.store.log| && Concerns(s.store.log[n], package, pipeline) :: n in Arrived(s)
  }

  /** With each of the pair's entries published or consumed, the index says what replaying its stream says. */
  ghost predicate Converged(s: System, package: string, pipeline: string) {
    AllArrived(s, package, pipeline) ==>
      (Active(s.index, package, pipeline) <==> Assigned(s.store.log, package, pipeline))
  }

  /**
   * In every run, for every pair: once each of the pair's entries has been published by the service or
   * consumed by the subscription, in whatever order, the index says what replaying the binding stream says.
   */
  lemma IndexConverges(steps: seq<SystemStep>, package: string, pipeline: string)
    ensures Converged(Run(GENERATED, EMPTY, steps), package, pipeline)
  {
    GeneratedAreApart();
    ApartRunsConverge(GENERATED, steps, package, pipeline);
  }

  lemma ApartRunsConverge(issued: Issued, steps: seq<SystemStep>, package: string, pipeline: string)
    requires Apart(issued)
    ensures Converged(Run(issued, EMPTY, steps), package, pipeline)
  {
    EmptyIsSound(issued);
    RunKeepsSound(issued, EMPTY, steps);
    var s := Run(issued, EMPTY, steps);
    assert IndexOk(s, package, pipeline);
    if AllArrived(s, package, pipeline) {
      assert forall name: string :: StreamOk(s.store, name);
      ArrivedAgreesWithReplay(s.store, s.index, Arrived(s), package, pipeline);
    }
  }

  ghost predicate NoLaterEntry(s: System, package: string, pipeline: string, position: nat) {
    forall n: nat | n < |s.store.log| && Concerns(s.store.log[n], package, pipeline) :: n <= position
  }

  /**
   * A completed assign or remove sticks: whatever runs afterwards, however late the subscription is, the index
   * keeps its answer until a later entry about the same pair is appended.
   */
  lemma CompletedChangeSticks(steps: seq<SystemStep>, later: seq<SystemStep>)
    requires var gate := Run(GENERATED, EMPTY, steps).gate; gate.Some? && gate.value.stage.Appended?
    ensures
      var session := Run(GENERATED, EMPTY, steps).gate.value;
      var now := Run(GENERATED, Next(GENERATED, Run(GENERATED, EMPTY, steps), Publish), later);
      NoLaterEntry(now, session.packageId, session.pipelineId, session.stage.position) ==>
        (Active(now.index, session.packageId, session.pipelineId) <==> session.assign)
  {
    GeneratedAreApart();
    EmptyIsSound(GENERATED);
    RunKeepsSound(GENERATED, EMPTY, steps);
    PublishedChangeSticks(GENERATED, Run(GENERATED, EMPTY, steps), later);
  }

  lemma PublishedChangeSticks(issued: Issued, before: System, later: seq<SystemStep>)
    requires Apart(issued) && Sound(issued, before) && before.gate.Some? && before.gate.value.stage.Appended?
    ensures
      var session := before.gate.value;
      var now := Run(issued, Next(issued, before, Publish), later);
      NoLaterEntry(now, session.packageId, session.pipelineId, session.stage.position) ==>
        (Active(now.index, session.packageId, session.pipelineId) <==> session.assign)
  {
    var session := before.gate.value;
    var done := Next(issued, before, Publish);
    NextKeepsSound(issued, before, Publish);
    RunKeepsSound(issued, done, later);
    var now := Run(issued, done, later);
    assert now.store.log[session.stage.position] == before.store.log[session.stage.position];
    assert IndexOk(now, session.packageId, session.pipelineId);
    GreatestEntryDecides(now, session.packageId, session.pipelineId, session.stage.position);
  }

  lemma GreatestEntryDecides(s: System, package: string, pipeline: string, position: nat)
    requires IndexOk(s, package, pipeline) && position in Arrived(s) && position < |s.store.log|
    requires Concerns(s.store.log[position], package, pipeline)
    ensures NoLaterEntry(s, package, pipeline, position) ==>
      (Active(s.index, package, pipeline) <==> s.store.log[position].event.Binded?)
  {
  }

  /** Under the gate a decision always yields one event and its append is never refused, whatever identifiers exist. */
  lemma GateHolderAlwaysSucceeds(issued: Issued, steps: seq<SystemStep>, utc: int)
    ensures
      var s := Run(issued, EMPTY, steps);
      && (s.gate.Some? && s.gate.value.stage.Checked? ==>
            var after := Next(issued, s, LoadAndDecide(utc)).gate;
            after.Some? && after.value.stage.Decided? && |after.value.stage.added| == 1)
      && (s.gate.Some? && s.gate.value.stage.Decided? ==>
            Next(issued, s, AppendDecided).gate == Some(s.gate.value.(stage := Appended(|s.store.log|))))
  {
    EmptyIsSound(issued);
    RunKeepsSound(issued, EMPTY, steps);
    var s := Run(issued, EMPTY, steps);
    if s.gate.Some? && s.gate.value.stage.Checked? {
      DecisionKeepsSession(issued, s, utc);
    }
    if s.gate.Some? && s.gate.value.stage.Decided? {
      AppendIsNeverRefused(issued, s);
    }
  }

  /*************** What colliding identifiers would do ***************/

  lemma {:induction false} RunConcat(issued: Issued, s: System, a: seq<SystemStep>, b: seq<SystemStep>)
    ensures Run(issued, s, a + b) == Run(issued, Run(issued, s, a), b)
    decreases |b|
  {
    if b == [] {
      assert a + b == a;
    } else {
      assert (a + b)[..|a + b| - 1] == a + b[..|b| - 1];
      RunConcat(issued, s, a, b[..|b| - 1]);
    }
  }

  lemma RunLast(issued: Issued, s: System, steps: seq<SystemStep>, step: SystemStep)
    ensures Run(issued, s, steps + [step]) == Next(issued, Run(issued, s, steps), step)
  {
    assert (steps + [step])[..|steps|] == steps;
  }

  lemma RunTwo(issued: Issued, s: System, a: SystemStep, b: SystemStep)
    ensures Run(issued, s, [a, b]) == Next(issued, Next(issued, s, a), b)
  {
    RunLast(issued, s, [], a);
    RunLast(issued, s, [a], b);
    assert [] + [a] == [a] && [a] + [b] == [a, b];
  }

  lemma RunThree(issued: Issued, s: System, a: SystemStep, b: SystemStep, c: SystemStep)
    ensures Run(issued, s, [a, b, c]) == Next(issued, Next(issued, Next(issued, s, a), b), c)
  {
    RunTwo(issued, s, a, b);
    RunLast(issued, s, [a, b], c);
    assert [a, b] + [c] == [a, b, c];
  }

  const COMPLETION := [LoadAndDecide(0), AppendDecided, Publish]

  lemma AppendExtendsOwnHistory(issued: Issued, s: System)
    requires Sound(issued, s) && s.gate.Some? && s.gate.value.stage.Decided?
    ensures
      var session, after := s.gate.value, Next(issued, s, AppendDecided);
      && after.gate == Some(session.(stage := Appended(|s.store.log|))) && after.index == s.index
      && after.store.streams.Keys == s.store.streams.Keys + {BindingStream(session.id)}
      && History(after.store.log, BindingStream(session.id)) == session.stage.seen + session.stage.added
  {
    var session := s.gate.value;
    AppendIsNeverRefused(issued, s);
    AppendedStore(issued, s);
    assert StreamOk(s.store, BindingStream(session.id));
    assert session.stage.added == [session.stage.added[0]];
    OwnAppendKeepsLegal(s.store, session.id, session.stage.seen, session.stage.added[0]);
  }

  /** Appending and publishing what was decided. */
  lemma DecisionCompletes(issued: Issued, s: System)
    requires Sound(issued, s) && s.gate.Some? && s.gate.value.stage.Decided?
    ensures
      var session := s.gate.value;
      var name := BindingStream(session.id);
      var after := Next(issued, Next(issued, s, AppendDecided), Publish);
      && Sound(issued, after) && after.gate.None? && after.store.streams.Keys == s.store.streams.Keys + {name}
      && History(after.store.log, name) == session.stage.seen + session.stage.added
      && after.index == Put(s.index, session.packageId, session.pipelineId, session.assign, |s.store.log|)
  {
    var appended := Next(issued, s, AppendDecided);
    AppendKeepsSound(issued, s);
    AppendExtendsOwnHistory(issued, s);
    PublishKeepsSound(issued, appended);
    assert Next(issued, appended, Publish).store == appended.store;
  }

  /** From the checks to the index: what one undisturbed change does. */
  lemma ChangeCompletes(issued: Issued, s: System, session: Session)
    requires Sound(issued, s) && s.gate == Some(session) && session.stage.Checked?
    ensures
      var after, name := Run(issued, s, COMPLETION), BindingStream(session.id);
      var before, history := History(s.store.log, name), History(after.store.log, name);
      && Sound(issued, after) && after.gate.None? && after.store.streams.Keys == s.store.streams.Keys + {name}
      && history != [] && history[..|history| - 1] == before && history[|history| - 1].Binded? == session.assign
      && (before == [] ==> IsAbout(history[|history| - 1], session.packageId, session.pipelineId))
      && after.index == Put(s.index, session.packageId, session.pipelineId, session.assign, |s.store.log|)
  {
    RunThree(issued, s, LoadAndDecide(0), AppendDecided, Publish);
    var decided := Next(issued, s, LoadAndDecide(0));
    DecisionKeepsSession(issued, s, 0);
    SessionChangeKeepsSound(issued, s, decided.gate);
    DecisionCompletes(issued, decided);
    var added := decided.gate.value.stage.added;
    var seen := decided.gate.value.stage.seen;
    assert (seen + added)[..|seen|] == seen && (seen + added)[|seen|] == added[0];
  }

  function Opening(kind: string, id: string): SystemStep {
    Foreign(StreamName(kind, id), AnyVersion, [OtherEvent("")])
  }

  lemma PackageOpens(issued: Issued, s: System, id: string)
    requires issued.package(id)
    ensures var after := Next(issued, s, Opening("Package", id));
      && after.store.streams.Keys == s.store.streams.Keys + {StreamName("Package", id)}
      && after.gate == s.gate && after.index == s.index
  {
    StreamNameId("Package", id);
    PackageIsNotPipeline(id);
    assert StreamName("Package", id)[0] == 'P' && BindingStream(GetId(StreamName("Package", id)))[0] == 'B';
    assert MayWrite(issued, StreamName("Package", id), [OtherEvent("")]);
  }

  lemma PipelineOpens(issued: Issued, s: System, id: string)
    requires issued.pipeline(id)
    ensures var after := Next(issued, s, Opening("Pipeline", id));
      && after.store.streams.Keys == s.store.streams.Keys + {StreamName("Pipeline", id)}
      && after.gate == s.gate && after.index == s.index
  {
    StreamNameId("Pipeline", id);
    PackageIsNotPipeline(id);
    assert StreamName("Pipeline", id)[0] == 'P' && BindingStream(GetId(StreamName("Pipeline", id)))[0] == 'B';
    assert MayWrite(issued, StreamName("Pipeline", id), [OtherEvent("")]);
  }

  lemma PackageIsNotPipeline(id: string)
    ensures !IsStreamOf("Pipeline", StreamName("Package", id)) && !IsStreamOf("Package", StreamName("Pipeline", id))
  {
    assert StreamName("Package", id)[1] == 'a' && StreamName("Pipeline", id)[1] == 'i';
    assert StreamName("Pipeline", GetId(StreamName("Package", id)))[1] == 'i';
    assert StreamName("Package", GetId(StreamName("Pipeline", id)))[1] == 'a';
  }

  function Openings(p: string, q: string): seq<SystemStep> {
    [Opening("Package", p + ":"), Opening("Pipeline", q), Opening("Package", p), Opening("Pipeline", ":" + q)]
  }

  lemma RunFour(issued: Issued, s: System, a: SystemStep, b: SystemStep, c: SystemStep, d: SystemStep)
    ensures Run(issued, s, [a, b, c, d]) == Next(issued, Next(issued, Next(issued, Next(issued, s, a), b), c), d)
  {
    RunThree(issued, s, a, b, c);
    RunLast(issued, s, [a, b, c], d);
    assert [a, b, c] + [d] == [a, b, c, d];
  }

  /** Everything the two pairs need exists, and nothing is bound. */
  lemma OpeningsOpen(issued: Issued, p: string, q: string)
    requires ColonMoves(issued, p, q)
    ensures
      var s := Run(issued, EMPTY, Openings(p, q));
      && Sound(issued, s) && s.gate.None? && s.index == map[]
      && BindingStream(BindingId(p, ":" + q)) !in s.store.streams
      && StreamName("Package", p + ":") in s.store.streams && StreamName("Pipeline", q) in s.store.streams
      && StreamName("Package", p) in s.store.streams && StreamName("Pipeline", ":" + q) in s.store.streams
  {
    EmptyIsSound(issued);
    RunKeepsSound(issued, EMPTY, Openings(p, q));
    var a, b := Opening("Package", p + ":"), Opening("Pipeline", q);
    var c, d := Opening("Package", p), Opening("Pipeline", ":" + q);
    RunFour(issued, EMPTY, a, b, c, d);
    var s1 := Next(issued, EMPTY, a);
    var s2 := Next(issued, s1, b);
    var s3 := Next(issued, s2, c);
    PackageOpens(issued, EMPTY, p + ":");
    PipelineOpens(issued, s1, q);
    PackageOpens(issued, s2, p);
    PipelineOpens(issued, s3, ":" + q);
    assert BindingStream(BindingId(p, ":" + q))[0] == 'B';
  }

  /** Both pairs of the colliding identifiers in turn: the first is assigned and removed, the second assigned. */
  function Collision(p: string, q: string): seq<SystemStep> {
    Openings(p, q)
    + ([StartAssign(p + ":", q)] + COMPLETION)
    + ([StartRemove(BindingId(p + ":", q))] + COMPLETION)
    + ([StartAssign(p, ":" + q)] + COMPLETION)
  }

  lemma RunChange(issued: Issued, s: System, start: SystemStep)
    ensures Run(issued, s, [start] + COMPLETION) == Run(issued, Next(issued, s, start), COMPLETION)
  {
    RunConcat(issued, s, [start], COMPLETION);
    RunLast(issued, s, [], start);
    assert [] + [start] == [start];
  }

  /** After any one change the stream exists, holds one more event and is active exactly after an assignment. */
  lemma ChangeRuns(issued: Issued, s: System, start: SystemStep, session: Session)
    requires Sound(issued, s) && Next(issued, s, start) == s.(gate := Some(session)) && session.stage.Checked?
    ensures
      var after, name := Run(issued, s, [start] + COMPLETION), BindingStream(session.id);
      var before, history := History(s.store.log, name), History(after.store.log, name);
      && Sound(issued, after) && after.gate.None? && after.store.streams.Keys == s.store.streams.Keys + {name}
      && history != [] && history[..|history| - 1] == before && Fold(history).isActive == session.assign
      && Loaded(after.store, name) == history
      && (before == [] ==> IsAbout(history[|history| - 1], session.packageId, session.pipelineId))
      && after.index == Put(s.index, session.packageId, session.pipelineId, session.assign, |s.store.log|)
  {
    RunChange(issued, s, start);
    NextKeepsSound(issued, s, start);
    ChangeCompletes(issued, Next(issued, s, start), session);
    var after, name := Run(issued, s, [start] + COMPLETION), BindingStream(session.id);
    assert StreamOk(after.store, name);
    LoadedIsHistory(after.store, session.id);
    LegalMeans(session.id, History(after.store.log, name));
  }

  /** The pair the stream was opened with is the only one it is ever about. */
  lemma FirstPairStays(id: string, history: seq<Event>, package: string, pipeline: string)
    requires Legal(id, history) && history != [] && IsAbout(history[0], package, pipeline)
    ensures forall e | e in history :: IsAbout(e, package, pipeline)
    ensures Fold(history).packageId == Some(package) && Fold(history).pipelineId == Some(pipeline)
  {
    LegalMeans(id, history);
    assert history[0] in history;
  }

  lemma OtherPairNeverEnters(issued: Issued, s: System, package: string, pipeline: string, p: string, q: string)
    requires Sound(issued, s) && BindingId(package, pipeline) == BindingId(p, q) && (p, q) != (package, pipeline)
    requires var history := History(s.store.log, BindingStream(BindingId(p, q)));
      history != [] && IsAbout(history[0], package, pipeline)
    ensures AllArrived(s, p, q) && !Assigned(s.store.log, p, q)
  {
    var id := BindingId(p, q);
    var history := History(s.store.log, BindingStream(id));
    BindingStreamId(id);
    assert StreamOk(s.store, BindingStream(id));
    FirstPairStays(id, history, package, pipeline);
    forall n: nat | n < |s.store.log| && Concerns(s.store.log[n], p, q)
      ensures false
    {
      assert forall name: string :: StreamOk(s.store, name);
      ConcernsMeansStream(s.store, n, p, q);
      EntryInHistory(s.store.log, n);
    }
  }

  /** One stream is open for one pair, which is the only pair in the index. */
  ghost predicate OpenFor(issued: Issued, s: System, id: string, package: string, pipeline: string, active: bool) {
    var name := BindingStream(id);
    var history := History(s.store.log, name);
    && Sound(issued, s) && s.gate.None? && name in s.store.streams && Loaded(s.store, name) == history
    && history != [] && IsAbout(history[0], package, pipeline) && Fold(history).isActive == active
    && forall p, q | (p, q) != (package, pipeline) :: Lookup(s.index, p, q).None?
  }

  lemma AssigningOpens(issued: Issued, s: System, package: string, pipeline: string)
    requires Sound(issued, s) && s.gate.None? && s.index == map[] && Assignable(issued, package, pipeline)
    requires StreamName("Package", package) in s.store.streams && StreamName("Pipeline", pipeline) in s.store.streams
    requires BindingStream(BindingId(package, pipeline)) !in s.store.streams
    ensures
      var after := Run(issued, s, [StartAssign(package, pipeline)] + COMPLETION);
      OpenFor(issued, after, BindingId(package, pipeline), package, pipeline, true)
        && s.store.streams.Keys <= after.store.streams.Keys
  {
    var id := BindingId(package, pipeline);
    assert StreamOk(s.store, BindingStream(id));
    ChangeRuns(issued, s, StartAssign(package, pipeline), Session(true, id, package, pipeline, Checked(false)));
  }

  lemma RemovingCloses(issued: Issued, s: System, id: string, package: string, pipeline: string)
    requires OpenFor(issued, s, id, package, pipeline, true)
    ensures
      var after := Run(issued, s, [StartRemove(id)] + COMPLETION);
      OpenFor(issued, after, id, package, pipeline, false) && s.store.streams.Keys <= after.store.streams.Keys
  {
    var history := History(s.store.log, BindingStream(id));
    LoadedIsHistory(s.store, id);
    FirstPairStays(id, history, package, pipeline);
    var after := Run(issued, s, [StartRemove(id)] + COMPLETION);
    ChangeRuns(issued, s, StartRemove(id), Session(false, id, package, pipeline, Checked(true)));
    var extended := History(after.store.log, BindingStream(id));
    assert extended[0] == extended[..|extended| - 1][0];
  }

  lemma RestoringDiverges(issued: Issued, s: System, package: string, pipeline: string, p: string, q: string)
    requires OpenFor(issued, s, BindingId(p, q), package, pipeline, false) && Assignable(issued, p, q)
    requires BindingId(package, pipeline) == BindingId(p, q) && (p, q) != (package, pipeline)
    requires StreamName("Package", p) in s.store.streams && StreamName("Pipeline", q) in s.store.streams
    ensures !Converged(Run(issued, s, [StartAssign(p, q)] + COMPLETION), p, q)
  {
    var id := BindingId(p, q);
    var after := Run(issued, s, [StartAssign(p, q)] + COMPLETION);
    ChangeRuns(issued, s, StartAssign(p, q), Session(true, id, p, q, Checked(true)));
    var extended := History(after.store.log, BindingStream(id));
    assert extended[0] == extended[..|extended| - 1][0];
    OtherPairNeverEnters(issued, after, package, pipeline, p, q);
  }

  lemma CollidingRunDiverges(issued: Issued, p: string, q: string)
    requires ColonMoves(issued, p, q)
    ensures !Converged(Run(issued, EMPTY, Collision(p, q)), p, ":" + q)
  {
    var id := BindingId(p + ":", q);
    ColonMovesOver(p, q);
    OpeningsOpen(issued, p, q);
    var s0 := Run(issued, EMPTY, Openings(p, q));
    var one, two, three := [StartAssign(p + ":", q)] + COMPLETION, [StartRemove(id)] + COMPLETION,
      [StartAssign(p, ":" + q)] + COMPLETION;
    AssigningOpens(issued, s0, p + ":", q);
    RemovingCloses(issued, Run(issued, s0, one), id, p + ":", q);
    RestoringDiverges(issued, Run(issued, Run(issued, s0, one), two), p + ":", q, p, ":" + q);
    RunConcat(issued, EMPTY, Openings(p, q), one);
    RunConcat(issued, EMPTY, Openings(p, q) + one, two);
    RunConcat(issued, EMPTY, Openings(p, q) + one + two, three);
  }

  /**
   * Validation alone does not keep bindings apart: every run converges exactly when no assignable pair differs from
   * another by a colon that moves across the separator.
   */
  lemma RunsConvergeIffApart(issued: Issued)
    ensures Apart(issued) <==>
      forall steps: seq<SystemStep>, package, pipeline :: Converged(Run(issued, EMPTY, steps), package, pipeline)
  {
    if Apart(issued) {
      forall steps: seq<SystemStep>, package, pipeline
        ensures Converged(Run(issued, EMPTY, steps), package, pipeline)
      {
        ApartRunsConverge(issued, steps, package, pipeline);
      }
    } else {
      var p, q :| ColonMoves(issued, p, q);
      CollidingRunDiverges(issued, p, q);
    }
  }
}
