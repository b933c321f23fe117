/** The reservation gate that keeps at most one product-change detection job queued or running. */
module CoalescingGate {
  import opened Wrappers

  /** Two minutes, in milliseconds. */
  const LIMIT: int := 120_000

  /** What the gate's job field holds: nothing, one enqueue's reservation, or a job. */
  datatype Holder = Nobody | Reserving(reservation: nat) | Job(id: nat)

  /** The shared hash; an unreadable reservation time is None. */
  datatype Hash = Hash(holder: Holder, reservedAt: Option<int>)

  /** A performed job has left its body but is still recorded as processing; a deleted one may still be in its body. */
  datatype Phase = Queued | Running | Performed | Final(inBody: bool)

  type Jobs = map<nat, Phase>

  predicate Unfinished(jobs: Jobs, id: nat) {
    id in jobs && !jobs[id].Final?
  }

  predicate Admits(h: Hash, jobs: Jobs, now: int) {
    match h.holder
    case Nobody => true
    case Reserving(_) => h.reservedAt.None? || now - h.reservedAt.value >= LIMIT
    case Job(id) => !Unfinished(jobs, id)
  }

  class CoalescingDpcFilter {
    var hash: Hash

    constructor ()
      ensures hash == Hash(Nobody, None)
    {
      hash := Hash(Nobody, None);
    }

    /** `guid` is the identifier generated for this enqueue. */
    method OnCreating(jobs: Jobs, now: int, guid: nat) returns (reservation: Option<nat>)
      modifies this
      ensures reservation == if Admits(old(hash), jobs, now) then Some(guid) else None
      ensures hash == if Admits(old(hash), jobs, now) then Hash(Reserving(guid), Some(now)) else old(hash)
    {
      if hash.holder != Nobody {
        if hash.holder.Reserving? {
          if hash.reservedAt.Some? && now - hash.reservedAt.value < LIMIT {
            return None;
          }
        } else {
          var state := if hash.holder.id in jobs then Some(jobs[hash.holder.id]) else None;
          if state.Some? && !state.value.Final? {
            return None;
          }
        }
      }
      hash := Hash(Reserving(guid), Some(now));
      return Some(guid);
    }

    /** A creation without a job empties the field. */
    method OnCreated(reservation: nat, job: Option<nat>)
      modifies this
      ensures hash == Settle(old(hash), reservation, job)
    {
      if hash.holder == Reserving(reservation) {
        hash := hash.(holder := if job.Some? then Job(job.value) else Nobody);
      }
    }

    method OnPerformed(id: nat)
      modifies this
      ensures hash == Release(old(hash), id)
    {
      if hash.holder == Job(id) {
        hash := hash.(holder := Nobody);
      }
    }
  }

  function Settle(h: Hash, reservation: nat, job: Option<nat>): Hash {
    if h.holder == Reserving(reservation) then h.(holder := if job.Some? then Job(job.value) else Nobody) else h
  }

  function Release(h: Hash, id: nat): Hash {
    if h.holder == Job(id) then h.(holder := Nobody) else h
  }

  /*************** The protocol ***************/

  /** One enqueue between OnCreating and OnCreated, with the job once it is in storage. */
  datatype Creation = Creation(at: int, job: Option<nat>)

  /** Reservations and jobs are numbered as they are made. */
  datatype System = System(now: int, hash: Hash, pending: map<nat, Creation>, jobs: Jobs, nextReservation: nat,
                           nextJob: nat)

  datatype Step =
    | Tick(elapsed: nat)
    | OnCreating
    | CreateJob(reservation: nat)
    | OnCreated(reservation: nat)
    | CreatorCrashes(reservation: nat)
    | StartJob(id: nat)
    | OnPerformed(id: nat)
    | Finish(id: nat)
    | Delete(id: nat)
    | Expire(id: nat)

  const START := System(0, Hash(Nobody, None), map[], map[], 0, 0)

  function Next(s: System, step: Step): System {
    match step
    case Tick(elapsed) => s.(now := s.now + elapsed)
    case OnCreating =>
      if !Admits(s.hash, s.jobs, s.now) then s
      else s.(hash := Hash(Reserving(s.nextReservation), Some(s.now)),
              pending := s.pending[s.nextReservation := Creation(s.now, None)],
              nextReservation := s.nextReservation + 1)
    case CreateJob(r) =>
      if r !in s.pending || s.pending[r].job.Some? then s
      else s.(pending := s.pending[r := s.pending[r].(job := Some(s.nextJob))], jobs := s.jobs[s.nextJob := Queued],
              nextJob := s.nextJob + 1)
    case OnCreated(r) =>
      if r !in s.pending then s
      else s.(hash := Settle(s.hash, r, s.pending[r].job), pending := s.pending - {r})
    case CreatorCrashes(r) =>
      if r !in s.pending || s.pending[r].job.Some? then s else s.(pending := s.pending - {r})
    case StartJob(id) =>
      if id !in s.jobs || s.jobs[id] != Queued then s else s.(jobs := s.jobs[id := Running])
    case OnPerformed(id) =>
      if id !in s.jobs || !InBody(s.jobs[id]) then s
      else s.(hash := Release(s.hash, id),
              jobs := s.jobs[id := if s.jobs[id].Running? then Performed else Final(false)])
    case Finish(id) =>
      if id !in s.jobs || s.jobs[id] != Performed then s else s.(jobs := s.jobs[id := Final(false)])
    case Delete(id) =>
      if id !in s.jobs || s.jobs[id].Final? then s else s.(jobs := s.jobs[id := Final(s.jobs[id].Running?)])
    case Expire(id) =>
      if id !in s.jobs || !s.jobs[id].Final? then s else s.(jobs := s.jobs - {id})
  }

  predicate InBody(phase: Phase) {
    phase.Running? || (phase.Final? && phase.inBody)
  }

  function Run(steps: seq<Step>): System {
    if steps == [] then START else Next(Run(steps[..|steps| - 1]), steps[|steps| - 1])
  }

  /** The scheduler forgets a job exactly when a final one expires; no other step loses one. */
  lemma JobsLastUntilFinal(s: System, step: Step, id: nat)
    requires id in s.jobs
    ensures id !in Next(s, step).jobs <==> step == Expire(id) && s.jobs[id].Final?
  {
  }

  predicate Fresh(s: System, r: nat)
    requires r in s.pending
  {
    s.now - s.pending[r].at < LIMIT
  }

  /** Every job in storage whose creation is still pending was reserved less than two minutes ago. */
  predicate Timely(s: System) {
    forall r | r in s.pending && s.pending[r].job.Some? :: Fresh(s, r)
  }

  predicate TimelyRun(steps: seq<Step>) {
    Timely(Run(steps)) && (steps != [] ==> TimelyRun(steps[..|steps| - 1]))
  }

  predicate Live(s: System, id: nat) {
    id in s.jobs && (s.jobs[id] == Queued || s.jobs[id] == Running)
  }

  predicate AtMostOneLive(s: System) {
    forall a, b | a in s.jobs && b in s.jobs && Live(s, a) && Live(s, b) :: a == b
  }

  /*************** Safety ***************/

  /** A fresh pending creation still holds the gate. */
  predicate HoldsGate(s: System, r: nat)
    requires r in s.pending
  {
    Fresh(s, r) ==> s.hash == Hash(Reserving(r), Some(s.pending[r].at))
  }

  /** A live job is the one the gate names, or belongs to the creation the gate names. */
  predicate Accounted(s: System, id: nat) {
    s.hash.holder == Job(id) ||
    (s.hash.holder.Reserving? && s.hash.holder.reservation in s.pending
     && s.pending[s.hash.holder.reservation].job == Some(id))
  }

  predicate Inv(s: System) {
    && (forall r | r in s.pending :: r < s.nextReservation && s.pending[r].at <= s.now && HoldsGate(s, r))
    && (forall r | r in s.pending && s.pending[r].job.Some? :: s.pending[r].job.value < s.nextJob)
    && (forall id | id in s.jobs :: id < s.nextJob)
    && (s.hash.holder.Job? ==> s.hash.holder.id < s.nextJob)
    && (s.hash.holder.Reserving? ==> s.hash.holder.reservation < s.nextReservation && s.hash.reservedAt.Some?)
    && (forall id | id in s.jobs && Live(s, id) :: Accounted(s, id))
  }

  /** While a creation whose job is in storage is fresh, the gate names it and refuses every other enqueue. */
  lemma PendingJobHoldsGate(s: System, r: nat)
    requires Inv(s) && Timely(s) && r in s.pending && s.pending[r].job.Some?
    ensures s.hash == Hash(Reserving(r), Some(s.pending[r].at)) && !Admits(s.hash, s.jobs, s.now)
  {
    assert Fresh(s, r) && HoldsGate(s, r);
  }

  /** The gate admits an enqueue only when no job is live. */
  lemma AdmittedMeansIdle(s: System)
    requires Inv(s) && Timely(s) && Admits(s.hash, s.jobs, s.now)
    ensures forall id | id in s.jobs :: !Live(s, id)
  {
    forall id | id in s.jobs
      ensures !Live(s, id)
    {
      if Live(s, id) {
        assert Accounted(s, id);
        if s.hash.holder.Reserving? {
          PendingJobHoldsGate(s, s.hash.holder.reservation);
        }
      }
    }
  }

  lemma OnCreatingKeepsInv(s: System)
    requires Inv(s) && Timely(s)
    ensures Inv(Next(s, OnCreating))
  {
    if Admits(s.hash, s.jobs, s.now) {
      AdmittedMeansIdle(s);
      assert forall id | id in s.jobs :: Live(Next(s, OnCreating), id) == Live(s, id);
    }
  }

  lemma CreateJobKeepsInv(s: System, r: nat)
    requires Inv(s) && Timely(s) && Timely(Next(s, CreateJob(r)))
    ensures Inv(Next(s, CreateJob(r)))
  {
    var after := Next(s, CreateJob(r));
    if r in s.pending && s.pending[r].job.None? {
      assert Fresh(after, r) && Fresh(s, r) && HoldsGate(s, r);
    }
  }

  lemma OnCreatedKeepsInv(s: System, r: nat)
    requires Inv(s) && Timely(s)
    ensures Inv(Next(s, OnCreated(r)))
  {
    if r in s.pending && s.pending[r].job.Some? {
      PendingJobHoldsGate(s, r);
    }
  }

  lemma NextKeepsInv(s: System, step: Step)
    requires Inv(s) && Timely(s) && Timely(Next(s, step))
    ensures Inv(Next(s, step))
  {
    match step
    case OnCreating => OnCreatingKeepsInv(s);
    case CreateJob(r) => CreateJobKeepsInv(s, r);
    case OnCreated(r) => OnCreatedKeepsInv(s, r);
    case _ =>
  }

  lemma {:induction false} TimelyRunsKeepInv(steps: seq<Step>)
    requires TimelyRun(steps)
    ensures Inv(Run(steps))
    decreases |steps|
  {
    if steps != [] {
      TimelyRunsKeepInv(steps[..|steps| - 1]);
      NextKeepsInv(Run(steps[..|steps| - 1]), steps[|steps| - 1]);
    }
  }

  /**
   * If every job creation that goes through settles its reservation within two minutes, at most one job is queued
   * or running in every reachable state.
   */
  lemma AtMostOneJob(steps: seq<Step>)
    requires TimelyRun(steps)
    ensures AtMostOneLive(Run(steps))
  {
    TimelyRunsKeepInv(steps);
  }

  /*************** The hypothesis is needed ***************/

  /** Once a reservation has expired unsettled, its creator and the next one can both put a job into storage. */
  lemma ExpiredReservationsOverlap(s: System, r: nat)
    requires r in s.pending && s.pending[r].job.None? && s.hash == Hash(Reserving(r), Some(s.pending[r].at))
      && !Fresh(s, r)
    requires s.nextReservation !in s.pending
    ensures !AtMostOneLive(Next(Next(Next(s, OnCreating), CreateJob(r)), CreateJob(s.nextReservation)))
  {
    var after := Next(Next(Next(s, OnCreating), CreateJob(r)), CreateJob(s.nextReservation));
    assert Live(after, s.nextJob) && Live(after, s.nextJob + 1);
  }

  /** A creation that reaches storage exactly two minutes after its reservation, when the next one was let in. */
  const LATE: seq<Step> := [OnCreating, Tick(120_000), OnCreating, CreateJob(0), CreateJob(1)]

  lemma LatePrefixes()
    ensures LATE[..4][..3] == LATE[..3] && LATE[..3][..2] == LATE[..2] && LATE[..2][..1] == LATE[..1] == [OnCreating]
    ensures LATE[..1][..0] == [] && LATE[..5] == LATE
  {
  }

  lemma RunOfNext(steps: seq<Step>, n: nat)
    requires n < |steps|
    ensures steps[..n + 1][..n] == steps[..n] && Run(steps[..n + 1]) == Next(Run(steps[..n]), steps[n])
  {
    assert steps[..n + 1][..n] == steps[..n];
  }

  /** The first reservation expires with its job not yet in storage. */
  lemma LateReservation()
    ensures Run(LATE[..2]) == System(120_000, Hash(Reserving(0), Some(0)), map[0 := Creation(0, None)], map[], 1, 0)
  {
    LatePrefixes();
    assert Run(LATE[..0]) == START;
    RunOfNext(LATE, 0);
    RunOfNext(LATE, 1);
  }

  lemma TwoJobsWhenLate()
    ensures !AtMostOneLive(Run(LATE))
  {
    LateReservation();
    LatePrefixes();
    RunOfNext(LATE, 2);
    RunOfNext(LATE, 3);
    RunOfNext(LATE, 4);
    ExpiredReservationsOverlap(Run(LATE[..2]), 0);
  }

  /*************** Two minutes is the exact bound ***************/

  /** Every job in storage whose creation is still pending was reserved less than `d` ago. */
  predicate Younger(s: System, d: int) {
    forall r | r in s.pending && s.pending[r].job.Some? :: s.now - s.pending[r].at < d
  }

  /** In every state of the run, each creation whose job is in storage and that is not settled is younger than `d`. */
  predicate Within(steps: seq<Step>, d: int) {
    Younger(Run(steps), d) && (steps != [] ==> Within(steps[..|steps| - 1], d))
  }

  lemma {:induction false} WithinIsTimely(steps: seq<Step>, d: int)
    requires Within(steps, d) && d <= LIMIT
    ensures TimelyRun(steps)
    decreases |steps|
  {
    var s := Run(steps);
    forall r | r in s.pending && s.pending[r].job.Some?
      ensures Fresh(s, r)
    {
      assert s.now - s.pending[r].at < d;
    }
    if steps != [] {
      WithinIsTimely(steps[..|steps| - 1], d);
    }
  }

  lemma WithinNext(steps: seq<Step>, n: nat, d: int)
    requires n < |steps| && Within(steps[..n], d) && Younger(Run(steps[..n + 1]), d)
    ensures Within(steps[..n + 1], d)
  {
    RunOfNext(steps, n);
  }

  lemma LateReservationIsWithin(d: int)
    ensures Within(LATE[..2], d)
  {
    LatePrefixes();
    LateReservation();
    assert Run(LATE[..0]) == START && Within(LATE[..0], d);
    RunOfNext(LATE, 0);
    WithinNext(LATE, 0, d);
    WithinNext(LATE, 1, d);
  }

  /** The late creation is exactly two minutes old. */
  lemma LateIsWithin(d: int)
    requires d > LIMIT
    ensures Within(LATE, d)
  {
    LateReservation();
    LateReservationIsWithin(d);
    LatePrefixes();
    RunOfNext(LATE, 2);
    WithinNext(LATE, 2, d);
    RunOfNext(LATE, 3);
    WithinNext(LATE, 3, d);
    RunOfNext(LATE, 4);
    WithinNext(LATE, 4, d);
  }

  /**
   * Bounding the age of unsettled creations by `d` keeps every run at one queued or running job exactly when `d` is at
   * most the two minutes after which a reservation expires.
   */
  lemma OneJobIffWithin(d: int)
    ensures (forall steps: seq<Step> | Within(steps, d) :: AtMostOneLive(Run(steps))) <==> d <= LIMIT
  {
    if d <= LIMIT {
      forall steps: seq<Step> | Within(steps, d)
        ensures AtMostOneLive(Run(steps))
      {
        WithinIsTimely(steps, d);
        AtMostOneJob(steps);
      }
    } else {
      LateIsWithin(d);
      TwoJobsWhenLate();
    }
  }

  /*************** The gate never sticks ***************/

  predicate ReservationsAreDated(s: System) {
    s.hash.holder.Reserving? ==> s.hash.reservedAt.Some? && s.hash.reservedAt.value <= s.now
  }

  lemma {:induction false} RunsDateReservations(steps: seq<Step>)
    ensures ReservationsAreDated(Run(steps))
    decreases |steps|
  {
    if steps != [] {
      RunsDateReservations(steps[..|steps| - 1]);
    }
  }

  lemma {:induction false} RunConcat(a: seq<Step>, b: seq<Step>)
    ensures Run(a + b) == RunFrom(Run(a), b)
    decreases |b|
  {
    if b == [] {
      assert a + b == a;
    } else {
      assert (a + b)[..|a + b| - 1] == a + b[..|b| - 1];
      RunConcat(a, b[..|b| - 1]);
    }
  }

  function RunFrom(s: System, steps: seq<Step>): System {
    if steps == [] then s else Next(RunFrom(s, steps[..|steps| - 1]), steps[|steps| - 1])
  }

  lemma FinishingReopens(s: System)
    requires s.hash.holder.Job?
    ensures var id := s.hash.holder.id;
      var after := Next(Next(Next(s, StartJob(id)), OnPerformed(id)), Finish(id));
      Admits(after.hash, after.jobs, after.now)
  {
  }

  lemma RunThree(s: System, a: Step, b: Step, c: Step)
    ensures RunFrom(s, [a, b, c]) == Next(Next(Next(s, a), b), c) && RunFrom(s, [a]) == Next(s, a)
  {
    assert [a, b, c][..2] == [a, b] && [a, b][..1] == [a] && [a][..0] == [];
    assert RunFrom(s, [a]) == Next(s, a);
    assert RunFrom(s, [a, b]) == Next(Next(s, a), b);
  }

  /** A finishing schedule from every reachable state: two minutes, or the end of the recorded job. */
  lemma SomeScheduleReopens(steps: seq<Step>)
    ensures var s := Run(steps);
      var rest := if s.hash.holder.Job?
        then [StartJob(s.hash.holder.id), OnPerformed(s.hash.holder.id), Finish(s.hash.holder.id)] else [Tick(120_000)];
      var after := Run(steps + rest);
      Admits(after.hash, after.jobs, after.now)
  {
    var s := Run(steps);
    if s.hash.holder.Job? {
      var id := s.hash.holder.id;
      RunConcat(steps, [StartJob(id), OnPerformed(id), Finish(id)]);
      RunThree(s, StartJob(id), OnPerformed(id), Finish(id));
      FinishingReopens(s);
    } else {
      RunsDateReservations(steps);
      RunConcat(steps, [Tick(120_000)]);
      RunThree(s, Tick(120_000), OnCreating, OnCreating);
    }
  }

  /** A job that the creation behind a reservation has put into storage, or may have since. */
  predicate MayBelongTo(s: System, r: nat, id: nat) {
    id >= s.nextJob || (r in s.pending && s.pending[r].job == Some(id))
  }

  /** What can have become of the gate and of a creation while nobody reserved. */
  predicate Trace(s: System, t: System) {
    && t.nextReservation == s.nextReservation && t.now >= s.now && t.nextJob >= s.nextJob
    && (forall r | r in t.pending :: r in s.pending
         && (t.pending[r].job.Some? ==> MayBelongTo(s, r, t.pending[r].job.value)))
    && match s.hash.holder
       case Nobody => t.hash == s.hash
       case Job(_) => t.hash == s.hash || t.hash.holder == Nobody
       case Reserving(r) =>
         t.hash == s.hash || t.hash.holder == Nobody || (t.hash.holder.Job? && MayBelongTo(s, r, t.hash.holder.id))
  }

  lemma NextKeepsTrace(s: System, t: System, step: Step)
    requires Trace(s, t) && Next(t, step).nextReservation == s.nextReservation
    ensures Trace(s, Next(t, step))
  {
    match step
    case OnCreated(r) =>
    case CreateJob(r) =>
    case _ =>
  }

  lemma {:induction false} ReservationsOnlyGrow(s: System, more: seq<Step>)
    ensures RunFrom(s, more).nextReservation >= s.nextReservation
    decreases |more|
  {
    if more != [] {
      ReservationsOnlyGrow(s, more[..|more| - 1]);
    }
  }

  lemma {:induction false} RunKeepsTrace(s: System, more: seq<Step>)
    requires RunFrom(s, more).nextReservation == s.nextReservation
    ensures Trace(s, RunFrom(s, more))
    decreases |more|
  {
    if more != [] {
      var init := more[..|more| - 1];
      ReservationsOnlyGrow(s, init);
      RunKeepsTrace(s, init);
      NextKeepsTrace(s, RunFrom(s, init), more[|more| - 1]);
    }
  }

  /**
   * From every reachable state, however things go on while nobody reserves: the gate is open once the recorded job
   * is final or gone; an empty gate stays open; and a reservation that is two minutes old opens it, unless a job of
   * that creation is unfinished.
   */
  lemma GateReopens(steps: seq<Step>, more: seq<Step>)
    requires Run(steps + more).nextReservation == Run(steps).nextReservation
    ensures
      var s, t := Run(steps), Run(steps + more);
      && (s.hash.holder == Nobody ==> Admits(t.hash, t.jobs, t.now))
      && (s.hash.holder.Job? && !Unfinished(t.jobs, s.hash.holder.id) ==> Admits(t.hash, t.jobs, t.now))
      && (s.hash.holder.Reserving? && (s.hash.reservedAt.None? || t.now - s.hash.reservedAt.value >= LIMIT)
          && (forall id | id in t.jobs && MayBelongTo(s, s.hash.holder.reservation, id) :: !Unfinished(t.jobs, id)) ==>
            Admits(t.hash, t.jobs, t.now))
  {
    RunConcat(steps, more);
    RunKeepsTrace(Run(steps), more);
  }
}
