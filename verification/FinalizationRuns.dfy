/** Runs of the finalisation over both stores, with crashes, retries and everything else changing meanwhile. */
module FinalizationRuns {
  import opened Wrappers
  import opened Text
  import opened Finalization

  /** A finalisation that holds the package's lock; `published` once the edit went through. */
  datatype Session = Session(pub: Publication, published: bool)

  /** `completed` records the packages whose SQL transaction committed; no step reads it. */
  datatype System = System(geo: Geodatabase, sql: Sql, sessions: map<nat, Session>, completed: map<nat, Publication>)

  datatype Step =
    | Begin(id: nat)
    | PublishStep(id: nat, mapped: seq<string>)
    | CompleteStep(id: nat)
    | Crash(id: nat)
    | SqlChanges(sql: Sql)
    | ProductsChange(products: seq<Product>)
    | OtherAttachment(attachment: Attachment)

  function Next(s: System, step: Step): System {
    match step
    case Begin(id) =>
      if id in s.sessions || GetPublication(s.sql, id).None? then s
      else s.(sessions := s.sessions[id := Session(GetPublication(s.sql, id).value, false)])
    case PublishStep(id, mapped) =>
      if id !in s.sessions || s.sessions[id].published then s else
        (match Publish(mapped, s.geo, s.sessions[id].pub)
         case Success(after) => s.(geo := after, sessions := s.sessions[id := s.sessions[id].(published := true)])
         case Failure(_) => s.(sessions := s.sessions - {id}))
    case CompleteStep(id) =>
      if id !in s.sessions || !s.sessions[id].published then s else
        var pub := s.sessions[id].pub;
        (match Complete(s.sql, pub)
         case Success(after) =>
           s.(sql := after, sessions := s.sessions - {id},
              completed := if id in s.sql.packages then s.completed[id := pub] else s.completed)
         case Failure(_) => s.(sessions := s.sessions - {id}))
    case Crash(id) => s.(sessions := s.sessions - {id})
    case SqlChanges(sql) => s.(sql := sql)
    case ProductsChange(products) => s.(geo := s.geo.(products := products))
    case OtherAttachment(a) => if a.package.Some? then s else s.(geo := s.geo.(attachments := s.geo.attachments + [a]))
  }

  function Run(s: System, steps: seq<Step>): System
    decreases |steps|
  {
    if steps == [] then s else Next(Run(s, steps[..|steps| - 1]), steps[|steps| - 1])
  }

  predicate Starts(s: System) {
    s.sessions == map[] && s.completed == map[] && forall a | a in s.geo.attachments :: a.package.None?
  }

  /*************** What every run keeps ***************/

  ghost predicate Inv(s: System) {
    && (forall id: nat :: |Own(s.geo.attachments, id)| <= 1)
    && (forall id | id in s.sessions :: s.sessions[id].pub.package == id)
    && (forall id | id in s.sessions && s.sessions[id].published :: Attached(s.geo, s.sessions[id].pub))
    && (forall id | id in s.completed :: s.completed[id].package == id && Attached(s.geo, s.completed[id]))
  }

  lemma PublishStepKeepsInv(s: System, id: nat, mapped: seq<string>)
    requires Inv(s) && id in s.sessions && !s.sessions[id].published
    ensures Inv(Next(s, PublishStep(id, mapped)))
  {
    if Publish(mapped, s.geo, s.sessions[id].pub).Success? {
      PublishKeepsAttached(mapped, s.geo, s.sessions[id].pub);
    }
  }

  lemma OtherAttachmentIsNobodys(attachments: seq<Attachment>, a: Attachment, id: nat)
    requires a.package.None?
    ensures Own(attachments + [a], id) == Own(attachments, id)
  {
    assert (attachments + [a])[..|attachments|] == attachments;
  }

  lemma OtherAttachmentKeepsInv(s: System, a: Attachment)
    requires Inv(s) && a.package.None?
    ensures Inv(Next(s, OtherAttachment(a)))
  {
    forall id: nat
      ensures Own(s.geo.attachments + [a], id) == Own(s.geo.attachments, id)
    {
      OtherAttachmentIsNobodys(s.geo.attachments, a, id);
    }
  }

  lemma NextKeepsInv(s: System, step: Step)
    requires Inv(s)
    ensures Inv(Next(s, step))
  {
    match step
    case PublishStep(id, mapped) =>
      if id in s.sessions && !s.sessions[id].published {
        PublishStepKeepsInv(s, id, mapped);
      }
    case OtherAttachment(a) =>
      if a.package.None? {
        OtherAttachmentKeepsInv(s, a);
      }
    case _ =>
  }

  lemma {:induction false} NoOwnAtStart(attachments: seq<Attachment>, id: nat)
    requires forall a | a in attachments :: a.package.None?
    ensures Own(attachments, id) == []
    decreases |attachments|
  {
    if attachments != [] {
      NoOwnAtStart(attachments[..|attachments| - 1], id);
    }
  }

  lemma {:induction false} RunKeepsInv(s: System, steps: seq<Step>)
    requires Starts(s)
    ensures Inv(Run(s, steps))
    decreases |steps|
  {
    if steps == [] {
      forall id: nat
        ensures Own(s.geo.attachments, id) == []
      {
        NoOwnAtStart(s.geo.attachments, id);
      }
    } else {
      RunKeepsInv(s, steps[..|steps| - 1]);
      NextKeepsInv(Run(s, steps[..|steps| - 1]), steps[|steps| - 1]);
    }
  }

  /*************** The two stores in step ***************/

  /** The step is the package's first publication: both products reach its versions together with the attachment. */
  predicate FirstPublication(before: System, step: Step, id: nat) {
    && step.PublishStep? && step.id == id && id in before.sessions
    && var pub, after := before.sessions[id].pub, Next(before, step);
    && Own(before.geo.attachments, id) == [] && Attached(after.geo, pub) && BothAt(after.geo, pub)
    && |after.geo.products| == |before.geo.products|
    && (forall i | 0 <= i < |after.geo.products| ::
          NoDecrease(before.geo.products[i].edition, after.geo.products[i].edition))
  }

  /** The step commits the SQL transaction of this publication, which moves both tracks and drops the package. */
  predicate Completion(before: System, step: Step, pub: Publication) {
    && step == CompleteStep(pub.package) && pub.package in before.sql.packages
    && pub.package in before.sessions && before.sessions[pub.package] == Session(pub, true)
    && CompletesTo(before.sql, pub, Next(before, step).sql)
  }

  predicate PublishedAt(s: System, steps: seq<Step>, n: nat, id: nat)
    requires n < |steps|
  {
    FirstPublication(Run(s, steps[..n]), steps[n], id)
  }

  predicate CompletedAt(s: System, steps: seq<Step>, n: nat, pub: Publication)
    requires n < |steps|
  {
    Completion(Run(s, steps[..n]), steps[n], pub)
  }

  /** Only a first publication gives a package its attachment. */
  lemma AttachingStepPublishes(s: System, step: Step, id: nat)
    requires Inv(s) && Own(s.geo.attachments, id) == [] && Own(Next(s, step).geo.attachments, id) != []
    ensures FirstPublication(s, step, id)
  {
    match step
    case PublishStep(own, mapped) =>
      var pub := s.sessions[own].pub;
      PublishesBothTogether(mapped, s.geo, pub);
      if own != id {
        PublishKeepsOthers(mapped, s.geo, pub, id);
      }
    case OtherAttachment(a) => OtherAttachmentIsNobodys(s.geo.attachments, a, id);
    case _ =>
  }

  lemma SamePrefix<T>(steps: seq<T>, n: nat)
    requires n < |steps| - 1
    ensures steps[..|steps| - 1][..n] == steps[..n] && steps[..|steps| - 1][n] == steps[n]
  {
  }

  lemma PrefixPublishes(s: System, steps: seq<Step>, m: nat, n: nat, id: nat)
    requires n < m <= |steps|
    ensures PublishedAt(s, steps[..m], n, id) == PublishedAt(s, steps, n, id)
  {
    assert steps[..m][..n] == steps[..n];
    assert steps[..m][n] == steps[n];
  }

  lemma {:induction false} AttachmentWasPublished(s: System, steps: seq<Step>, id: nat)
    requires Starts(s) && Own(Run(s, steps).geo.attachments, id) != []
    ensures exists n: nat :: n < |steps| && PublishedAt(s, steps, n, id)
    decreases |steps|
  {
    NoOwnAtStart(s.geo.attachments, id);
    var last := |steps| - 1;
    var init := steps[..last];
    RunKeepsInv(s, init);
    if Own(Run(s, init).geo.attachments, id) == [] {
      AttachingStepPublishes(Run(s, init), steps[last], id);
      assert PublishedAt(s, steps, last, id);
    } else {
      AttachmentWasPublished(s, init, id);
      var n: nat :| n < |init| && PublishedAt(s, init, n, id);
      PrefixPublishes(s, steps, last, n, id);
    }
  }

  lemma CompletingStepCompletes(s: System, step: Step, id: nat)
    requires Inv(s) && id in Next(s, step).completed
    ensures (id in s.completed && Next(s, step).completed[id] == s.completed[id])
      || Completion(s, step, Next(s, step).completed[id])
  {
    if step.CompleteStep? && step.id == id && id in s.sessions && s.sessions[id].published && id in s.sql.packages
      && Complete(s.sql, s.sessions[id].pub).Success? {
      CompletionMovesBothTracks(s.sql, s.sessions[id].pub);
    }
  }

  lemma {:induction false} CompletionHappened(s: System, steps: seq<Step>, id: nat)
    requires Starts(s) && id in Run(s, steps).completed
    ensures exists n: nat :: n < |steps| && CompletedAt(s, steps, n, Run(s, steps).completed[id])
    decreases |steps|
  {
    var last := |steps| - 1;
    var init := steps[..last];
    RunKeepsInv(s, init);
    CompletingStepCompletes(Run(s, init), steps[last], id);
    var pub := Run(s, steps).completed[id];
    if Completion(Run(s, init), steps[last], pub) {
      assert CompletedAt(s, steps, last, pub);
    } else {
      CompletionHappened(s, init, id);
      var n: nat :| n < |init| && CompletedAt(s, init, n, pub);
      SamePrefix(steps, n);
      assert CompletedAt(s, steps, n, pub);
    }
  }

  lemma CompletedIsAttached(s: System, steps: seq<Step>, m: nat, pub: Publication)
    requires Starts(s) && m < |steps| && CompletedAt(s, steps, m, pub)
    ensures Own(Run(s, steps[..m]).geo.attachments, pub.package) != []
  {
    RunKeepsInv(s, steps[..m]);
    var before := Run(s, steps[..m]);
    assert before.sessions[pub.package].published;
    assert Attached(before.geo, pub);
  }

  lemma PublishedBefore(s: System, steps: seq<Step>, m: nat, id: nat)
    requires Starts(s) && m <= |steps| && Own(Run(s, steps[..m]).geo.attachments, id) != []
    ensures exists n: nat :: n < m && PublishedAt(s, steps, n, id)
  {
    AttachmentWasPublished(s, steps[..m], id);
    var n: nat :| n < |steps[..m]| && PublishedAt(s, steps[..m], n, id);
    PrefixPublishes(s, steps, m, n, id);
  }

  /**
   * Over all runs, with crashes and retries at any point and everything else changing meanwhile: a package gets at most
   * one attachment. One that SQL completed has it, with the snapshot that was completed; its completing step moved both
   * tracks, and an earlier step moved both products together with adding the attachment.
   */
  lemma CompletionMeansPublication(s: System, steps: seq<Step>, id: nat)
    requires Starts(s)
    ensures
      var now := Run(s, steps);
      && |Own(now.geo.attachments, id)| <= 1
      && (id in now.completed ==>
            && Attached(now.geo, now.completed[id]) && now.completed[id].package == id
            && exists n: nat, m: nat ::
                 n < m < |steps| && PublishedAt(s, steps, n, id) && CompletedAt(s, steps, m, now.completed[id]))
  {
    RunKeepsInv(s, steps);
    var pub := Run(s, steps).completed;
    if id in pub {
      CompletionHappened(s, steps, id);
      var m: nat :| m < |steps| && CompletedAt(s, steps, m, pub[id]);
      CompletedIsAttached(s, steps, m, pub[id]);
      PublishedBefore(s, steps, m, id);
    }
  }

  /** A finalisation step changes the geodatabase only as a first publication. */
  lemma OnlyFirstPublicationWrites(s: System, steps: seq<Step>, step: Step)
    requires Starts(s) && (step.Begin? || step.PublishStep? || step.CompleteStep? || step.Crash?)
    ensures
      var before := Run(s, steps);
      Next(before, step).geo != before.geo ==> step.PublishStep? && FirstPublication(before, step, step.id)
  {
    RunKeepsInv(s, steps);
    var before := Run(s, steps);
    if Next(before, step).geo != before.geo {
      PublishesBothTogether(step.mapped, before.geo, before.sessions[step.id].pub);
    }
  }

  /*************** The completed version and the attached one ***************/

  /** A finalisation that starts on an attached package starts with the version that is attached. */
  predicate OffersAttachedVersion(s: System, step: Step) {
    step.Begin? && GetPublication(s.sql, step.id).Some? ==>
      HasPublishedVersion(Own(s.geo.attachments, step.id), GetPublication(s.sql, step.id).value)
  }

  predicate VersionsAgree(s: System) {
    && (forall id | id in s.sessions :: HasPublishedVersion(Own(s.geo.attachments, id), s.sessions[id].pub))
    && (forall id | id in s.completed :: HasPublishedVersion(Own(s.geo.attachments, id), s.completed[id]))
  }

  lemma NextKeepsVersions(s: System, step: Step)
    requires Inv(s) && VersionsAgree(s) && OffersAttachedVersion(s, step)
    ensures VersionsAgree(Next(s, step))
  {
    match step
    case PublishStep(id, mapped) =>
      if id in s.sessions && !s.sessions[id].published && Publish(mapped, s.geo, s.sessions[id].pub).Success? {
        PublishKeepsVersions(s, id, mapped);
      }
    case OtherAttachment(a) =>
      if a.package.None? {
        OtherAttachmentKeepsVersions(s, a);
      }
    case _ => SameAttachmentsKeepVersions(s, step);
  }

  lemma OtherAttachmentKeepsVersions(s: System, a: Attachment)
    requires VersionsAgree(s) && a.package.None?
    ensures VersionsAgree(Next(s, OtherAttachment(a)))
  {
    forall id: nat
      ensures Own(s.geo.attachments + [a], id) == Own(s.geo.attachments, id)
    {
      OtherAttachmentIsNobodys(s.geo.attachments, a, id);
    }
  }

  lemma SameAttachmentsKeepVersions(s: System, step: Step)
    requires Inv(s) && VersionsAgree(s) && OffersAttachedVersion(s, step)
    requires !step.PublishStep? && !step.OtherAttachment?
    ensures VersionsAgree(Next(s, step))
  {
    if step.Begin? {
      PendingHasPublication(s.sql, step.id);
    }
  }

  lemma PublishKeepsVersions(s: System, id: nat, mapped: seq<string>)
    requires Inv(s) && VersionsAgree(s) && id in s.sessions && Publish(mapped, s.geo, s.sessions[id].pub).Success?
    ensures
      var after := Publish(mapped, s.geo, s.sessions[id].pub).value;
      && (forall other | other in s.sessions ::
           HasPublishedVersion(Own(after.attachments, other), s.sessions[other].pub))
      && (forall other | other in s.completed :: HasPublishedVersion(Own(after.attachments, other), s.completed[other]))
  {
    var pub := s.sessions[id].pub;
    var after := Publish(mapped, s.geo, pub).value;
    AttachedVersionIff(mapped, s.geo, pub);
    forall other: nat
      ensures other != id ==> Own(after.attachments, other) == Own(s.geo.attachments, other)
    {
      if other != id {
        PublishKeepsOthers(mapped, s.geo, pub, other);
      }
    }
    if id in s.completed {
      assert Attached(s.geo, s.completed[id]);
      assert after == s.geo;
    }
  }

  lemma {:induction false} RunKeepsVersions(s: System, steps: seq<Step>)
    requires Starts(s) && forall n | 0 <= n < |steps| :: OffersAttachedVersion(Run(s, steps[..n]), steps[n])
    ensures VersionsAgree(Run(s, steps))
    decreases |steps|
  {
    if steps != [] {
      var last := |steps| - 1;
      forall n | 0 <= n < last
        ensures OffersAttachedVersion(Run(s, steps[..last][..n]), steps[..last][n])
      {
        SamePrefix(steps, n);
      }
      RunKeepsVersions(s, steps[..last]);
      RunKeepsInv(s, steps[..last]);
      NextKeepsVersions(Run(s, steps[..last]), steps[last]);
    }
  }

  /** While attached packages are taken up again with their attached version only, that is the version SQL completes. */
  lemma CompletedVersionIsAttached(s: System, steps: seq<Step>, id: nat)
    requires Starts(s) && forall n | 0 <= n < |steps| :: OffersAttachedVersion(Run(s, steps[..n]), steps[n])
    requires id in Run(s, steps).completed
    ensures
      var now := Run(s, steps);
      var own := Own(now.geo.attachments, id);
      |own| == 1 && own[0].edition == now.completed[id].s101Edition && own[0].update == now.completed[id].s101Update
  {
    RunKeepsInv(s, steps);
    RunKeepsVersions(s, steps);
    var now := Run(s, steps);
    assert Attached(now.geo, now.completed[id]);
    assert HasPublishedVersion(Own(now.geo.attachments, id), now.completed[id]);
  }

  lemma RunLast(s: System, steps: seq<Step>, step: Step)
    ensures Run(s, steps + [step]) == Next(Run(s, steps), step)
  {
    assert (steps + [step])[..|steps|] == steps;
  }

  lemma RunTwo(s: System, a: Step, b: Step)
    ensures Run(s, [a, b]) == Next(Next(s, a), b)
  {
    RunLast(s, [], a);
    RunLast(s, [a], b);
    assert [] + [a] == [a] && [a] + [b] == [a, b];
  }

  lemma RunThree(s: System, a: Step, b: Step, c: Step)
    ensures Run(s, [a, b, c]) == Next(Next(Next(s, a), b), c)
  {
    RunTwo(s, a, b);
    RunLast(s, [a, b], c);
    assert [a, b] + [c] == [a, b, c];
  }

  lemma {:induction false} RunConcat(s: System, a: seq<Step>, b: seq<Step>)
    ensures Run(s, a + b) == Run(Run(s, a), b)
    decreases |b|
  {
    if b == [] {
      assert a + b == a;
    } else {
      assert (a + b)[..|a + b| - 1] == a + b[..|b| - 1];
      RunConcat(s, a, b[..|b| - 1]);
    }
  }

  /** The publication goes through and the process dies before the SQL transaction. */
  function Interrupted(id: nat, mapped: seq<string>): seq<Step> {
    [Begin(id), PublishStep(id, mapped), Crash(id)]
  }

  /** SQL offers other versions of the package and the products are set to them by hand. */
  function Intervention(id: nat, sql: Sql, products: seq<Product>): seq<Step> {
    [SqlChanges(sql), ProductsChange(products), Crash(id)]
  }

  function Finalisation(id: nat, mapped: seq<string>): seq<Step> {
    [Begin(id), PublishStep(id, mapped), CompleteStep(id)]
  }

  lemma PublicationAttaches(mapped: seq<string>, geo: Geodatabase, pub: Publication)
    requires Publish(mapped, geo, pub).Success?
    ensures Attached(Publish(mapped, geo, pub).value, pub)
  {
    PublishesBothTogether(mapped, geo, pub);
  }

  lemma BeginThenPublish(s: System, id: nat, mapped: seq<string>, pub: Publication)
    requires id !in s.sessions && GetPublication(s.sql, id) == Some(pub) && Publish(mapped, s.geo, pub).Success?
    ensures Next(Next(s, Begin(id)), PublishStep(id, mapped)) ==
      s.(geo := Publish(mapped, s.geo, pub).value, sessions := s.sessions[id := Session(pub, true)])
  {
    assert s.sessions[id := Session(pub, false)][id := Session(pub, true)] == s.sessions[id := Session(pub, true)];
  }

  lemma InterruptedAttaches(s: System, id: nat, mapped: seq<string>, pub: Publication)
    requires id !in s.sessions && GetPublication(s.sql, id) == Some(pub)
    requires Own(s.geo.attachments, id) == [] && Publish(mapped, s.geo, pub).Success?
    ensures
      var now := Run(s, Interrupted(id, mapped));
      && id !in now.sessions && Attached(now.geo, pub) && HasPublishedVersion(Own(now.geo.attachments, id), pub)
  {
    RunThree(s, Begin(id), PublishStep(id, mapped), Crash(id));
    BeginThenPublish(s, id, mapped, pub);
    PendingHasPublication(s.sql, id);
    PublicationAttaches(mapped, s.geo, pub);
    AttachedVersionIff(mapped, s.geo, pub);
  }

  lemma InterventionIs(s: System, id: nat, sql: Sql, products: seq<Product>)
    requires id !in s.sessions
    ensures Run(s, Intervention(id, sql, products)) == s.(sql := sql, geo := Geodatabase(products, s.geo.attachments))
  {
    RunThree(s, SqlChanges(sql), ProductsChange(products), Crash(id));
    assert s.sessions - {id} == s.sessions;
  }

  lemma OfferedCompletes(sql: Sql, id: nat)
    requires GetPublication(sql, id).Some?
    ensures Complete(sql, GetPublication(sql, id).value).Success?
  {
  }

  /**
   * With the attachment in place and the products at the offered versions, a finalisation completes whatever is
   * offered.
   */
  lemma FinalisationCompletes(s: System, id: nat, mapped: seq<string>, pub: Publication)
    requires id !in s.sessions && GetPublication(s.sql, id) == Some(pub)
    requires Attached(s.geo, pub) && Publish(mapped, s.geo, pub) == Success(s.geo)
    ensures
      var now := Run(s, Finalisation(id, mapped));
      id in now.completed && now.completed[id] == pub && now.geo == s.geo
  {
    RunThree(s, Begin(id), PublishStep(id, mapped), CompleteStep(id));
    BeginThenPublish(s, id, mapped, pub);
    OfferedCompletes(s.sql, id);
    PendingHasPublication(s.sql, id);
  }

  lemma AtVersionsIsPublished(mapped: seq<string>, geo: Geodatabase, pub: Publication)
    requires Attached(geo, pub) && BothAt(geo, pub) && mapped == [pub.s57]
    requires pub.package != 0 && !IsBlank(pub.yaml) && pub.indexLength > 0
    ensures Publish(mapped, geo, pub) == Success(geo)
  {
  }

  /**
   * Only the digest and the dataset of an attachment are checked. After a crash, an offer of another version with the
   * same snapshot, and products that are already there, SQL completes a version that was never attached.
   */
  lemma OtherVersionCompletes(s: System, id: nat, mapped: seq<string>, pub: Publication, sql: Sql,
                              products: seq<Product>,
                              other: Publication)
    requires Starts(s) && GetPublication(s.sql, id) == Some(pub) && Publish(mapped, s.geo, pub).Success?
    requires GetPublication(sql, id) == Some(other) && BothAt(Geodatabase(products, []), other)
    requires other.digest == pub.digest && other.yaml == pub.yaml && other.indexLength == pub.indexLength
    requires other.s57 == pub.s57 && other.s101 == pub.s101
    requires (other.s101Edition, other.s101Update) != (pub.s101Edition, pub.s101Update)
    ensures
      var now := Run(s, Interrupted(id, mapped) + Intervention(id, sql, products) + Finalisation(id, mapped));
      id in now.completed && !HasPublishedVersion(Own(now.geo.attachments, id), now.completed[id])
  {
    NoOwnAtStart(s.geo.attachments, id);
    var a := Run(s, Interrupted(id, mapped));
    InterruptedAttaches(s, id, mapped, pub);
    var b := Run(a, Intervention(id, sql, products));
    InterventionIs(a, id, sql, products);
    PendingHasPublication(s.sql, id);
    PendingHasPublication(sql, id);
    AtVersionsIsPublished(mapped, b.geo, other);
    FinalisationCompletes(b, id, mapped, other);
    RunConcat(s, Interrupted(id, mapped), Intervention(id, sql, products));
    RunConcat(s, Interrupted(id, mapped) + Intervention(id, sql, products), Finalisation(id, mapped));
    assert Own(b.geo.attachments, id)[0] in Own(b.geo.attachments, id);
  }

  /** One product pair, first offered and published at edition 1 and then at edition 2. */
  const PACKAGE := Package("a", "b", false, 0, "x", "d", 1)

  function Offering(edition: int): Sql {
    var track := Track(true, Some((edition, 0)), None);
    Sql(map[1 := PACKAGE], map[(S57, "a") := track, (S101, "b") := track], map[])
  }

  function Pair(edition: int): seq<Product> {
    [Product(S57, "a", Some(edition), None, 0), Product(S101, "b", Some(edition), None, 0)]
  }

  function OfferedAt(edition: int): Publication {
    Publication(1, "a", edition, 0, "b", edition, 0, 0, "x", "d", 1)
  }

  lemma OfferedIs(edition: int)
    ensures GetPublication(Offering(edition), 1) == Some(OfferedAt(edition))
  {
  }

  lemma PairIsAt(edition: int)
    ensures Select(Pair(edition), S57, "a") == [Pair(edition)[0]]
    ensures Select(Pair(edition), S101, "b") == [Pair(edition)[1]]
    ensures BothAt(Geodatabase(Pair(edition), []), OfferedAt(edition))
  {
    SelectBoth(Pair(edition)[0], Pair(edition)[1]);
  }

  lemma FirstEditionPublishes()
    ensures Publish(["a"], Geodatabase(Pair(0), []), OfferedAt(1)).Success?
  {
    PairIsAt(0);
    XIsNotBlank();
    FirstSucceeds(Geodatabase(Pair(0), []), OfferedAt(1), Pair(0)[0], Pair(0)[1]);
  }

  lemma XIsNotBlank()
    ensures !IsBlank("x")
  {
    assert !IsWhite("x"[0]);
  }

  /** Edition 1 is attached and edition 2 completed. */
  lemma EditionTwoCompletes()
    ensures
      var start := System(Geodatabase(Pair(0), []), Offering(1), map[], map[]);
      var now := Run(start, Interrupted(1, ["a"]) + Intervention(1, Offering(2), Pair(2)) + Finalisation(1, ["a"]));
      1 in now.completed && !HasPublishedVersion(Own(now.geo.attachments, 1), now.completed[1])
  {
    OfferedIs(1);
    OfferedIs(2);
    PairIsAt(2);
    FirstEditionPublishes();
    var start := System(Geodatabase(Pair(0), []), Offering(1), map[], map[]);
    OtherVersionCompletes(start, 1, ["a"], OfferedAt(1), Offering(2), Pair(2), OfferedAt(2));
  }
}
