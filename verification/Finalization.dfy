/** Finalising an accepted ENC package: one atomic geodatabase edit, then SQL completion, with crashes and retries. */
module Finalization {
  import opened Wrappers
  import opened Text

  /*************** The two stores ***************/

  datatype Spec = S57 | S101 | OtherSpec

  /** Names are compared without case, so they are kept folded; `issued` is a day. */
  datatype Product = Product(spec: Spec, name: string, edition: Option<int>, update: Option<int>, issued: int)

  datatype ExportType = NewDataset | NewEdition | Update

  /** Attachments that do not come from packages carry no package. */
  datatype Attachment = Attachment(package: Option<nat>, digest: Option<string>, dataset: Option<string>, edition: int,
                                   update: int, exportType: ExportType)

  datatype Geodatabase = Geodatabase(products: seq<Product>, attachments: seq<Attachment>)

  /** `digest` is the hash of the YAML text. */
  datatype Publication = Publication(
    package: nat, s57: string, s57Edition: int, s57Update: int, s101: string, s101Edition: int, s101Update: int,
    detectedAt: int, yaml: string, digest: string, indexLength: nat)

  datatype FinalizeError =
    | InvalidPublication | NotMapped | Conflict | Duplicate | Missing | NeedsRepair | ChangedOutside
    | PackageChanged | RevisionChanged

  function Own(attachments: seq<Attachment>, package: nat): seq<Attachment> {
    if attachments == [] then [] else
      var last := attachments[|attachments| - 1];
      Own(attachments[..|attachments| - 1], package) + if last.package == Some(package) then [last] else []
  }

  function Select(products: seq<Product>, spec: Spec, name: string): seq<Product> {
    if products == [] then [] else
      var last := products[|products| - 1];
      Select(products[..|products| - 1], spec, name) + if last.spec == spec && last.name == name then [last] else []
  }

  function OrZero(n: Option<int>): int {
    if n.Some? then n.value else 0
  }

  predicate HasVersion(p: Product, edition: int, update: int) {
    p.edition == Some(edition) && OrZero(p.update) == update
  }

  predicate EditionAbove(p: Product, edition: int) {
    p.edition.Some? && p.edition.value > edition
  }

  predicate Consistent(a: Attachment, pub: Publication) {
    a.digest == Some(pub.digest) && a.dataset == Some(pub.s101)
  }

  /** Ticks of one day. */
  const DAY := 864_000_000_000

  /** The day an instant falls on. */
  function DayOf(t: int): int {
    t / DAY
  }

  function Issued(p: Product, pub: Publication): Product {
    if p.spec == S57 && p.name == pub.s57
      then p.(edition := Some(pub.s57Edition), update := Some(pub.s57Update), issued := DayOf(pub.detectedAt))
    else if p.spec == S101 && p.name == pub.s101
      then p.(edition := Some(pub.s101Edition), update := Some(pub.s101Update), issued := DayOf(pub.detectedAt))
    else p
  }

  function Issuing(pub: Publication): Product -> Product {
    p => Issued(p, pub)
  }

  function MapProducts(products: seq<Product>, f: Product -> Product): (r: seq<Product>)
    ensures |r| == |products| && forall i | 0 <= i < |r| :: r[i] == f(products[i])
  {
    if products == [] then [] else MapProducts(products[..|products| - 1], f) + [f(products[|products| - 1])]
  }

  function AllIssued(products: seq<Product>, pub: Publication): (r: seq<Product>)
    ensures |r| == |products| && forall i | 0 <= i < |r| :: r[i] == Issued(products[i], pub)
  {
    MapProducts(products, Issuing(pub))
  }

  function NewAttachment(before: Product, pub: Publication): Attachment {
    var exportType :=
      if OrZero(before.edition) == 0 then NewDataset else if pub.s101Update > 0 then Update else NewEdition;
    Attachment(Some(pub.package), Some(pub.digest), Some(pub.s101), pub.s101Edition, pub.s101Update, exportType)
  }

  /** The whole publication, as the single-threaded dispatcher runs it: every check, then one edit transaction. */
  function Publish(mapped: seq<string>, geo: Geodatabase, pub: Publication): Result<Geodatabase, FinalizeError> {
    var own := Own(geo.attachments, pub.package);
    var s57, s101 := Select(geo.products, S57, pub.s57), Select(geo.products, S101, pub.s101);
    if pub.package == 0 || IsBlank(pub.yaml) || pub.indexLength == 0 then Failure(InvalidPublication)
    else if mapped != [pub.s57] then Failure(NotMapped)
    else if |own| > 1 || exists a :: a in own && !Consistent(a, pub) then Failure(Conflict)
    else if |s57| > 1 || |s101| > 1 then Failure(Duplicate)
    else if s57 == [] || s101 == [] then Failure(Missing)
    else
      var s57Published := HasVersion(s57[0], pub.s57Edition, pub.s57Update);
      var s101Published := HasVersion(s101[0], pub.s101Edition, pub.s101Update);
      if own != [] then
        if s57Published && s101Published then Success(geo) else Failure(NeedsRepair)
      else if s57Published || s101Published || EditionAbove(s57[0], pub.s57Edition)
        || EditionAbove(s101[0], pub.s101Edition) then Failure(ChangedOutside)
      else Success(Geodatabase(AllIssued(geo.products, pub), geo.attachments + [NewAttachment(s101[0], pub)]))
  }

  datatype Track = Track(accepted: bool, candidate: Option<(int, int)>, published: Option<(int, int)>)

  datatype Package = Package(s57: string, s101: string, discarded: bool, detectedAt: int, yaml: string, digest: string,
                             indexLength: nat)

  /** `replay` is the earliest instant from which each source has to be scanned again. */
  datatype Sql = Sql(packages: map<nat, Package>, tracks: map<(Spec, string), Track>, replay: map<string, int>)

  predicate Accepted(sql: Sql, spec: Spec, name: string) {
    (spec, name) in sql.tracks && sql.tracks[(spec, name)].accepted && sql.tracks[(spec, name)].candidate.Some?
  }

  /** Both candidates of the package are accepted. */
  predicate IsPending(sql: Sql, id: nat) {
    id in sql.packages &&
    var p := sql.packages[id];
    !p.discarded && Accepted(sql, S57, p.s57) && Accepted(sql, S101, p.s101)
  }

  function GetPublication(sql: Sql, id: nat): Option<Publication> {
    if id !in sql.packages || sql.packages[id].discarded then None else
      var p := sql.packages[id];
      if !Accepted(sql, S57, p.s57) || !Accepted(sql, S101, p.s101) then None else
        var (edition57, update57) := sql.tracks[(S57, p.s57)].candidate.value;
        var (edition101, update101) := sql.tracks[(S101, p.s101)].candidate.value;
        Some(Publication(id, p.s57, edition57, update57, p.s101, edition101, update101, p.detectedAt, p.yaml, p.digest,
                         p.indexLength))
  }

  predicate StillAccepted(sql: Sql, spec: Spec, name: string, edition: int, update: int) {
    Accepted(sql, spec, name) && sql.tracks[(spec, name)].candidate.value == (edition, update)
  }

  /** One serialisable transaction; a package that is gone was completed before. */
  function Complete(sql: Sql, pub: Publication): Result<Sql, FinalizeError> {
    if pub.package !in sql.packages then Success(sql) else
      var p := sql.packages[pub.package];
      if p.discarded || p.s57 != pub.s57 || p.s101 != pub.s101 then Failure(PackageChanged)
      else if !StillAccepted(sql, S57, pub.s57, pub.s57Edition, pub.s57Update)
        || !StillAccepted(sql, S101, pub.s101, pub.s101Edition, pub.s101Update) then
        Failure(RevisionChanged)
      else
        var tracks := sql.tracks[(S57, pub.s57) := Track(false, None, Some((pub.s57Edition, pub.s57Update)))]
                                [(S101, pub.s101) := Track(false, None, Some((pub.s101Edition, pub.s101Update)))];
        var from := if pub.s101 in sql.replay && sql.replay[pub.s101] < pub.detectedAt then sql.replay[pub.s101]
          else pub.detectedAt;
        Success(Sql(sql.packages - {pub.package}, tracks, sql.replay[pub.s101 := from]))
  }

  /** What completing leaves behind. */
  predicate CompletesTo(sql: Sql, pub: Publication, after: Sql) {
    && pub.package !in after.packages && GetPublication(after, pub.package) == None
    && (S57, pub.s57) in after.tracks && after.tracks[(S57, pub.s57)].published == Some((pub.s57Edition, pub.s57Update))
    && (S101, pub.s101) in after.tracks
    && after.tracks[(S101, pub.s101)].published == Some((pub.s101Edition, pub.s101Update))
    && pub.s101 in after.replay && after.replay[pub.s101] <= pub.detectedAt
    && (pub.s101 in sql.replay ==> after.replay[pub.s101] <= sql.replay[pub.s101])
    && Complete(after, pub) == Success(after)
  }

  /** What one call does to both stores when nothing interrupts it. */
  function Finalize(mapped: string -> seq<string>, geo: Geodatabase, sql: Sql, id: nat)
      : (Geodatabase, Sql, Option<FinalizeError>) {
    match GetPublication(sql, id)
    case None => (geo, sql, None)
    case Some(pub) =>
      match Publish(mapped(pub.s101), geo, pub)
      case Failure(e) => (geo, sql, Some(e))
      case Success(after) =>
        match Complete(sql, pub)
        case Failure(e) => (after, sql, Some(e))
        case Success(done) => (after, done, None)
  }

  function FinalizeAll(mapped: string -> seq<string>, geo: Geodatabase, sql: Sql, ids: seq<nat>): (Geodatabase, Sql) {
    if ids == [] then (geo, sql) else
      var (g, s) := FinalizeAll(mapped, geo, sql, ids[..|ids| - 1]);
      var (g', s', _) := Finalize(mapped, g, s, ids[|ids| - 1]);
      (g', s')
  }

  class EncPackageFinalizationService {
    const mapped: string -> seq<string>
    var geo: Geodatabase
    var sql: Sql

    constructor (mapped: string -> seq<string>, geo: Geodatabase, sql: Sql)
      ensures this.mapped == mapped && this.geo == geo && this.sql == sql
    {
      this.mapped, this.geo, this.sql := mapped, geo, sql;
    }

    method FindOwnAttachment(pub: Publication) returns (r: Result<bool, FinalizeError>)
      ensures var own := Own(geo.attachments, pub.package);
        r == if |own| > 1 || exists a :: a in own && !Consistent(a, pub) then Failure(Conflict) else Success(own != [])
    {
      var found := false;
      for n := 0 to |geo.attachments|
        invariant var own := Own(geo.attachments[..n], pub.package);
          |own| <= 1 && (forall a | a in own :: Consistent(a, pub)) && found == (own != [])
      {
        OwnOfNext(geo.attachments, n, pub.package);
        var a := geo.attachments[n];
        if a.package == Some(pub.package) {
          if found || !Consistent(a, pub) {
            OwnOfPrefix(geo.attachments, n + 1, pub.package);
            ConflictFound(Own(geo.attachments[..n], pub.package), a, Own(geo.attachments, pub.package), pub);
            return Failure(Conflict);
          }
          found := true;
        }
      }
      assert geo.attachments[..|geo.attachments|] == geo.attachments;
      return Success(found);
    }

    method PublishAcceptedEncPackage(pub: Publication) returns (r: Result<(), FinalizeError>)
      modifies this`geo
      ensures var published := Publish(mapped(pub.s101), old(geo), pub);
        && (r.Success? <==> published.Success?)
        && (r.Failure? ==> r.error == published.error && geo == old(geo))
        && (r.Success? ==> geo == published.value)
    {
      if pub.package == 0 || IsBlank(pub.yaml) || pub.indexLength == 0 {
        return Failure(InvalidPublication);
      }
      if mapped(pub.s101) != [pub.s57] {
        return Failure(NotMapped);
      }
      var existing := FindOwnAttachment(pub);
      if existing.Failure? {
        return Failure(Conflict);
      }
      var s57, s101 := Select(geo.products, S57, pub.s57), Select(geo.products, S101, pub.s101);
      if |s57| > 1 || |s101| > 1 {
        return Failure(Duplicate);
      }
      if s57 == [] || s101 == [] {
        return Failure(Missing);
      }
      var s57Published := HasVersion(s57[0], pub.s57Edition, pub.s57Update);
      var s101Published := HasVersion(s101[0], pub.s101Edition, pub.s101Update);
      if existing.value {
        if !s57Published || !s101Published {
          return Failure(NeedsRepair);
        }
        return Success(());
      }
      if s57Published || s101Published || EditionAbove(s57[0], pub.s57Edition)
        || EditionAbove(s101[0], pub.s101Edition) {
        return Failure(ChangedOutside);
      }
      var products: seq<Product> := [];
      for n := 0 to |geo.products|
        invariant geo == old(geo) && products == AllIssued(geo.products[..n], pub)
      {
        ghost var next := geo.products[..n + 1];
        assert next[..|next| - 1] == geo.products[..n];
        products := products + [Issued(geo.products[n], pub)];
      }
      assert geo.products[..|geo.products|] == geo.products;
      geo := Geodatabase(products, geo.attachments + [NewAttachment(s101[0], pub)]);
      return Success(());
    }

    method FinalizeAsync(id: nat) returns (error: Option<FinalizeError>)
      modifies this
      ensures (geo, sql, error) == Finalize(mapped, old(geo), old(sql), id)
    {
      var pub := GetPublication(sql, id);
      if pub.None? {
        return None;
      }
      var published := PublishAcceptedEncPackage(pub.value);
      if published.Failure? {
        return Some(published.error);
      }
      var completed := Complete(sql, pub.value);
      if completed.Failure? {
        return Some(completed.error);
      }
      sql := completed.value;
      return None;
    }

    /** The pending packages, each once, in whatever order the query returns them. */
    method GetPending() returns (ids: seq<nat>)
      ensures forall id: nat :: id in ids <==> IsPending(sql, id)
      ensures forall i, j | 0 <= i < j < |ids| :: ids[i] != ids[j]
    {
      ids := [];
      var left := sql.packages.Keys;
      while left != {}
        invariant left <= sql.packages.Keys
        invariant forall id: nat :: id in ids <==> id !in left && IsPending(sql, id)
        invariant forall i, j | 0 <= i < j < |ids| :: ids[i] != ids[j]
        decreases left
      {
        var id :| id in left;
        left := left - {id};
        if IsPending(sql, id) {
          ids := ids + [id];
        }
      }
    }

    /** A package that fails is left for the next scan and does not stop the others. */
    method FinalizePendingAsync() returns (ids: seq<nat>)
      modifies this
      ensures forall id: nat :: id in ids <==> IsPending(old(sql), id)
      ensures forall i, j | 0 <= i < j < |ids| :: ids[i] != ids[j]
      ensures (geo, sql) == FinalizeAll(mapped, old(geo), old(sql), ids)
    {
      ids := GetPending();
      for n := 0 to |ids|
        invariant (geo, sql) == FinalizeAll(mapped, old(geo), old(sql), ids[..n])
      {
        assert ids[..n + 1][..n] == ids[..n];
        var error := FinalizeAsync(ids[n]);
      }
      assert ids[..|ids|] == ids;
    }
  }

  /** What the scan takes up is exactly what a finalisation would publish. */
  lemma PendingHasPublication(sql: Sql, id: nat)
    ensures IsPending(sql, id) <==> GetPublication(sql, id).Some?
    ensures IsPending(sql, id) ==> GetPublication(sql, id).value.package == id
  {
  }

  lemma OwnOfNext(attachments: seq<Attachment>, n: nat, package: nat)
    requires n < |attachments|
    ensures Own(attachments[..n + 1], package) ==
      Own(attachments[..n], package) + if attachments[n].package == Some(package) then [attachments[n]] else []
  {
    assert attachments[..n + 1][..n] == attachments[..n];
  }

  lemma ConflictFound(before: seq<Attachment>, a: Attachment, own: seq<Attachment>, pub: Publication)
    requires before + [a] <= own && (before != [] || !Consistent(a, pub))
    ensures |own| > 1 || exists b :: b in own && !Consistent(b, pub)
  {
    assert own[|before|] == a;
  }

  lemma {:induction false} OwnOfPrefix(attachments: seq<Attachment>, n: nat, package: nat)
    requires n <= |attachments|
    ensures Own(attachments[..n], package) <= Own(attachments, package)
    decreases |attachments|
  {
    if n < |attachments| {
      assert attachments[..|attachments| - 1][..n] == attachments[..n];
      OwnOfPrefix(attachments[..|attachments| - 1], n, package);
    } else {
      assert attachments[..n] == attachments;
    }
  }

  /*************** One publication ***************/

  ghost predicate KeepsKeys(f: Product -> Product) {
    forall p: Product :: f(p).spec == p.spec && f(p).name == p.name
  }

  lemma SelectOfNext(products: seq<Product>, p: Product, spec: Spec, name: string)
    ensures Select(products + [p], spec, name) ==
      if p.spec == spec && p.name == name then Select(products, spec, name) + [p] else Select(products, spec, name)
  {
    assert (products + [p])[..|products|] == products;
  }

  lemma MapOfNext(products: seq<Product>, p: Product, f: Product -> Product)
    ensures MapProducts(products + [p], f) == MapProducts(products, f) + [f(p)]
  {
    assert (products + [p])[..|products|] == products;
  }

  lemma {:induction false} MappingKeepsSelection(products: seq<Product>, f: Product -> Product, spec: Spec,
                                                 name: string)
    requires KeepsKeys(f)
    ensures Select(MapProducts(products, f), spec, name) == MapProducts(Select(products, spec, name), f)
    decreases |products|
  {
    if products != [] {
      var init, last := products[..|products| - 1], products[|products| - 1];
      assert products == init + [last];
      MappingKeepsSelection(init, f, spec, name);
      MapOfNext(init, last, f);
      SelectOfNext(init, last, spec, name);
      SelectOfNext(MapProducts(init, f), f(last), spec, name);
      MapOfNext(Select(init, spec, name), last, f);
    }
  }

  lemma IssuingKeepsKeys(pub: Publication)
    ensures KeepsKeys(Issuing(pub))
  {
    forall p: Product ensures Issuing(pub)(p).spec == p.spec && Issuing(pub)(p).name == p.name {
      assert Issuing(pub)(p) == Issued(p, pub);
    }
  }

  lemma IssuedKeepsSelection(products: seq<Product>, pub: Publication, spec: Spec, name: string)
    ensures Select(AllIssued(products, pub), spec, name) == AllIssued(Select(products, spec, name), pub)
  {
    var f: Product -> Product := Issuing(pub);
    IssuingKeepsKeys(pub);
    MappingKeepsSelection(products, f, spec, name);
    assert AllIssued(products, pub) == MapProducts(products, f);
    assert AllIssued(Select(products, spec, name), pub) == MapProducts(Select(products, spec, name), f);
  }

  lemma {:induction false} SelectedHasKey(products: seq<Product>, spec: Spec, name: string)
    ensures forall p :: p in Select(products, spec, name) <==> p in products && p.spec == spec && p.name == name
    decreases |products|
  {
    if products != [] {
      SelectedHasKey(products[..|products| - 1], spec, name);
      assert products == products[..|products| - 1] + [products[|products| - 1]];
    }
  }

  /** The product of one specification and name, if it is the only one. */
  predicate IsAt(geo: Geodatabase, spec: Spec, name: string, edition: int, update: int) {
    |Select(geo.products, spec, name)| == 1 && HasVersion(Select(geo.products, spec, name)[0], edition, update)
  }

  predicate BothAt(geo: Geodatabase, pub: Publication) {
    IsAt(geo, S57, pub.s57, pub.s57Edition, pub.s57Update) && IsAt(geo, S101, pub.s101, pub.s101Edition, pub.s101Update)
  }

  predicate NoDecrease(before: Option<int>, after: Option<int>) {
    before.Some? ==> after.Some? && after.value >= before.value
  }

  lemma EditionRises(products: seq<Product>, spec: Spec, name: string, edition: int, p: Product)
    requires |Select(products, spec, name)| == 1 && !EditionAbove(Select(products, spec, name)[0], edition)
    requires p in products && p.spec == spec && p.name == name
    ensures NoDecrease(p.edition, Some(edition))
  {
    SelectedHasKey(products, spec, name);
    assert p in Select(products, spec, name);
  }

  lemma SelectionMoves(products: seq<Product>, pub: Publication, spec: Spec, name: string)
    requires |Select(products, spec, name)| == 1
    ensures |Select(AllIssued(products, pub), spec, name)| == 1
    ensures Select(AllIssued(products, pub), spec, name)[0] == Issued(Select(products, spec, name)[0], pub)
    ensures Select(products, spec, name)[0].spec == spec && Select(products, spec, name)[0].name == name
  {
    IssuedKeepsSelection(products, pub, spec, name);
    SelectedHasKey(products, spec, name);
    assert Select(products, spec, name)[0] in Select(products, spec, name);
  }

  lemma ProductsMoveTogether(geo: Geodatabase, pub: Publication)
    requires |Select(geo.products, S57, pub.s57)| == 1
      && !EditionAbove(Select(geo.products, S57, pub.s57)[0], pub.s57Edition)
    requires |Select(geo.products, S101, pub.s101)| == 1
      && !EditionAbove(Select(geo.products, S101, pub.s101)[0], pub.s101Edition)
    ensures BothAt(geo.(products := AllIssued(geo.products, pub)), pub)
    ensures forall i | 0 <= i < |geo.products| ::
      NoDecrease(geo.products[i].edition, AllIssued(geo.products, pub)[i].edition)
  {
    SelectionMoves(geo.products, pub, S57, pub.s57);
    SelectionMoves(geo.products, pub, S101, pub.s101);
    forall i | 0 <= i < |geo.products|
      ensures NoDecrease(geo.products[i].edition, AllIssued(geo.products, pub)[i].edition)
    {
      var p := geo.products[i];
      if p.spec == S57 && p.name == pub.s57 {
        EditionRises(geo.products, S57, pub.s57, pub.s57Edition, p);
      } else if p.spec == S101 && p.name == pub.s101 {
        EditionRises(geo.products, S101, pub.s101, pub.s101Edition, p);
      }
    }
  }

  lemma AttachmentIsFirst(attachments: seq<Attachment>, added: Attachment, pub: Publication)
    requires Own(attachments, pub.package) == [] && added.package == Some(pub.package)
    ensures Own(attachments + [added], pub.package) == [added]
  {
    assert (attachments + [added])[..|attachments|] == attachments;
  }

  /**
   * A successful publication leaves both products at the package's versions and exactly one attachment for it. Either
   * that was so before, and nothing changed, or the package had no attachment, one was added, no edition went down and
   * no other product changed.
   */
  lemma PublishesBothTogether(mapped: seq<string>, geo: Geodatabase, pub: Publication)
    requires Publish(mapped, geo, pub).Success?
    ensures var after := Publish(mapped, geo, pub).value;
      && BothAt(after, pub)
      && (exists a :: Own(after.attachments, pub.package) == [a] && Consistent(a, pub))
      && if Own(geo.attachments, pub.package) != [] then after == geo else
           && |after.attachments| == |geo.attachments| + 1 && geo.attachments <= after.attachments
           && |after.products| == |geo.products|
           && (forall i | 0 <= i < |geo.products| :: NoDecrease(geo.products[i].edition, after.products[i].edition))
           && (forall i | 0 <= i < |geo.products| :: after.products[i] != geo.products[i] ==>
                 (after.products[i].spec, after.products[i].name) in {(S57, pub.s57), (S101, pub.s101)})
  {
    var own, after := Own(geo.attachments, pub.package), Publish(mapped, geo, pub).value;
    if own != [] {
      assert own == [own[0]];
    } else {
      ProductsMoveTogether(geo, pub);
      AttachmentIsFirst(geo.attachments, NewAttachment(Select(geo.products, S101, pub.s101)[0], pub), pub);
    }
  }

  /** A retry after the edit went through succeeds and changes nothing. */
  lemma RetryIsHarmless(mapped: seq<string>, geo: Geodatabase, pub: Publication)
    requires Publish(mapped, geo, pub).Success?
    ensures Publish(mapped, Publish(mapped, geo, pub).value, pub) == Publish(mapped, geo, pub)
  {
    PublishesBothTogether(mapped, geo, pub);
  }

  predicate VersionBelow(edition: int, update: int, p: Product) {
    p.edition.Some? && (edition < p.edition.value || (edition == p.edition.value && update < OrZero(p.update)))
  }

  /** Only editions are compared, so a version goes down exactly when the edition stays and the update number falls. */
  lemma VersionFallsIff(mapped: seq<string>, geo: Geodatabase, pub: Publication)
    requires Publish(mapped, geo, pub).Success? && Own(geo.attachments, pub.package) == []
    ensures var before := Select(geo.products, S57, pub.s57)[0];
      VersionBelow(pub.s57Edition, pub.s57Update, before) <==>
        before.edition == Some(pub.s57Edition) && pub.s57Update < OrZero(before.update)
    ensures var before := Select(geo.products, S101, pub.s101)[0];
      VersionBelow(pub.s101Edition, pub.s101Update, before) <==>
        before.edition == Some(pub.s101Edition) && pub.s101Update < OrZero(before.update)
  {
  }

  const OLD57 := Product(S57, "a", Some(2), Some(5), 0)
  const OLD101 := Product(S101, "b", Some(2), Some(5), 0)
  const LOWER := Publication(1, "a", 2, 4, "b", 2, 4, 0, "x", "d", 1)

  /** Enough for a first publication. */
  lemma FirstSucceeds(geo: Geodatabase, pub: Publication, s57: Product, s101: Product)
    requires pub.package != 0 && !IsBlank(pub.yaml) && pub.indexLength != 0 && geo.attachments == []
    requires Select(geo.products, S57, pub.s57) == [s57] && Select(geo.products, S101, pub.s101) == [s101]
    requires !HasVersion(s57, pub.s57Edition, pub.s57Update) && !HasVersion(s101, pub.s101Edition, pub.s101Update)
    requires !EditionAbove(s57, pub.s57Edition) && !EditionAbove(s101, pub.s101Edition)
    ensures Publish([pub.s57], geo, pub).Success?
  {
    assert Own(geo.attachments, pub.package) == [];
  }

  lemma SelectBoth(first: Product, second: Product)
    requires first.spec != second.spec
    ensures Select([first, second], first.spec, first.name) == [first]
    ensures Select([first, second], second.spec, second.name) == [second]
  {
    SelectOfNext([], first, first.spec, first.name);
    SelectOfNext([], first, second.spec, second.name);
    SelectOfNext([first], second, first.spec, first.name);
    SelectOfNext([first], second, second.spec, second.name);
    assert [] + [first] == [first] && [] + [second] == [second] && [first] + [second] == [first, second];
  }

  lemma UpdateNumberCanFall()
    ensures
      var before := Geodatabase([OLD57, OLD101], []);
      var published := Publish(["a"], before, LOWER);
      published.Success? && IsAt(before, S57, "a", 2, 5) && IsAt(published.value, S57, "a", 2, 4)
  {
    SelectBoth(OLD57, OLD101);
    assert !IsWhite("x"[0]);
    PublishesBothTogether(["a"], Geodatabase([OLD57, OLD101], []), LOWER);
  }

  /** Completing moves both tracks to the published versions, drops the package and never moves the replay point on. */
  lemma CompletionMovesBothTracks(sql: Sql, pub: Publication)
    requires pub.package in sql.packages && Complete(sql, pub).Success?
    ensures CompletesTo(sql, pub, Complete(sql, pub).value)
  {
  }

  /*************** Publication and completion field by field ***************/

  /** The product at this position is the only one of its specification and name. */
  ghost predicate IsOnly(products: seq<Product>, spec: Spec, name: string, i: nat) {
    && i < |products| && products[i].spec == spec && products[i].name == name
    && forall j | 0 <= j < |products| && products[j].spec == spec && products[j].name == name :: j == i
  }

  lemma {:induction false} SelectedNoneIff(products: seq<Product>, spec: Spec, name: string)
    ensures Select(products, spec, name) == [] <==>
            forall j | 0 <= j < |products| :: products[j].spec != spec || products[j].name != name
    decreases |products|
  {
    if products != [] {
      SelectedNoneIff(products[..|products| - 1], spec, name);
      assert products == products[..|products| - 1] + [products[|products| - 1]];
    }
  }

  lemma {:induction false} SelectedOneIff(products: seq<Product>, spec: Spec, name: string)
    ensures |Select(products, spec, name)| == 1 <==> exists i: nat :: IsOnly(products, spec, name, i)
    ensures forall i: nat | IsOnly(products, spec, name, i) :: Select(products, spec, name) == [products[i]]
    decreases |products|
  {
    if products != [] {
      var init, last := products[..|products| - 1], products[|products| - 1];
      SelectedOneIff(init, spec, name);
      SelectedNoneIff(init, spec, name);
      if last.spec == spec && last.name == name {
        assert Select(init, spec, name) == [] <==> IsOnly(products, spec, name, |init|);
      } else {
        forall i: nat ensures IsOnly(products, spec, name, i) <==> IsOnly(init, spec, name, i) {
        }
      }
    }
  }

  /** No attachment belongs to the package. */
  ghost predicate NoneAttached(attachments: seq<Attachment>, package: nat) {
    forall k | 0 <= k < |attachments| :: attachments[k].package != Some(package)
  }

  /** One attachment belongs to the package, and it holds this digest for this dataset. */
  ghost predicate OneAttached(attachments: seq<Attachment>, package: nat, digest: string, dataset: string) {
    exists k: nat ::
      && k < |attachments| && attachments[k].package == Some(package)
      && attachments[k].digest == Some(digest) && attachments[k].dataset == Some(dataset)
      && forall j | 0 <= j < |attachments| && attachments[j].package == Some(package) :: j == k
  }

  lemma {:induction false} OwnNoneIff(attachments: seq<Attachment>, package: nat)
    ensures Own(attachments, package) == [] <==> NoneAttached(attachments, package)
    decreases |attachments|
  {
    if attachments != [] {
      OwnNoneIff(attachments[..|attachments| - 1], package);
      assert attachments == attachments[..|attachments| - 1] + [attachments[|attachments| - 1]];
    }
  }

  lemma {:induction false} OwnOneIff(attachments: seq<Attachment>, pub: Publication)
    ensures OneAttached(attachments, pub.package, pub.digest, pub.s101) <==>
            exists a :: Own(attachments, pub.package) == [a] && Consistent(a, pub)
    decreases |attachments|
  {
    if attachments != [] {
      var init, last := attachments[..|attachments| - 1], attachments[|attachments| - 1];
      assert attachments == init + [last];
      OwnOneIff(init, pub);
      OwnNoneIff(init, pub.package);
      if last.package == Some(pub.package) {
        OwnedLast(attachments, pub);
        var own := Own(attachments, pub.package);
        assert own == Own(init, pub.package) + [last] && own[|own| - 1] == last;
        assert Own(init, pub.package) == [] ==> own == [last];
      } else {
        NotOwnedLast(attachments, pub);
      }
    }
  }

  lemma OwnedLast(attachments: seq<Attachment>, pub: Publication)
    requires attachments != [] && attachments[|attachments| - 1].package == Some(pub.package)
    ensures OneAttached(attachments, pub.package, pub.digest, pub.s101) <==>
            && NoneAttached(attachments[..|attachments| - 1], pub.package)
            && Consistent(attachments[|attachments| - 1], pub)
  {
    var last: nat := |attachments| - 1;
    if NoneAttached(attachments[..last], pub.package) && Consistent(attachments[last], pub) {
      forall j | 0 <= j < last ensures attachments[..last][j] == attachments[j] {
      }
    }
  }

  lemma NotOwnedLast(attachments: seq<Attachment>, pub: Publication)
    requires attachments != [] && attachments[|attachments| - 1].package != Some(pub.package)
    ensures OneAttached(attachments, pub.package, pub.digest, pub.s101) <==>
            OneAttached(attachments[..|attachments| - 1], pub.package, pub.digest, pub.s101)
  {
    var init := attachments[..|attachments| - 1];
    forall k | 0 <= k < |init| ensures init[k] == attachments[k] {
    }
  }

  ghost predicate IsAtVersion(p: Product, edition: int, update: int) {
    p.edition == Some(edition) && (p.update == Some(update) || (p.update.None? && update == 0))
  }

  ghost predicate MayMoveTo(p: Product, edition: int, update: int) {
    !IsAtVersion(p, edition, update) && (p.edition.Some? ==> p.edition.value <= edition)
  }

  /** What publication asks of its arguments, the two products and the attachments. */
  ghost predicate CanPublish(mapped: seq<string>, geo: Geodatabase, pub: Publication) {
    && pub.package != 0 && pub.indexLength != 0 && (exists c :: c in pub.yaml && !IsWhite(c)) && mapped == [pub.s57]
    && exists i: nat, j: nat ::
      && IsOnly(geo.products, S57, pub.s57, i) && IsOnly(geo.products, S101, pub.s101, j)
      && if NoneAttached(geo.attachments, pub.package)
         then MayMoveTo(geo.products[i], pub.s57Edition, pub.s57Update)
              && MayMoveTo(geo.products[j], pub.s101Edition, pub.s101Update)
         else OneAttached(geo.attachments, pub.package, pub.digest, pub.s101)
              && IsAtVersion(geo.products[i], pub.s57Edition, pub.s57Update)
              && IsAtVersion(geo.products[j], pub.s101Edition, pub.s101Update)
  }

  lemma SomeNotWhite(s: string)
    ensures IsBlank(s) <==> !exists c :: c in s && !IsWhite(c)
  {
    if !IsBlank(s) {
      var i :| 0 <= i < |s| && !IsWhite(s[i]);
      assert s[i] in s;
    }
  }

  /** The same on the two products and the attachments that the checks look at. */
  ghost predicate ChecksPass(geo: Geodatabase, pub: Publication, s57: seq<Product>, s101: seq<Product>,
                             own: seq<Attachment>) {
    && |s57| == 1 && |s101| == 1
    && if own == [] then MayMoveTo(s57[0], pub.s57Edition, pub.s57Update)
                         && MayMoveTo(s101[0], pub.s101Edition, pub.s101Update)
       else |own| == 1 && Consistent(own[0], pub) && IsAtVersion(s57[0], pub.s57Edition, pub.s57Update)
            && IsAtVersion(s101[0], pub.s101Edition, pub.s101Update)
  }

  lemma PublishesIfChecksPass(mapped: seq<string>, geo: Geodatabase, pub: Publication)
    ensures Publish(mapped, geo, pub).Success? <==>
            && pub.package != 0 && pub.indexLength != 0 && !IsBlank(pub.yaml) && mapped == [pub.s57]
            && ChecksPass(geo, pub, Select(geo.products, S57, pub.s57), Select(geo.products, S101, pub.s101),
                          Own(geo.attachments, pub.package))
  {
    var own := Own(geo.attachments, pub.package);
    assert |own| == 1 ==> own == [own[0]];
  }

  lemma ChecksPassOn(geo: Geodatabase, pub: Publication, i: nat, j: nat)
    requires IsOnly(geo.products, S57, pub.s57, i) && IsOnly(geo.products, S101, pub.s101, j)
    ensures ChecksPass(geo, pub, [geo.products[i]], [geo.products[j]], Own(geo.attachments, pub.package)) <==>
            if NoneAttached(geo.attachments, pub.package)
            then MayMoveTo(geo.products[i], pub.s57Edition, pub.s57Update)
                 && MayMoveTo(geo.products[j], pub.s101Edition, pub.s101Update)
            else OneAttached(geo.attachments, pub.package, pub.digest, pub.s101)
                 && IsAtVersion(geo.products[i], pub.s57Edition, pub.s57Update)
                 && IsAtVersion(geo.products[j], pub.s101Edition, pub.s101Update)
  {
    OwnNoneIff(geo.attachments, pub.package);
    OwnOneIff(geo.attachments, pub);
    var own := Own(geo.attachments, pub.package);
    assert |own| == 1 ==> own == [own[0]];
  }

  /** Publication succeeds exactly for one product each and either no attachment yet or a complete earlier one. */
  lemma PublishSucceedsIff(mapped: seq<string>, geo: Geodatabase, pub: Publication)
    ensures Publish(mapped, geo, pub).Success? <==> CanPublish(mapped, geo, pub)
  {
    SomeNotWhite(pub.yaml);
    PublishesIfChecksPass(mapped, geo, pub);
    SelectedOneIff(geo.products, S57, pub.s57);
    SelectedOneIff(geo.products, S101, pub.s101);
    forall i: nat, j: nat | IsOnly(geo.products, S57, pub.s57, i) && IsOnly(geo.products, S101, pub.s101, j)
      ensures Select(geo.products, S57, pub.s57) == [geo.products[i]]
      ensures Select(geo.products, S101, pub.s101) == [geo.products[j]]
    {
    }
    if i: nat, j: nat :| IsOnly(geo.products, S57, pub.s57, i) && IsOnly(geo.products, S101, pub.s101, j) {
      ChecksPassOn(geo, pub, i, j);
    }
  }

  /** A first publication moves the two products to the package's versions and day, and adds its attachment. */
  lemma FirstPublicationMeans(mapped: seq<string>, geo: Geodatabase, pub: Publication, k: nat)
    requires Publish(mapped, geo, pub).Success? && NoneAttached(geo.attachments, pub.package)
    requires k < |geo.products|
    ensures var after, p := Publish(mapped, geo, pub).value, geo.products[k];
            && |after.products| == |geo.products|
            && after.products[k] ==
               (if p.spec == S57 && p.name == pub.s57
                then Product(S57, pub.s57, Some(pub.s57Edition), Some(pub.s57Update), pub.detectedAt / 864_000_000_000)
                else if p.spec == S101 && p.name == pub.s101
                then Product(S101, pub.s101, Some(pub.s101Edition), Some(pub.s101Update),
                             pub.detectedAt / 864_000_000_000)
                else p)
            && (p.spec == S101 && p.name == pub.s101 ==>
                  after.attachments == geo.attachments + [Attachment(
                    Some(pub.package), Some(pub.digest), Some(pub.s101), pub.s101Edition, pub.s101Update,
                    if p.edition == None || p.edition == Some(0) then NewDataset
                    else if pub.s101Update > 0 then Update else NewEdition)])
  {
    OwnNoneIff(geo.attachments, pub.package);
    SelectedHasKey(geo.products, S101, pub.s101);
  }

  /** A pending package is published with the identities, texts and accepted candidates that SQL holds for it. */
  lemma PublicationMeans(sql: Sql, id: nat, pub: Publication)
    ensures GetPublication(sql, id) == Some(pub) <==>
            && pub.package == id && id in sql.packages
            && sql.packages[id] ==
               Package(pub.s57, pub.s101, false, pub.detectedAt, pub.yaml, pub.digest, pub.indexLength)
            && (S57, pub.s57) in sql.tracks && sql.tracks[(S57, pub.s57)].accepted
            && sql.tracks[(S57, pub.s57)].candidate == Some((pub.s57Edition, pub.s57Update))
            && (S101, pub.s101) in sql.tracks && sql.tracks[(S101, pub.s101)].accepted
            && sql.tracks[(S101, pub.s101)].candidate == Some((pub.s101Edition, pub.s101Update))
  {
    if IsPending(sql, id) {
      var p := sql.packages[id];
      var candidate57, candidate101 := sql.tracks[(S57, p.s57)].candidate, sql.tracks[(S101, p.s101)].candidate;
      assert candidate57 == Some((candidate57.value.0, candidate57.value.1));
      assert candidate101 == Some((candidate101.value.0, candidate101.value.1));
      assert p == Package(p.s57, p.s101, p.discarded, p.detectedAt, p.yaml, p.digest, p.indexLength);
    }
  }

  ghost predicate Offers(sql: Sql, spec: Spec, name: string, edition: int, update: int) {
    && (spec, name) in sql.tracks && sql.tracks[(spec, name)].accepted
    && sql.tracks[(spec, name)].candidate == Some((edition, update))
  }

  /**
   * Completion is refused for a discarded or rebound package and for a candidate that is no longer the accepted one. It
   * touches nothing but the package, its two tracks and the replay point of its S-101 source.
   */
  lemma CompletionMeans(sql: Sql, pub: Publication)
    ensures pub.package !in sql.packages ==> Complete(sql, pub) == Success(sql)
    ensures pub.package in sql.packages ==>
      var p := sql.packages[pub.package];
      if p.discarded || p.s57 != pub.s57 || p.s101 != pub.s101 then Complete(sql, pub) == Failure(PackageChanged)
      else if !Offers(sql, S57, pub.s57, pub.s57Edition, pub.s57Update)
              || !Offers(sql, S101, pub.s101, pub.s101Edition, pub.s101Update)
      then Complete(sql, pub) == Failure(RevisionChanged)
      else
        && Complete(sql, pub).Success?
        && var after := Complete(sql, pub).value;
           && (forall id: nat :: id in after.packages <==> id in sql.packages && id != pub.package)
           && (forall id | id in after.packages :: after.packages[id] == sql.packages[id])
           && after.tracks == sql.tracks + map[
             (S57, pub.s57) := Track(false, None, Some((pub.s57Edition, pub.s57Update))),
             (S101, pub.s101) := Track(false, None, Some((pub.s101Edition, pub.s101Update)))]
           && after.replay.Keys == sql.replay.Keys + {pub.s101}
           && (forall name | name in sql.replay && name != pub.s101 :: after.replay[name] == sql.replay[name])
           && after.replay[pub.s101] <= pub.detectedAt
           && (pub.s101 in sql.replay ==> after.replay[pub.s101] <= sql.replay[pub.s101])
           && (after.replay[pub.s101] == pub.detectedAt
               || (pub.s101 in sql.replay && after.replay[pub.s101] == sql.replay[pub.s101]))
  {
  }

  /*************** The version that is attached ***************/

  /** The package's one attachment holds the snapshot of this publication. */
  predicate Attached(geo: Geodatabase, pub: Publication) {
    var own := Own(geo.attachments, pub.package);
    |own| == 1 && Consistent(own[0], pub)
  }

  predicate HasPublishedVersion(own: seq<Attachment>, pub: Publication) {
    forall a | a in own :: a.edition == pub.s101Edition && a.update == pub.s101Update
  }

  /**
   * An attachment that is already there is checked for its digest and dataset only: after a publication it carries the
   * published version exactly when the package had none or one of that version.
   */
  lemma AttachedVersionIff(mapped: seq<string>, geo: Geodatabase, pub: Publication)
    requires Publish(mapped, geo, pub).Success?
    ensures HasPublishedVersion(Own(Publish(mapped, geo, pub).value.attachments, pub.package), pub) <==>
      HasPublishedVersion(Own(geo.attachments, pub.package), pub)
  {
    if Own(geo.attachments, pub.package) == [] {
      AttachmentIsFirst(geo.attachments, NewAttachment(Select(geo.products, S101, pub.s101)[0], pub), pub);
    }
  }

  lemma PublishKeepsOthers(mapped: seq<string>, geo: Geodatabase, pub: Publication, id: nat)
    requires Publish(mapped, geo, pub).Success? && id != pub.package
    ensures Own(Publish(mapped, geo, pub).value.attachments, id) == Own(geo.attachments, id)
  {
    var after := Publish(mapped, geo, pub).value;
    if after != geo {
      assert after.attachments[..|after.attachments| - 1] == geo.attachments;
    }
  }

  /** No package loses its attachment, and each still has at most one. */
  lemma PublishKeepsAttached(mapped: seq<string>, geo: Geodatabase, pub: Publication)
    requires Publish(mapped, geo, pub).Success? && forall id: nat :: |Own(geo.attachments, id)| <= 1
    ensures var after := Publish(mapped, geo, pub).value;
      && Attached(after, pub) && (forall id: nat :: |Own(after.attachments, id)| <= 1)
      && (forall other: Publication | Attached(geo, other) :: Attached(after, other))
  {
    var after := Publish(mapped, geo, pub).value;
    PublishesBothTogether(mapped, geo, pub);
    forall id: nat
      ensures id != pub.package ==> Own(after.attachments, id) == Own(geo.attachments, id)
      ensures |Own(after.attachments, id)| <= 1
    {
      if id != pub.package {
        PublishKeepsOthers(mapped, geo, pub, id);
      }
    }
    if Own(geo.attachments, pub.package) != [] {
      assert after == geo;
    }
  }
}
