/** Removal of redundant metadata regions, largest first, over footprints that are sets of cells. */
module CoverageNormalizer {
  import opened Wrappers
  import opened Sets
  import opened Text

  type Cell = int

  datatype Region = Region(foid: string, featureType: string, attributes: string, masks: string, footprint: set<Cell>,
                           simple: bool)

  datatype CoverageError = DuplicateFoid | InvalidRegion | DifferentSemantics | PartialOverlap | UnsafePlan

  const COVERAGE_TYPES: set<string> := {"DataCoverage", "SoundingDatum", "VerticalDatumOfData"}

  predicate Overlap(a: Region, b: Region) {
    a.footprint * b.footprint != {}
  }

  predicate SameSemantics(a: Region, b: Region) {
    !IsBlank(a.attributes) && !IsBlank(b.attributes) && a.attributes == b.attributes && a.masks == b.masks
  }

  predicate WellFormed(r: Region) {
    r.featureType in COVERAGE_TYPES && r.footprint != {} && r.simple
  }

  /** `s` makes `r` redundant: a larger footprint of its class, or the same footprint with a smaller FOID. */
  predicate Dominates(s: Region, r: Region) {
    s.featureType == r.featureType
      && (r.footprint < s.footprint || (r.footprint == s.footprint && Less(s.foid, r.foid)))
  }

  ghost predicate Maximal(regions: set<Region>, r: Region) {
    r in regions && forall s | s in regions :: !Dominates(s, r)
  }

  ghost function Redundant(regions: set<Region>): set<string> {
    set r | r in regions && !Maximal(regions, r) :: r.foid
  }

  ghost predicate SemanticsAgree(regions: set<Region>) {
    forall a, b | a in regions && b in regions && a != b && a.featureType == b.featureType && Overlap(a, b) ::
      SameSemantics(a, b)
  }

  ghost predicate MaximalOverlap(regions: set<Region>) {
    exists a, b :: Maximal(regions, a) && Maximal(regions, b) && a != b && a.featureType == b.featureType
      && Overlap(a, b)
  }

  ghost predicate DistinctFoids(regions: seq<Region>) {
    forall i, j | 0 <= i < j < |regions| :: regions[i].foid != regions[j].foid
  }

  ghost predicate Acceptable(regions: seq<Region>) {
    && DistinctFoids(regions)
    && (forall r | r in regions :: WellFormed(r))
  }

  ghost function Elements(regions: seq<Region>): set<Region> {
    set r | r in regions
  }

  /*************** What the plan says of the regions' fields ***************/

  /** Two regions of one class that share a cell but not one nonblank attribute text and one mask text. */
  ghost predicate Conflict(a: Region, b: Region) {
    && a.foid != b.foid && a.featureType == b.featureType && (exists c :: c in a.footprint && c in b.footprint)
    && (a.attributes != b.attributes || a.masks != b.masks || (forall c | c in a.attributes :: IsWhite(c)))
  }

  /** Two regions of one class that share a cell although neither footprint lies in the other. */
  ghost predicate Crossing(a: Region, b: Region) {
    && a.featureType == b.featureType && (exists c :: c in a.footprint && c in b.footprint)
    && (exists c :: c in a.footprint && c !in b.footprint) && (exists c :: c in b.footprint && c !in a.footprint)
  }

  /** `s` covers every cell of `r` for the same class; of equal footprints the one whose FOID sorts first does. */
  ghost predicate Supersedes(s: Region, r: Region) {
    && s.featureType == r.featureType && (forall c | c in r.footprint :: c in s.footprint)
    && ((forall c | c in s.footprint :: c in r.footprint) ==> Less(s.foid, r.foid))
  }

  ghost predicate Superseded(regions: set<Region>, r: Region) {
    exists s :: s in regions && Supersedes(s, r)
  }

  lemma HasCell(s: set<Cell>)
    ensures s != {} <==> exists c :: c in s
  {
    if s != {} {
      var c := SomeElement(s);
      assert c in s;
    }
  }

  lemma SharedCell(s: set<Cell>, t: set<Cell>)
    ensures s * t != {} <==> exists c :: c in s && c in t
  {
    HasCell(s * t);
    if c :| c in s && c in t {
      assert c in s * t;
    }
  }

  lemma WithinCells(s: set<Cell>, t: set<Cell>)
    ensures s <= t <==> forall c | c in s :: c in t
  {
    if s - t != {} {
      var c := SomeElement(s - t);
      assert c in s && c !in t;
    } else {
      assert s == s * t + (s - t);
    }
  }

  lemma SameSemanticsUnlessConflict(a: Region, b: Region)
    requires a.featureType == b.featureType && a.foid != b.foid
    ensures Overlap(a, b) ==> (SameSemantics(a, b) <==> !Conflict(a, b))
    ensures Conflict(a, b) ==> Overlap(a, b)
  {
    SharedCell(a.footprint, b.footprint);
    BlankMeansWhite(a.attributes);
  }

  lemma BlankMeansWhite(s: string)
    ensures IsBlank(s) <==> forall c | c in s :: IsWhite(c)
  {
    if !IsBlank(s) {
      var i :| 0 <= i < |s| && !IsWhite(s[i]);
      assert s[i] in s;
    }
  }

  /** The semantic check fails exactly on two overlapping regions of one class that disagree or say nothing. */
  lemma AgreementMeansNoConflict(regions: set<Region>)
    requires forall a, b | a in regions && b in regions && a.foid == b.foid :: a == b
    ensures SemanticsAgree(regions) <==> !exists a, b :: a in regions && b in regions && Conflict(a, b)
  {
    forall a, b | a in regions && b in regions && a != b && a.featureType == b.featureType
      ensures Overlap(a, b) ==> (SameSemantics(a, b) <==> !Conflict(a, b))
      ensures Conflict(a, b) ==> Overlap(a, b)
    {
      SameSemanticsUnlessConflict(a, b);
    }
  }

  lemma DominanceIsSuperseding(s: Region, r: Region)
    ensures Dominates(s, r) <==> Supersedes(s, r)
  {
    WithinCells(r.footprint, s.footprint);
    WithinCells(s.footprint, r.footprint);
  }

  lemma MaximalMeansNotSuperseded(regions: set<Region>, r: Region)
    ensures Maximal(regions, r) <==> r in regions && !Superseded(regions, r)
  {
    forall s ensures Dominates(s, r) <==> Supersedes(s, r) {
      DominanceIsSuperseding(s, r);
    }
  }

  /** Of two distinct regions that share a cell without crossing, one supersedes the other. */
  lemma CrossOrSupersede(a: Region, b: Region)
    requires a.featureType == b.featureType && a.foid != b.foid && Overlap(a, b)
    ensures Crossing(a, b) || Supersedes(a, b) || Supersedes(b, a)
    ensures Crossing(a, b) ==> !Supersedes(a, b) && !Supersedes(b, a)
  {
    LessIsTotal(a.foid, b.foid);
    SharedCell(a.footprint, b.footprint);
  }

  /** A partial overlap is two crossing regions of one class, neither of them superseded. */
  lemma PartialOverlapMeansCrossing(regions: set<Region>)
    requires forall a, b | a in regions && b in regions && a.foid == b.foid :: a == b
    ensures MaximalOverlap(regions) <==> exists a, b ::
      a in regions && b in regions && Crossing(a, b) && !Superseded(regions, a) && !Superseded(regions, b)
  {
    forall r ensures Maximal(regions, r) <==> r in regions && !Superseded(regions, r) {
      MaximalMeansNotSuperseded(regions, r);
    }
    if MaximalOverlap(regions) {
      var a, b :| Maximal(regions, a) && Maximal(regions, b) && a != b && a.featureType == b.featureType
        && Overlap(a, b);
      CrossOrSupersede(a, b);
      assert Crossing(a, b);
    }
    if a, b :| a in regions && b in regions && Crossing(a, b) && !Superseded(regions, a) && !Superseded(regions, b) {
      SharedCell(a.footprint, b.footprint);
      assert Overlap(a, b);
    }
  }

  /*************** The dominance order ***************/

  lemma DominanceIsTransitive(a: Region, b: Region, c: Region)
    requires Dominates(a, b) && Dominates(b, c)
    ensures Dominates(a, c)
  {
    if a.footprint == b.footprint == c.footprint {
      LessIsTransitive(a.foid, b.foid, c.foid);
    }
  }

  lemma DominanceIsStrict(a: Region)
    ensures !Dominates(a, a)
  {
    LessIsStrict(a.foid, a.foid);
  }

  /** Every region lies inside a maximal one of its class. */
  lemma {:induction false} MaximalAbove(regions: set<Region>, r: Region, candidates: set<Region>) returns (m: Region)
    requires r in regions && candidates <= regions
    requires forall s | s in regions && Dominates(s, r) :: s in candidates
    ensures Maximal(regions, m) && (m == r || Dominates(m, r))
    decreases |candidates|
  {
    if Maximal(regions, r) {
      m := r;
    } else {
      var s :| s in regions && Dominates(s, r);
      var fewer := candidates - {s};
      assert candidates == fewer + {s};
      forall x | x in regions && Dominates(x, s) ensures x in fewer {
        DominanceIsTransitive(x, s, r);
        DominanceIsStrict(s);
      }
      m := MaximalAbove(regions, s, fewer);
      if m != s {
        DominanceIsTransitive(m, s, r);
      }
    }
  }

  /*************** Greedy order ***************/

  predicate InOrder(a: Region, b: Region) {
    |a.footprint| > |b.footprint| || (|a.footprint| == |b.footprint| && !Less(b.foid, a.foid))
  }

  ghost predicate Sorted(regions: seq<Region>) {
    forall i, j | 0 <= i < j < |regions| :: InOrder(regions[i], regions[j])
  }

  lemma InOrderIsTransitive(a: Region, b: Region, c: Region)
    requires InOrder(a, b) && InOrder(b, c)
    ensures InOrder(a, c)
  {
    if |a.footprint| == |b.footprint| == |c.footprint| && Less(c.foid, a.foid) {
      LessIsTotal(a.foid, b.foid);
      LessIsTotal(b.foid, c.foid);
      if a.foid != b.foid && b.foid != c.foid {
        LessIsTransitive(a.foid, b.foid, c.foid);
        LessIsStrict(a.foid, c.foid);
      }
    }
  }

  function Insert(r: Region, regions: seq<Region>): (sorted: seq<Region>)
    ensures multiset(sorted) == multiset(regions) + multiset{r}
  {
    if regions == [] || InOrder(r, regions[0]) then [r] + regions
    else
      assert regions == [regions[0]] + regions[1..];
      [regions[0]] + Insert(r, regions[1..])
  }

  /** Area descending, then FOID ascending. */
  function Order(regions: seq<Region>): (sorted: seq<Region>)
    ensures multiset(sorted) == multiset(regions)
  {
    if regions == [] then [] else
      assert regions == [regions[0]] + regions[1..];
      Insert(regions[0], Order(regions[1..]))
  }

  lemma {:induction false} InsertKeepsSorted(r: Region, regions: seq<Region>)
    requires Sorted(regions)
    ensures Sorted(Insert(r, regions))
  {
    if regions == [] {
    } else if InOrder(r, regions[0]) {
      forall j | 0 <= j < |regions| ensures InOrder(r, regions[j]) {
        if j > 0 { InOrderIsTransitive(r, regions[0], regions[j]); }
      }
    } else {
      LessIsStrict(r.foid, regions[0].foid);
      InsertKeepsSorted(r, regions[1..]);
      var rest := Insert(r, regions[1..]);
      forall x | x in rest ensures InOrder(regions[0], x) {
        assert x in multiset(rest);
        assert x == r || x in regions[1..];
      }
    }
  }

  lemma {:induction false} OrderIsSorted(regions: seq<Region>)
    ensures Sorted(Order(regions))
  {
    if regions != [] {
      OrderIsSorted(regions[1..]);
      InsertKeepsSorted(regions[0], Order(regions[1..]));
    }
  }

  lemma SmallerSubset(a: set<Cell>, b: set<Cell>)
    requires a < b
    ensures |a| < |b|
  {
    assert b == a + (b - a);
  }

  /** A dominating region is always met before the region it makes redundant. */
  lemma DominatorsComeFirst(s: Region, r: Region)
    requires Dominates(s, r)
    ensures InOrder(s, r) && !InOrder(r, s)
  {
    LessIsStrict(s.foid, r.foid);
    if r.footprint < s.footprint {
      SmallerSubset(r.footprint, s.footprint);
    }
  }

  /** A region met earlier that covers a later one of its class makes it redundant. */
  lemma EarlierCoverDominates(s: Region, r: Region)
    requires InOrder(s, r) && s.foid != r.foid && s.featureType == r.featureType && r.footprint <= s.footprint
    ensures Dominates(s, r)
  {
    LessIsTotal(s.foid, r.foid);
  }

  /*************** The three passes ***************/

  /** The first region that cannot be accepted, and why: a repeated FOID is noticed before an invalid region. */
  ghost predicate IsProblemAt(regions: seq<Region>, n: nat, e: CoverageError) {
    && n < |regions| && Acceptable(regions[..n])
    && if exists k :: 0 <= k < n && regions[k].foid == regions[n].foid then e == DuplicateFoid
       else e == InvalidRegion && !WellFormed(regions[n])
  }

  ghost predicate IsFirstProblem(regions: seq<Region>, e: CoverageError) {
    exists n: nat :: IsProblemAt(regions, n, e)
  }

  lemma AcceptableMeans(regions: seq<Region>)
    ensures Acceptable(regions) <==>
            && (forall i, j | 0 <= i < j < |regions| :: regions[i].foid != regions[j].foid)
            && forall r | r in regions ::
              && (r.featureType == "DataCoverage" || r.featureType == "SoundingDatum"
                  || r.featureType == "VerticalDatumOfData")
              && (exists c :: c in r.footprint) && r.simple
  {
    forall r: Region ensures r.footprint != {} <==> exists c :: c in r.footprint {
      HasCell(r.footprint);
    }
  }

  /** Identities and footprints are checked before anything is compared. */
  method CheckRegions(regions: seq<Region>) returns (r: Result<(), CoverageError>)
    ensures r.Success? <==> Acceptable(regions)
    ensures r.Failure? ==> IsFirstProblem(regions, r.error)
  {
    var seen: set<string> := {};
    for n := 0 to |regions|
      invariant seen == set k | 0 <= k < n :: regions[k].foid
      invariant forall i, j | 0 <= i < j < n :: regions[i].foid != regions[j].foid
      invariant forall k | 0 <= k < n :: WellFormed(regions[k])
    {
      if regions[n].foid in seen {
        assert IsProblemAt(regions, n, DuplicateFoid);
        return Failure(DuplicateFoid);
      }
      seen := seen + {regions[n].foid};
      if !WellFormed(regions[n]) {
        assert IsProblemAt(regions, n, InvalidRegion);
        return Failure(InvalidRegion);
      }
    }
    return Success(());
  }

  ghost predicate PairsAgree(ordered: seq<Region>, i: nat) {
    i < |ordered| ==> forall j | i < j < |ordered| && Overlap(ordered[i], ordered[j]) ::
      SameSemantics(ordered[i], ordered[j])
  }

  method CheckSemantics(ordered: seq<Region>) returns (r: Result<(), CoverageError>)
    ensures r == if forall i: nat :: PairsAgree(ordered, i) then Success(()) else Failure(DifferentSemantics)
  {
    for i := 0 to |ordered|
      invariant forall k: nat | k < i :: PairsAgree(ordered, k)
    {
      for j := i + 1 to |ordered|
        invariant forall k | i < k < j && Overlap(ordered[i], ordered[k]) :: SameSemantics(ordered[i], ordered[k])
      {
        if Overlap(ordered[i], ordered[j]) && !SameSemantics(ordered[i], ordered[j]) {
          assert !PairsAgree(ordered, i);
          return Failure(DifferentSemantics);
        }
      }
    }
    return Success(());
  }

  lemma PairsAgreeIsSymmetric(ordered: seq<Region>, regions: set<Region>)
    requires regions == Elements(ordered)
    requires forall a, b | a in regions && b in regions :: a.featureType == b.featureType
    requires DistinctFoids(ordered)
    ensures (forall i: nat :: PairsAgree(ordered, i)) <==> SemanticsAgree(regions)
  {
    if SemanticsAgree(regions) {
      forall i: nat ensures PairsAgree(ordered, i) {
        forall j | i < |ordered| && i < j < |ordered| && Overlap(ordered[i], ordered[j])
          ensures SameSemantics(ordered[i], ordered[j])
        {
          assert ordered[i] in regions && ordered[j] in regions;
        }
      }
    }
    if forall i: nat :: PairsAgree(ordered, i) {
      forall a, b | a in regions && b in regions && a != b && Overlap(a, b) ensures SameSemantics(a, b) {
        var i, j :| 0 <= i < |ordered| && 0 <= j < |ordered| && ordered[i] == a && ordered[j] == b;
        assert PairsAgree(ordered, i) && PairsAgree(ordered, j);
      }
    }
  }

  /** The region now met is maximal exactly when no retained region covers it. */
  lemma CoveredIffRedundant(ordered: seq<Region>, n: nat, retained: seq<Region>)
    requires Sorted(ordered) && n < |ordered|
    requires DistinctFoids(ordered)
    requires forall a, b | a in ordered && b in ordered :: a.featureType == b.featureType
    requires Elements(retained) == set k | 0 <= k < n && Maximal(Elements(ordered), ordered[k]) :: ordered[k]
    ensures (exists e :: e in retained && ordered[n].footprint <= e.footprint) <==>
      !Maximal(Elements(ordered), ordered[n])
  {
    var all, c := Elements(ordered), ordered[n];
    if e :| e in retained && c.footprint <= e.footprint {
      assert e in Elements(retained);
      var k :| 0 <= k < n && ordered[k] == e;
      EarlierCoverDominates(e, c);
    }
    if !Maximal(all, c) {
      var m := MaximalAbove(all, c, all);
      DominatorsComeFirst(m, c);
      var k :| 0 <= k < |ordered| && ordered[k] == m;
      assert k < n;
      assert m in Elements(retained);
    }
  }

  /** Within one class: keep what nothing retained covers, stop at the first partial overlap. */
  method SuppressCovered(ordered: seq<Region>) returns (r: Result<set<string>, CoverageError>)
    requires Sorted(ordered)
    requires DistinctFoids(ordered)
    requires forall a, b | a in ordered && b in ordered :: a.featureType == b.featureType
    ensures r == if MaximalOverlap(Elements(ordered)) then Failure(PartialOverlap)
      else Success(Redundant(Elements(ordered)))
  {
    ghost var all := Elements(ordered);
    var suppressed: set<string> := {};
    var retained: seq<Region> := [];
    for n := 0 to |ordered|
      invariant Elements(retained) == set k | 0 <= k < n && Maximal(all, ordered[k]) :: ordered[k]
      invariant suppressed == set k | 0 <= k < n && !Maximal(all, ordered[k]) :: ordered[k].foid
      invariant forall a, b | a in retained && b in retained && a != b :: !Overlap(a, b)
    {
      var candidate := ordered[n];
      CoveredIffRedundant(ordered, n, retained);
      if exists e :: e in retained && candidate.footprint <= e.footprint {
        suppressed := suppressed + {candidate.foid};
      } else {
        for k := 0 to |retained|
          invariant forall e | e in retained[..k] :: !Overlap(e, candidate)
        {
          if Overlap(retained[k], candidate) {
            assert retained[k] in Elements(retained);
            assert MaximalOverlap(all);
            return Failure(PartialOverlap);
          }
          assert retained[..k + 1] == retained[..k] + [retained[k]];
        }
        assert retained[..|retained|] == retained;
        assert Elements(retained + [candidate]) == Elements(retained) + {candidate};
        retained := retained + [candidate];
      }
    }
    assert !MaximalOverlap(all) by {
      forall a | Maximal(all, a) ensures a in retained {
        var k :| 0 <= k < |ordered| && ordered[k] == a;
        assert a in Elements(retained);
      }
    }
    forall x | x in all && !Maximal(all, x) ensures x.foid in suppressed {
      var k :| 0 <= k < |ordered| && ordered[k] == x;
    }
    assert suppressed == Redundant(all);
    return Success(suppressed);
  }

  /*************** Grouping by feature class ***************/

  function OfType(regions: seq<Region>, t: string): (group: seq<Region>)
    ensures forall r :: r in group <==> r in regions && r.featureType == t
  {
    if regions == [] then [] else
      assert regions == [regions[0]] + regions[1..];
      if regions[0].featureType == t then [regions[0]] + OfType(regions[1..], t) else OfType(regions[1..], t)
  }

  lemma {:induction false} OfTypeStaysDistinct(regions: seq<Region>, t: string)
    requires DistinctFoids(regions)
    ensures DistinctFoids(OfType(regions, t))
  {
    if regions != [] {
      OfTypeStaysDistinct(regions[1..], t);
      var rest := OfType(regions[1..], t);
      forall j | 0 <= j < |rest| ensures rest[j].foid != regions[0].foid {
        assert rest[j] in regions[1..];
      }
    }
  }

  /** Distinctness of FOIDs is a matter of the elements, so sorting keeps it. */
  lemma {:induction false} OrderStaysDistinct(regions: seq<Region>)
    requires DistinctFoids(regions)
    ensures var o := Order(regions);
            && Elements(o) == Elements(regions)
            && DistinctFoids(o)
  {
    var o := Order(regions);
    forall x ensures x in o <==> x in regions {
      assert x in multiset(o) <==> x in multiset(regions);
    }
    forall i, j | 0 <= i < j < |o| ensures o[i].foid != o[j].foid {
      if o[i].foid == o[j].foid {
        assert o[i] in regions && o[j] in regions;
        assert o[i] == o[j];
        TwiceInSequence(o, i, j);
        OnceWhenDistinct(regions, o[i]);
        assert false;
      }
    }
  }

  lemma TwiceInSequence(o: seq<Region>, i: nat, j: nat)
    requires i < j < |o| && o[i] == o[j]
    ensures multiset(o)[o[i]] >= 2
  {
    assert o == o[..j] + [o[j]] + o[j + 1..];
    assert o[i] == o[..j][i];
  }

  lemma {:induction false} OnceWhenDistinct(regions: seq<Region>, x: Region)
    requires DistinctFoids(regions)
    ensures multiset(regions)[x] <= 1
  {
    if regions != [] {
      assert regions == [regions[0]] + regions[1..];
      OnceWhenDistinct(regions[1..], x);
      if x == regions[0] {
        assert x !in regions[1..];
      }
    }
  }

  /** One class, ordered and ready for both passes. */
  method Ordered(regions: seq<Region>, t: string) returns (ordered: seq<Region>)
    requires Acceptable(regions)
    ensures Sorted(ordered) && forall r :: r in ordered <==> r in regions && r.featureType == t
    ensures DistinctFoids(ordered)
  {
    var group := OfType(regions, t);
    ordered := Order(group);
    OrderIsSorted(group);
    OfTypeStaysDistinct(regions, t);
    OrderStaysDistinct(group);
    forall r ensures r in ordered <==> r in group {
      assert r in Elements(ordered) <==> r in Elements(group);
    }
  }

  /** The classes present, in order of first appearance. */
  method Classes(regions: seq<Region>) returns (types: seq<string>)
    ensures forall r | r in regions :: r.featureType in types
  {
    types := [];
    for n := 0 to |regions|
      invariant forall r | r in regions[..n] :: r.featureType in types
    {
      assert regions[..n + 1] == regions[..n] + [regions[n]];
      if regions[n].featureType !in types {
        types := types + [regions[n].featureType];
      }
    }
    assert regions[..|regions|] == regions;
  }

  ghost function ClassOf(regions: set<Region>, t: string): set<Region> {
    set r | r in regions && r.featureType == t
  }

  /** The outcome for acceptable regions; a function of the set of regions, so input order cannot matter. */
  ghost function Plan(regions: set<Region>): Result<set<string>, CoverageError> {
    if !SemanticsAgree(regions) then Failure(DifferentSemantics)
    else if MaximalOverlap(regions) then Failure(PartialOverlap)
    else Success(Redundant(regions))
  }

  /** Regions of different classes never disagree or overlap, so the classes can be judged one by one. */
  lemma ClassesAgree(all: set<Region>, types: seq<string>)
    requires forall a | a in all :: a.featureType in types
    requires forall t | t in types :: SemanticsAgree(ClassOf(all, t))
    ensures SemanticsAgree(all)
  {
    forall a, b | a in all && b in all && a != b && a.featureType == b.featureType && Overlap(a, b)
      ensures SameSemantics(a, b)
    {
      assert a in ClassOf(all, a.featureType) && b in ClassOf(all, a.featureType);
    }
  }

  lemma ClassesDoNotOverlap(all: set<Region>, types: seq<string>)
    requires forall a | a in all :: a.featureType in types
    requires forall t | t in types :: !MaximalOverlap(ClassOf(all, t))
    ensures !MaximalOverlap(all)
  {
    forall a, b | Maximal(all, a) && Maximal(all, b) && a != b && a.featureType == b.featureType
      ensures !Overlap(a, b)
    {
      assert a in ClassOf(all, a.featureType) && b in ClassOf(all, a.featureType);
      assert !MaximalOverlap(ClassOf(all, a.featureType));
    }
  }

  /** The outcome in terms of the fields of the regions. */
  ghost predicate IsOutcome(regions: set<Region>, r: Result<set<string>, CoverageError>) {
    if exists a, b :: a in regions && b in regions && Conflict(a, b) then r == Failure(DifferentSemantics)
    else if exists a, b ::
      a in regions && b in regions && Crossing(a, b) && !Superseded(regions, a) && !Superseded(regions, b)
    then r == Failure(PartialOverlap)
    else
      && r.Success?
      && (forall x | x in regions :: x.foid in r.value <==> Superseded(regions, x))
      && forall id | id in r.value :: exists x :: x in regions && x.foid == id
  }

  lemma PlanOnFields(regions: seq<Region>)
    requires Acceptable(regions)
    ensures IsOutcome(Elements(regions), Plan(Elements(regions)))
  {
    var all := Elements(regions);
    forall a, b | a in all && b in all && a.foid == b.foid ensures a == b {
    }
    AgreementMeansNoConflict(all);
    PartialOverlapMeansCrossing(all);
    forall x | x in all ensures x.foid in Redundant(all) <==> Superseded(all, x) {
      MaximalMeansNotSuperseded(all, x);
    }
  }

  /** Every class is checked before any region is suppressed. */
  method CheckClasses(regions: seq<Region>, types: seq<string>) returns (r: Result<(), CoverageError>)
    requires Acceptable(regions) && forall x | x in regions :: x.featureType in types
    ensures r == if SemanticsAgree(Elements(regions)) then Success(()) else Failure(DifferentSemantics)
  {
    ghost var all := Elements(regions);
    for n := 0 to |types|
      invariant forall t | t in types[..n] :: SemanticsAgree(ClassOf(all, t))
    {
      var ordered := Ordered(regions, types[n]);
      var agree := CheckSemantics(ordered);
      assert Elements(ordered) == ClassOf(all, types[n]);
      PairsAgreeIsSymmetric(ordered, ClassOf(all, types[n]));
      if agree.Failure? {
        return Failure(agree.error);
      }
      assert types[..n + 1] == types[..n] + [types[n]];
    }
    assert types[..|types|] == types;
    ClassesAgree(all, types);
    return Success(());
  }

  method SuppressInClasses(regions: seq<Region>, types: seq<string>) returns (r: Result<set<string>, CoverageError>)
    requires Acceptable(regions) && forall x | x in regions :: x.featureType in types
    ensures r == if MaximalOverlap(Elements(regions)) then Failure(PartialOverlap)
      else Success(Redundant(Elements(regions)))
  {
    ghost var all := Elements(regions);
    var suppressed: set<string> := {};
    for n := 0 to |types|
      invariant suppressed == set x | x in all && x.featureType in types[..n] && !Maximal(all, x) :: x.foid
      invariant forall t | t in types[..n] :: !MaximalOverlap(ClassOf(all, t))
    {
      var ordered := Ordered(regions, types[n]);
      var covered := SuppressCovered(ordered);
      assert Elements(ordered) == ClassOf(all, types[n]);
      if covered.Failure? {
        assert MaximalOverlap(all);
        return Failure(covered.error);
      }
      assert types[..n + 1] == types[..n] + [types[n]];
      suppressed := suppressed + covered.value;
    }
    ClassesDoNotOverlap(all, types);
    assert suppressed == Redundant(all);
    return Success(suppressed);
  }

  /**
   * Suppresses exactly the superseded regions of each class. Identity and semantics problems in any class are reported
   * before a partial overlap in any other.
   */
  method FindRedundantRegions(regions: seq<Region>) returns (r: Result<set<string>, CoverageError>)
    ensures !Acceptable(regions) ==> r.Failure? && IsFirstProblem(regions, r.error)
    ensures Acceptable(regions) ==> r == Plan(Elements(regions)) && IsOutcome(Elements(regions), r)
  {
    var checked := CheckRegions(regions);
    if checked.Failure? {
      return Failure(checked.error);
    }
    PlanOnFields(regions);
    var types := Classes(regions);
    var agree := CheckClasses(regions, types);
    if agree.Failure? {
      return Failure(agree.error);
    }
    r := SuppressInClasses(regions, types);
  }

  /*************** The meaning of the dataset is kept ***************/

  ghost function Retained(regions: set<Region>): set<Region> {
    set r | r in regions && Maximal(regions, r)
  }

  ghost function Covered(regions: set<Region>, t: string): set<Cell> {
    set r, c | r in regions && r.featureType == t && c in r.footprint :: c
  }

  /** Every class covers the same cells after suppression. */
  lemma CoverageIsKept(regions: set<Region>, t: string)
    ensures Covered(Retained(regions), t) == Covered(regions, t)
  {
    forall r, c | r in regions && r.featureType == t && c in r.footprint ensures c in Covered(Retained(regions), t) {
      var m := MaximalAbove(regions, r, regions);
      assert m in Retained(regions) && c in m.footprint;
    }
  }

  /** Whatever a region said about a cell, exactly one retained region of its class says it still. */
  lemma CellKeepsItsSemantics(regions: set<Region>, r: Region, c: Cell) returns (m: Region)
    requires SemanticsAgree(regions) && !MaximalOverlap(regions)
    requires r in regions && c in r.footprint
    ensures m in Retained(regions) && m.featureType == r.featureType && c in m.footprint
    ensures m.attributes == r.attributes && m.masks == r.masks
    ensures forall x | x in Retained(regions) && x.featureType == r.featureType && c in x.footprint :: x == m
  {
    m := MaximalAbove(regions, r, regions);
    if m != r {
      assert c in m.footprint * r.footprint;
    }
    forall x | x in Retained(regions) && x.featureType == r.featureType && c in x.footprint ensures x == m {
      assert c in x.footprint * m.footprint;
    }
  }

  /** A suppressed FOID never names a retained region, so removal by FOID removes exactly the redundant ones. */
  lemma SuppressionSplitsRegions(regions: set<Region>)
    requires forall a, b | a in regions && b in regions && a.foid == b.foid :: a == b
    ensures forall r | r in regions :: r.foid in Redundant(regions) <==> r !in Retained(regions)
  {
  }

  /** Of several equal footprints the one with the smallest FOID is the only one that can be retained. */
  lemma EqualFootprintsKeepSmallestFoid(regions: set<Region>, a: Region, b: Region)
    requires a in regions && b in regions && a.featureType == b.featureType && a.footprint == b.footprint
    requires a in Retained(regions) && a.foid != b.foid
    ensures Less(a.foid, b.foid) && b.foid !in set r | r in Retained(regions) && r.footprint == a.footprint
      && r.featureType == a.featureType :: r.foid
  {
    LessIsTotal(a.foid, b.foid);
    if r :| r in Retained(regions) && r.footprint == a.footprint && r.featureType == a.featureType && r.foid == b.foid {
      LessIsStrict(a.foid, b.foid);
      assert Dominates(a, r);
    }
  }
}
