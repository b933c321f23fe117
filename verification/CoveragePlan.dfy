/** Committing pending metadata features with the redundant ones left out. */
module CoveragePlan {
  import opened Wrappers
  import opened Text
  import opened CoverageNormalizer

  /** `targets` are the FOIDs the feature associations point at. */
  datatype Feature = Feature(foid: string, name: string, geometry: string, associations: nat, targets: seq<string>)

  datatype Summary = Summary(removed: map<string, nat>, skipped: bool, surfaces: seq<string>)

  function Kept(pending: seq<Feature>, suppressed: set<string>): (kept: seq<Feature>)
    ensures forall f :: f in kept <==> f in pending && f.foid !in suppressed
  {
    if pending == [] then [] else
      assert pending == [pending[0]] + pending[1..];
      (if pending[0].foid in suppressed then [] else [pending[0]]) + Kept(pending[1..], suppressed)
  }

  function Removed(pending: seq<Feature>, suppressed: set<string>): (removed: seq<Feature>)
    ensures forall f :: f in removed <==> f in pending && f.foid in suppressed
  {
    if pending == [] then [] else
      assert pending == [pending[0]] + pending[1..];
      (if pending[0].foid in suppressed then [pending[0]] else []) + Removed(pending[1..], suppressed)
  }

  function Foids(features: seq<Feature>): seq<string> {
    seq(|features|, i requires 0 <= i < |features| => features[i].foid)
  }

  function RegionFoids(regions: seq<Region>): seq<string> {
    seq(|regions|, i requires 0 <= i < |regions| => regions[i].foid)
  }

  function CountOf(features: seq<Feature>, name: string): nat {
    if features == [] then 0 else (if features[0].name == name then 1 else 0) + CountOf(features[1..], name)
  }

  function Surfaces(features: seq<Feature>): seq<string> {
    seq(|features|, i requires 0 <= i < |features| => features[i].geometry)
  }

  class Dataset {
    var features: seq<Feature>

    method AddFeature(f: Feature)
      modifies this
      ensures features == old(features) + [f]
    {
      features := features + [f];
    }

    method AddAll(fs: seq<Feature>)
      modifies this
      ensures features == old(features) + fs
    {
      for n := 0 to |fs|
        invariant features == old(features) + fs[..n]
      {
        AddFeature(fs[n]);
        assert fs[..n + 1] == fs[..n] + [fs[n]];
      }
      assert fs[..|fs|] == fs;
    }
  }

  /** The pending features and the plan's regions are the same identities, all of them new to the dataset. */
  predicate PlanMatches(committed: seq<Feature>, pending: seq<Feature>, regions: seq<Region>) {
    && (forall f | f in committed :: f.name !in COVERAGE_TYPES)
    && (forall f | f in pending :: f.name in COVERAGE_TYPES)
    && |pending| == |regions| && multiset(Foids(pending)) == multiset(RegionFoids(regions))
    && (forall f | f in pending :: !IsBlank(f.foid) && forall g | g in committed :: g.foid != f.foid)
  }

  /** No suppressed feature is protected, takes part in an association, lacks a surface or is pointed at. */
  predicate SafeToSuppress(committed: seq<Feature>, pending: seq<Feature>, suppressed: set<string>,
                           protected: set<Feature>) {
    && (forall f | f in Removed(pending, suppressed) ::
          f !in protected && f.associations == 0 && f.targets == [] && !IsBlank(f.geometry))
    && (forall f | f in committed + Kept(pending, suppressed) ::
          forall t | t in f.targets :: forall x | x in Removed(pending, suppressed) :: x.foid != t)
  }

  method CheckRemoved(committed: seq<Feature>, pending: seq<Feature>, suppressed: set<string>, protected: set<Feature>)
      returns (ok: bool)
    ensures ok <==> SafeToSuppress(committed, pending, suppressed, protected)
  {
    var removed := Removed(pending, suppressed);
    var removedFoids := set f | f in removed :: f.foid;
    if exists f :: f in removed && (f in protected || f.associations > 0 || |f.targets| > 0) {
      return false;
    }
    if exists f :: f in committed + Kept(pending, suppressed) && exists t :: t in f.targets && t in removedFoids {
      return false;
    }
    return !exists f :: f in removed && IsBlank(f.geometry);
  }

  /**
   * All or nothing: either the dataset is untouched, or every pending feature is committed because of a partial
   * overlap, or exactly the features of the retained regions are.
   */
  method Apply(dataset: Dataset, pending: seq<Feature>, regions: seq<Region>, protected: set<Feature>)
      returns (r: Result<Summary, CoverageError>)
    modifies dataset
    ensures r.Failure? ==> dataset.features == old(dataset.features)
    ensures r.Success? <==>
      && PlanMatches(old(dataset.features), pending, regions) && Acceptable(regions)
      && (Plan(Elements(regions)) == Failure(PartialOverlap)
          || (Plan(Elements(regions)).Success?
              && SafeToSuppress(old(dataset.features), pending, Redundant(Elements(regions)), protected)))
    ensures r.Success? && r.value.skipped ==>
      && Plan(Elements(regions)) == Failure(PartialOverlap)
      && dataset.features == old(dataset.features) + pending && r.value.surfaces == []
    ensures r.Success? && !r.value.skipped ==>
      var suppressed := Redundant(Elements(regions));
      && Plan(Elements(regions)) == Success(suppressed)
      && dataset.features == old(dataset.features) + Kept(pending, suppressed)
      && r.value.surfaces == Surfaces(Removed(pending, suppressed))
      && (forall t | t in COVERAGE_TYPES :: t in r.value.removed
           && r.value.removed[t] == CountOf(Removed(pending, suppressed), t))
  {
    var committed := dataset.features;
    if exists f :: f in committed && f.name in COVERAGE_TYPES {
      return Failure(UnsafePlan);
    }
    if (exists f :: f in pending && f.name !in COVERAGE_TYPES) || |pending| != |regions|
       || multiset(Foids(pending)) != multiset(RegionFoids(regions)) {
      return Failure(UnsafePlan);
    }
    var existing := set f | f in committed :: f.foid;
    if exists f :: f in pending && (IsBlank(f.foid) || f.foid in existing) {
      return Failure(UnsafePlan);
    }
    var plan := FindRedundantRegions(regions);
    if plan.Failure? && plan.error == PartialOverlap {
      dataset.AddAll(pending);
      return Success(Summary(map t | t in COVERAGE_TYPES :: 0, true, []));
    }
    if plan.Failure? {
      return Failure(plan.error);
    }
    var removed := Removed(pending, plan.value);
    var safe := CheckRemoved(committed, pending, plan.value, protected);
    if !safe {
      return Failure(UnsafePlan);
    }
    dataset.AddAll(Kept(pending, plan.value));
    return Success(Summary(map t | t in COVERAGE_TYPES :: CountOf(removed, t), false, Surfaces(removed)));
  }

  ghost function Classes(features: seq<Feature>): seq<string> {
    seq(|features|, i requires 0 <= i < |features| => features[i].name)
  }

  /** The counts, surfaces and identities of a summary are those of the features it lists. */
  lemma {:induction false} SummaryFields(features: seq<Feature>, name: string)
    ensures |Surfaces(features)| == |Foids(features)| == |features|
    ensures forall k | 0 <= k < |features| ::
      Surfaces(features)[k] == features[k].geometry && Foids(features)[k] == features[k].foid
    ensures CountOf(features, name) == multiset(Classes(features))[name]
  {
    if features != [] {
      SummaryFields(features[1..], name);
      assert Classes(features) == [features[0].name] + Classes(features[1..]);
    }
  }

  lemma Associate<T>(a: seq<T>, b: seq<T>, c: seq<T>)
    ensures a + (b + c) == a + b + c
  {
  }

  lemma FirstIsSplitOff(a: seq<Feature>, b: seq<Feature>, suppressed: set<string>) returns (kept: seq<Feature>,
                                                                                        removed: seq<Feature>)
    requires a != []
    ensures Kept(a, suppressed) == kept + Kept(a[1..], suppressed)
    ensures Removed(a, suppressed) == removed + Removed(a[1..], suppressed)
    ensures Kept(a + b, suppressed) == kept + Kept(a[1..] + b, suppressed)
    ensures Removed(a + b, suppressed) == removed + Removed(a[1..] + b, suppressed)
  {
    assert (a + b)[1..] == a[1..] + b;
    kept := if a[0].foid in suppressed then [] else [a[0]];
    removed := if a[0].foid in suppressed then [a[0]] else [];
  }

  /** Both parts keep the order of the pending features. */
  lemma {:induction false} PartsKeepOrder(a: seq<Feature>, b: seq<Feature>, suppressed: set<string>)
    ensures Kept(a + b, suppressed) == Kept(a, suppressed) + Kept(b, suppressed)
    ensures Removed(a + b, suppressed) == Removed(a, suppressed) + Removed(b, suppressed)
  {
    if a == [] {
      assert a + b == b;
    } else {
      PartsKeepOrder(a[1..], b, suppressed);
      var kept, removed := FirstIsSplitOff(a, b, suppressed);
      Associate(kept, Kept(a[1..], suppressed), Kept(b, suppressed));
      Associate(removed, Removed(a[1..], suppressed), Removed(b, suppressed));
    }
  }

  /** Committed and removed features together are the pending ones. */
  lemma {:induction false} NothingIsLost(pending: seq<Feature>, suppressed: set<string>)
    ensures multiset(Kept(pending, suppressed)) + multiset(Removed(pending, suppressed)) == multiset(pending)
  {
    if pending != [] {
      assert pending == [pending[0]] + pending[1..];
      NothingIsLost(pending[1..], suppressed);
    }
  }

  /** The per-class counts of a summary add up to the number of removed features. */
  lemma {:induction false} CountsAddUp(features: seq<Feature>)
    requires forall k | 0 <= k < |features| :: features[k].name in COVERAGE_TYPES
    ensures CountOf(features, "DataCoverage") + CountOf(features, "SoundingDatum") +
      CountOf(features, "VerticalDatumOfData") == |features|
  {
    if features != [] {
      CountsAddUp(features[1..]);
    }
  }

  lemma InMultiset(foids: seq<string>, other: seq<string>, x: string)
    requires multiset(foids) == multiset(other) && x in foids
    ensures x in other
  {
    assert x in multiset(foids);
  }

  /**
   * The committed metadata are the features of exactly the retained regions, so the dataset covers what it would have
   * covered.
   */
  lemma CommittedAreTheRetained(committed: seq<Feature>, pending: seq<Feature>, regions: seq<Region>)
    requires PlanMatches(committed, pending, regions) && Acceptable(regions)
    ensures (set f | f in Kept(pending, Redundant(Elements(regions))) :: f.foid) ==
      set r | r in Retained(Elements(regions)) :: r.foid
  {
    var all := Elements(regions);
    var kept := Kept(pending, Redundant(all));
    SuppressionSplitsRegions(all);
    forall f | f in kept ensures exists r :: r in Retained(all) && r.foid == f.foid {
      var k :| 0 <= k < |pending| && pending[k] == f;
      assert Foids(pending)[k] == f.foid;
      InMultiset(Foids(pending), RegionFoids(regions), f.foid);
      var i :| 0 <= i < |regions| && RegionFoids(regions)[i] == f.foid;
      assert regions[i] in all;
    }
    forall r | r in Retained(all) ensures exists f :: f in kept && f.foid == r.foid {
      var i :| 0 <= i < |regions| && regions[i] == r;
      assert RegionFoids(regions)[i] == r.foid;
      InMultiset(RegionFoids(regions), Foids(pending), r.foid);
      var k :| 0 <= k < |pending| && Foids(pending)[k] == r.foid;
      assert pending[k] in kept;
    }
  }
}
