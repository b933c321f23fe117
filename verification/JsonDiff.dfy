/** The structural difference of JSON documents: the paths at which they differ. */
module JsonDiff {
  import opened Wrappers
  import opened JsonEquality

  /*************** Difference ***************/

  function Size(x: Json): (n: nat)
    ensures n >= 1
  {
    match x
    case Object(members) => 1 + SizeOfMembers(members)
    case Array(items) => 1 + SizeOfItems(items)
    case _ => 1
  }

  function SizeOfMembers(members: seq<Member>): nat {
    if members == [] then 0 else Size(members[0].value) + SizeOfMembers(members[1..])
  }

  function SizeOfItems(items: seq<Json>): nat {
    if items == [] then 0 else Size(items[0]) + SizeOfItems(items[1..])
  }

  function SizeOf(x: Option<Json>): nat {
    if x.None? then 0 else Size(x.value)
  }

  lemma {:induction false} MemberIsSmaller(members: seq<Member>, i: nat)
    requires i < |members|
    ensures Size(members[i].value) <= SizeOfMembers(members)
    decreases |members|
  {
    if i > 0 {
      MemberIsSmaller(members[1..], i - 1);
    }
  }

  lemma {:induction false} ItemIsSmaller(items: seq<Json>, i: nat)
    requires i < |items|
    ensures Size(items[i]) <= SizeOfItems(items)
    decreases |items|
  {
    if i > 0 {
      ItemIsSmaller(items[1..], i - 1);
    }
  }

  lemma PropertyIsSmaller(x: Option<Json>, name: string)
    ensures SizeOf(Property(x, name)) < SizeOf(x) || x.None?
  {
    if Property(x, name).Some? {
      var m := Member(name, Property(x, name).value);
      var i :| 0 <= i < |x.value.members| && x.value.members[i] == m;
      MemberIsSmaller(x.value.members, i);
    }
  }

  lemma ElementIsSmaller(x: Option<Json>, index: nat)
    ensures SizeOf(Element(x, index)) < SizeOf(x) || x.None?
  {
    if Element(x, index).Some? {
      ItemIsSmaller(x.value.items, index);
    }
  }

  /** The names of both sides, each once, in order of first appearance. */
  function DistinctNames(members: seq<Member>): (names: seq<string>)
    ensures forall n :: n in names <==> n in Names(members)
    ensures forall i, j | 0 <= i < j < |names| :: names[i] != names[j]
  {
    if members == [] then [] else
      var last := members[|members| - 1];
      var before := DistinctNames(members[..|members| - 1]);
      assert members == members[..|members| - 1] + [last];
      if last.name in before then before else before + [last.name]
  }

  function NamesOfBoth(before: Option<Json>, after: Option<Json>): seq<string> {
    DistinctNames((if IsObject(before) then before.value.members else []) +
      (if IsObject(after) then after.value.members else []))
  }

  function Length(x: Option<Json>): nat {
    if IsArray(x) then |x.value.items| else 0
  }

  function LengthOfBoth(before: Option<Json>, after: Option<Json>): nat {
    if Length(before) >= Length(after) then Length(before) else Length(after)
  }

  /** The nested difference. It terminates because each step into a member or an item shrinks the two trees together. */
  function Diff(dec: Decimal, before: Option<Json>, after: Option<Json>, path: Path): set<Path>
    decreases SizeOf(before) + SizeOf(after), 1, 0
  {
    if JsonEquals(dec, before, after) then {}
    else if IsObject(before) || IsObject(after) then DiffNames(dec, NamesOfBoth(before, after), before, after, path)
    else if IsArray(before) || IsArray(after) then
      if LengthOfBoth(before, after) == 0 then {path}
        else DiffItems(dec, LengthOfBoth(before, after), before, after, path)
    else {path}
  }

  function DiffNames(dec: Decimal, names: seq<string>, before: Option<Json>, after: Option<Json>, path: Path): set<Path>
    requires before.Some? || after.Some?
    decreases SizeOf(before) + SizeOf(after), 0, |names|
  {
    if names == [] then {} else
      var name := names[|names| - 1];
      PropertyIsSmaller(before, name);
      PropertyIsSmaller(after, name);
      DiffNames(dec, names[..|names| - 1], before, after, path) +
        Diff(dec, Property(before, name), Property(after, name), path + [Name(name)])
  }

  function DiffItems(dec: Decimal, length: nat, before: Option<Json>, after: Option<Json>, path: Path): set<Path>
    requires before.Some? || after.Some?
    decreases SizeOf(before) + SizeOf(after), 0, length
  {
    if length == 0 then {} else
      ElementIsSmaller(before, length - 1);
      ElementIsSmaller(after, length - 1);
      DiffItems(dec, length - 1, before, after, path) +
        Diff(dec, Element(before, length - 1), Element(after, length - 1), path + [Index(length - 1)])
  }

  lemma DiffOfObjects(dec: Decimal, before: Option<Json>, after: Option<Json>, path: Path)
    requires !JsonEquals(dec, before, after) && (IsObject(before) || IsObject(after))
    ensures Diff(dec, before, after, path) == DiffNames(dec, NamesOfBoth(before, after), before, after, path)
  {
  }

  lemma DiffOfArrays(dec: Decimal, before: Option<Json>, after: Option<Json>, path: Path)
    requires !JsonEquals(dec, before, after) && !IsObject(before) && !IsObject(after)
    requires IsArray(before) || IsArray(after)
    ensures Diff(dec, before, after, path) ==
      if LengthOfBoth(before, after) == 0 then {path}
      else DiffItems(dec, LengthOfBoth(before, after), before, after, path)
  {
  }

  lemma OneMoreName(dec: Decimal, names: seq<string>, n: nat, before: Option<Json>, after: Option<Json>, path: Path)
    requires n < |names| && (before.Some? || after.Some?)
    ensures DiffNames(dec, names[..n + 1], before, after, path) ==
      DiffNames(dec, names[..n], before, after, path)
      + Diff(dec, Property(before, names[n]), Property(after, names[n]), path + [Name(names[n])])
  {
    assert names[..n + 1][..n] == names[..n];
  }

  /** The paths collected while comparing one pair of documents. */
  class ChangedPaths {
    var paths: set<Path>

    constructor ()
      ensures paths == {}
    {
      paths := {};
    }

    method AddChanged(dec: Decimal, nested: bool, before: Option<Json>, after: Option<Json>, path: Path)
      modifies this
      ensures paths == old(paths) + if nested then Diff(dec, before, after, path)
        else if JsonEquals(dec, before, after) then {} else {path}
      decreases SizeOf(before) + SizeOf(after), 1
    {
      if JsonEquals(dec, before, after) {
        return;
      }
      if nested && (IsObject(before) || IsObject(after)) {
        DiffOfObjects(dec, before, after, path);
        AddNames(dec, before, after, path);
      } else if nested && (IsArray(before) || IsArray(after)) {
        DiffOfArrays(dec, before, after, path);
        AddItems(dec, before, after, path);
      } else {
        paths := paths + {path};
      }
    }

    method AddNames(dec: Decimal, before: Option<Json>, after: Option<Json>, path: Path)
      requires before.Some? || after.Some?
      modifies this
      ensures paths == old(paths) + DiffNames(dec, NamesOfBoth(before, after), before, after, path)
      decreases SizeOf(before) + SizeOf(after), 0
    {
      var names := NamesOfBoth(before, after);
      for n := 0 to |names|
        invariant paths == old(paths) + DiffNames(dec, names[..n], before, after, path)
      {
        PropertyIsSmaller(before, names[n]);
        PropertyIsSmaller(after, names[n]);
        AddChanged(dec, true, Property(before, names[n]), Property(after, names[n]), path + [Name(names[n])]);
        OneMoreName(dec, names, n, before, after, path);
      }
      assert names[..|names|] == names;
    }

    method AddItems(dec: Decimal, before: Option<Json>, after: Option<Json>, path: Path)
      requires before.Some? || after.Some?
      modifies this
      ensures var length := LengthOfBoth(before, after);
        paths == old(paths) + if length == 0 then {path} else DiffItems(dec, length, before, after, path)
      decreases SizeOf(before) + SizeOf(after), 0
    {
      var length := LengthOfBoth(before, after);
      if length == 0 {
        paths := paths + {path};
        return;
      }
      for n := 0 to length
        invariant paths == old(paths) + DiffItems(dec, n, before, after, path)
      {
        ElementIsSmaller(before, n);
        ElementIsSmaller(after, n);
        AddChanged(dec, true, Element(before, n), Element(after, n), path + [Index(n)]);
      }
    }
  }

  /*************** Every reported path is a real difference ***************/

  /** The two documents differ where `path`, read from `base`, leads. */
  predicate DiffersAt(dec: Decimal, before: Option<Json>, after: Option<Json>, base: Path, path: Path) {
    base <= path && !JsonEquals(dec, At(before, path[|base|..]), At(after, path[|base|..]))
  }

  lemma {:induction false} ReportedPathsDiffer(dec: Decimal, before: Option<Json>, after: Option<Json>, base: Path,
                                               path: Path)
    requires path in Diff(dec, before, after, base)
    ensures DiffersAt(dec, before, after, base, path)
    decreases SizeOf(before) + SizeOf(after), 1, 0
  {
    if IsObject(before) || IsObject(after) {
      NamedPathsDiffer(dec, NamesOfBoth(before, after), before, after, base, path);
    } else if LengthOfBoth(before, after) > 0 {
      IndexedPathsDiffer(dec, LengthOfBoth(before, after), before, after, base, path);
    } else {
      assert path[|base|..] == [];
    }
  }

  lemma {:induction false} NamedPathsDiffer(dec: Decimal, names: seq<string>, before: Option<Json>,
                                            after: Option<Json>, base: Path, path: Path)
    requires before.Some? || after.Some?
    requires path in DiffNames(dec, names, before, after, base)
    ensures DiffersAt(dec, before, after, base, path)
    decreases SizeOf(before) + SizeOf(after), 0, |names|
  {
    var init, name := names[..|names| - 1], names[|names| - 1];
    if path in DiffNames(dec, init, before, after, base) {
      NamedPathsDiffer(dec, init, before, after, base, path);
    } else {
      PropertyIsSmaller(before, name);
      PropertyIsSmaller(after, name);
      ReportedPathsDiffer(dec, Property(before, name), Property(after, name), base + [Name(name)], path);
    }
  }

  lemma {:induction false} IndexedPathsDiffer(dec: Decimal, length: nat, before: Option<Json>, after: Option<Json>,
                                              base: Path, path: Path)
    requires before.Some? || after.Some?
    requires path in DiffItems(dec, length, before, after, base)
    ensures DiffersAt(dec, before, after, base, path)
    decreases SizeOf(before) + SizeOf(after), 0, length
  {
    if path in DiffItems(dec, length - 1, before, after, base) {
      IndexedPathsDiffer(dec, length - 1, before, after, base, path);
    } else {
      ElementIsSmaller(before, length - 1);
      ElementIsSmaller(after, length - 1);
      ReportedPathsDiffer(dec, Element(before, length - 1), Element(after, length - 1), base + [Index(length - 1)],
                          path);
    }
  }

  /*************** Nothing reported exactly when equal ***************/

  lemma {:induction false} NameReported(dec: Decimal, names: seq<string>, i: nat, before: Option<Json>,
                                        after: Option<Json>, path: Path)
    requires (before.Some? || after.Some?) && i < |names|
    ensures Diff(dec, Property(before, names[i]), Property(after, names[i]), path + [Name(names[i])]) <= DiffNames(dec,
        names, before, after, path)
    decreases |names|
  {
    if i < |names| - 1 {
      NameReported(dec, names[..|names| - 1], i, before, after, path);
    }
  }

  lemma {:induction false} IndexReported(dec: Decimal, length: nat, i: nat, before: Option<Json>, after: Option<Json>,
                                         path: Path)
    requires (before.Some? || after.Some?) && i < length
    ensures Diff(dec, Element(before, i), Element(after, i), path + [Index(i)]) <= DiffItems(dec, length, before,
        after, path)
  {
    if i < length - 1 {
      IndexReported(dec, length - 1, i, before, after, path);
    }
  }

  lemma PropertyKeeps(x: Option<Json>, name: string)
    requires UniqueOpt(x) && NoEmptyOpt(x)
    ensures UniqueOpt(Property(x, name)) && NoEmptyOpt(Property(x, name))
  {
    if Property(x, name).Some? {
      var i :| 0 <= i < |x.value.members| && x.value.members[i] == Member(name, Property(x, name).value);
    }
  }

  /** Some name of either object has different values on the two sides. */
  lemma SomePropertyDiffers(dec: Decimal, before: Option<Json>, after: Option<Json>) returns (name: string)
    requires UniqueOpt(before) && UniqueOpt(after) && NoEmptyOpt(before) && NoEmptyOpt(after)
    requires !JsonEquals(dec, before, after) && (IsObject(before) || IsObject(after))
    ensures name in NamesOfBoth(before, after)
    ensures !JsonEquals(dec, Property(before, name), Property(after, name))
  {
    var a: seq<Member> := if IsObject(before) then before.value.members else [];
    var b: seq<Member> := if IsObject(after) then after.value.members else [];
    if IsObject(before) && IsObject(after) {
      name := SomeNameDiffers(dec, a, b);
    } else {
      name := (a + b)[0].name;
      assert (a + b)[0] in a + b;
    }
    assert forall m | m in a :: m in a + b;
    assert forall m | m in b :: m in a + b;
  }

  lemma {:induction false} DifferenceIsReported(dec: Decimal, before: Option<Json>, after: Option<Json>, path: Path)
    requires UniqueOpt(before) && UniqueOpt(after) && NoEmptyOpt(before) && NoEmptyOpt(after)
    requires !JsonEquals(dec, before, after)
    ensures Diff(dec, before, after, path) != {}
    decreases SizeOf(before) + SizeOf(after)
  {
    if IsObject(before) || IsObject(after) {
      var name := SomePropertyDiffers(dec, before, after);
      var names := NamesOfBoth(before, after);
      var i :| 0 <= i < |names| && names[i] == name;
      PropertyIsSmaller(before, name);
      PropertyIsSmaller(after, name);
      PropertyKeeps(before, name);
      PropertyKeeps(after, name);
      DifferenceIsReported(dec, Property(before, name), Property(after, name), path + [Name(name)]);
      NameReported(dec, names, i, before, after, path);
    } else if LengthOfBoth(before, after) > 0 {
      var i := SomeElementDiffers(dec, before, after);
      ElementIsSmaller(before, i);
      ElementIsSmaller(after, i);
      DifferenceIsReported(dec, Element(before, i), Element(after, i), path + [Index(i)]);
      IndexReported(dec, LengthOfBoth(before, after), i, before, after, path);
    }
  }

  lemma SomeElementDiffers(dec: Decimal, before: Option<Json>, after: Option<Json>) returns (i: nat)
    requires !JsonEquals(dec, before, after) && LengthOfBoth(before, after) > 0
    ensures i < LengthOfBoth(before, after) && !JsonEquals(dec, Element(before, i), Element(after, i))
  {
    if IsArray(before) && IsArray(after) && Length(before) == Length(after) {
      i :| 0 <= i < Length(before) && !Same(dec, before.value.items[i], after.value.items[i]);
    } else {
      i := if Length(before) < Length(after) then Length(before) else Length(after);
    }
  }

  /*************** Exactly which paths are reported ***************/

  /** Nothing lies below: the value is absent, a scalar or an empty array. */
  ghost predicate IsBottom(x: Option<Json>) {
    match x
    case Some(Object(_)) => false
    case Some(Array(items)) => items == []
    case _ => true
  }

  /**
   * Where the path ends the two sides disagree and neither has anything below. On the way there a name is followed
   * while either side is an object, and an index only while neither is.
   */
  ghost predicate IsReported(dec: Decimal, before: Option<Json>, after: Option<Json>, path: Path)
    decreases |path|
  {
    if path == [] then IsBottom(before) && IsBottom(after) && !AgreeAt(dec, before, after)
    else
      && (path[0].Name? <==> IsObject(before) || IsObject(after))
      && IsReported(dec, Next(before, path[0]), Next(after, path[0]), path[1..])
  }

  lemma NextStaysUnique(x: Option<Json>, step: Step)
    requires UniqueOpt(x)
    ensures UniqueOpt(Next(x, step))
  {
    match step
    case Name(name) => PropertyStaysUnique(x, name);
    case Index(index) => ElementStaysUnique(x, index);
  }

  lemma BottomsDifferIffDisagree(dec: Decimal, before: Option<Json>, after: Option<Json>)
    requires IsBottom(before) && IsBottom(after)
    ensures AgreeAt(dec, before, after) <==> JsonEquals(dec, before, after)
  {
  }

  lemma EqualStaysEqual(dec: Decimal, before: Option<Json>, after: Option<Json>, step: Step)
    requires UniqueOpt(before) && UniqueOpt(after) && JsonEquals(dec, before, after)
    ensures JsonEquals(dec, Next(before, step), Next(after, step))
  {
    match step
    case Name(name) => EqualProperties(dec, before, after, name);
    case Index(index) =>
  }

  lemma {:induction false} ReportedMeansUnequal(dec: Decimal, before: Option<Json>, after: Option<Json>, path: Path)
    requires UniqueOpt(before) && UniqueOpt(after) && IsReported(dec, before, after, path)
    ensures !JsonEquals(dec, before, after)
    decreases |path|
  {
    if path == [] {
      BottomsDifferIffDisagree(dec, before, after);
    } else {
      NextStaysUnique(before, path[0]);
      NextStaysUnique(after, path[0]);
      ReportedMeansUnequal(dec, Next(before, path[0]), Next(after, path[0]), path[1..]);
      if JsonEquals(dec, before, after) {
        EqualStaysEqual(dec, before, after, path[0]);
      }
    }
  }

  lemma StepInto(base: Path, step: Step, path: Path)
    requires base + [step] <= path
    ensures base <= path && path[|base|..] == [step] + path[|base| + 1..]
  {
  }

  /** Every reported path is as described ... */
  lemma {:induction false} ReportedIsDescribed(dec: Decimal, before: Option<Json>, after: Option<Json>, base: Path,
                                               path: Path)
    requires UniqueOpt(before) && UniqueOpt(after) && path in Diff(dec, before, after, base)
    ensures base <= path && IsReported(dec, before, after, path[|base|..])
    decreases SizeOf(before) + SizeOf(after), 1, 0
  {
    if IsObject(before) || IsObject(after) {
      NamedIsDescribed(dec, NamesOfBoth(before, after), before, after, base, path);
    } else if LengthOfBoth(before, after) > 0 {
      IndexedIsDescribed(dec, LengthOfBoth(before, after), before, after, base, path);
    } else {
      BottomsDifferIffDisagree(dec, before, after);
      assert path[|base|..] == [];
    }
  }

  lemma {:induction false} NamedIsDescribed(dec: Decimal, names: seq<string>, before: Option<Json>,
                                            after: Option<Json>, base: Path, path: Path)
    requires UniqueOpt(before) && UniqueOpt(after) && (IsObject(before) || IsObject(after))
    requires path in DiffNames(dec, names, before, after, base)
    ensures base <= path && IsReported(dec, before, after, path[|base|..])
    decreases SizeOf(before) + SizeOf(after), 0, |names|
  {
    var init, name := names[..|names| - 1], names[|names| - 1];
    if path in DiffNames(dec, init, before, after, base) {
      NamedIsDescribed(dec, init, before, after, base, path);
    } else {
      PropertyIsSmaller(before, name);
      PropertyIsSmaller(after, name);
      NextStaysUnique(before, Name(name));
      NextStaysUnique(after, Name(name));
      ReportedIsDescribed(dec, Property(before, name), Property(after, name), base + [Name(name)], path);
      StepInto(base, Name(name), path);
    }
  }

  lemma {:induction false} IndexedIsDescribed(dec: Decimal, length: nat, before: Option<Json>, after: Option<Json>,
                                              base: Path, path: Path)
    requires UniqueOpt(before) && UniqueOpt(after) && !IsObject(before) && !IsObject(after)
    requires before.Some? || after.Some?
    requires path in DiffItems(dec, length, before, after, base)
    ensures base <= path && IsReported(dec, before, after, path[|base|..])
    decreases SizeOf(before) + SizeOf(after), 0, length
  {
    if path in DiffItems(dec, length - 1, before, after, base) {
      IndexedIsDescribed(dec, length - 1, before, after, base, path);
    } else {
      ElementIsSmaller(before, length - 1);
      ElementIsSmaller(after, length - 1);
      NextStaysUnique(before, Index(length - 1));
      NextStaysUnique(after, Index(length - 1));
      ReportedIsDescribed(dec, Element(before, length - 1), Element(after, length - 1), base + [Index(length - 1)],
                          path);
      StepInto(base, Index(length - 1), path);
    }
  }

  /** ... and every such path is reported. */
  lemma {:induction false} DescribedIsReported(dec: Decimal, before: Option<Json>, after: Option<Json>, base: Path,
                                               path: Path)
    requires UniqueOpt(before) && UniqueOpt(after) && IsReported(dec, before, after, path)
    ensures base + path in Diff(dec, before, after, base)
    decreases |path|
  {
    ReportedMeansUnequal(dec, before, after, path);
    if path == [] {
      assert base + path == base;
    } else {
      NextStaysUnique(before, path[0]);
      NextStaysUnique(after, path[0]);
      DescribedIsReported(dec, Next(before, path[0]), Next(after, path[0]), base + [path[0]], path[1..]);
      ReportedMeansUnequal(dec, Next(before, path[0]), Next(after, path[0]), path[1..]);
      assert base + path == base + [path[0]] + path[1..];
      match path[0]
      case Name(name) =>
        NameIsCompared(before, after, name);
        var names := NamesOfBoth(before, after);
        var i :| 0 <= i < |names| && names[i] == name;
        NameReported(dec, names, i, before, after, base);
      case Index(index) =>
        assert index < LengthOfBoth(before, after);
        IndexReported(dec, LengthOfBoth(before, after), index, before, after, base);
    }
  }

  lemma NameIsCompared(before: Option<Json>, after: Option<Json>, name: string)
    requires Property(before, name).Some? || Property(after, name).Some?
    ensures name in NamesOfBoth(before, after)
  {
    var a: seq<Member> := if IsObject(before) then before.value.members else [];
    var b: seq<Member> := if IsObject(after) then after.value.members else [];
    if Property(before, name).Some? {
      assert Member(name, Property(before, name).value) in a + b;
    } else {
      assert Member(name, Property(after, name).value) in a + b;
    }
  }

  /** The difference is exactly the set of described paths, each continuing the base path. */
  lemma DiffReportsExactly(dec: Decimal, before: Option<Json>, after: Option<Json>, base: Path, path: Path)
    requires UniqueOpt(before) && UniqueOpt(after)
    ensures path in Diff(dec, before, after, base) <==>
            base <= path && IsReported(dec, before, after, path[|base|..])
  {
    if path in Diff(dec, before, after, base) {
      ReportedIsDescribed(dec, before, after, base, path);
    }
    if base <= path && IsReported(dec, before, after, path[|base|..]) {
      DescribedIsReported(dec, before, after, base, path[|base|..]);
      assert base + path[|base|..] == path;
    }
  }

  /** At every reported path the two documents disagree. */
  lemma ReportedPathsDisagree(dec: Decimal, before: Option<Json>, after: Option<Json>, base: Path, path: Path)
    requires UniqueOpt(before) && UniqueOpt(after) && path in Diff(dec, before, after, base)
    ensures base <= path && !Agree(dec, At(before, path[|base|..]), At(after, path[|base|..]))
  {
    ReportedPathsDiffer(dec, before, after, base, path);
    AtStaysUnique(before, path[|base|..]);
    AtStaysUnique(after, path[|base|..]);
    EqualMeansAgree(dec, At(before, path[|base|..]), At(after, path[|base|..]));
  }

  /*************** Empty objects ***************/

  /** The document with null for every empty object. */
  function Fill(x: Json): Json {
    match x
    case Object(members) => if members == [] then Null else Object(FillMembers(members))
    case Array(items) => Array(FillItems(items))
    case _ => x
  }

  function FillMembers(members: seq<Member>): (r: seq<Member>)
    ensures |r| == |members|
    ensures forall i | 0 <= i < |r| :: r[i] == Member(members[i].name, Fill(members[i].value))
  {
    if members == [] then [] else [Member(members[0].name, Fill(members[0].value))] + FillMembers(members[1..])
  }

  function FillItems(items: seq<Json>): (r: seq<Json>)
    ensures |r| == |items| && forall i | 0 <= i < |r| :: r[i] == Fill(items[i])
  {
    if items == [] then [] else [Fill(items[0])] + FillItems(items[1..])
  }

  lemma {:induction false} FillFindsFilled(members: seq<Member>, name: string)
    ensures Find(FillMembers(members), name) == if Find(members, name).None? then None
      else Some(Fill(Find(members, name).value))
    decreases |members|
  {
    if members != [] {
      var init := members[..|members| - 1];
      assert FillMembers(members)[..|members| - 1] == FillMembers(init);
      FillFindsFilled(init, name);
    }
  }

  lemma {:induction false} FilledIsWellFormed(x: Json)
    requires Unique(x)
    ensures Unique(Fill(x)) && NoEmpty(Fill(x))
  {
    match x
    case Object(members) =>
      forall i | 0 <= i < |members|
        ensures Unique(Fill(members[i].value)) && NoEmpty(Fill(members[i].value))
      {
        FilledIsWellFormed(members[i].value);
      }
    case Array(items) =>
      forall i | 0 <= i < |items|
        ensures Unique(Fill(items[i])) && NoEmpty(Fill(items[i]))
      {
        FilledIsWellFormed(items[i]);
      }
    case _ =>
  }

  lemma FillFindsInFilled(x: Json, name: string)
    requires x.Object? && x.members != []
    ensures Property(Some(Fill(x)), name) ==
      match Property(Some(x), name) case None => None case Some(v) => Some(Fill(v))
  {
    FillFindsFilled(x.members, name);
  }

  /** The difference cannot see an empty object turn into null. */
  lemma {:induction false} FillingIsNotReported(dec: Decimal, x: Json, path: Path)
    ensures Diff(dec, Some(x), Some(Fill(x)), path) == {}
    decreases Size(x), 1, 0
  {
    match x
    case Object(members) => FilledNamesNotReported(dec, NamesOfBoth(Some(x), Some(Fill(x))), x, path);
    case Array(items) => FilledItemsNotReported(dec, |items|, x, path);
    case _ => 
  }

  lemma {:induction false} FilledNamesNotReported(dec: Decimal, names: seq<string>, x: Json, path: Path)
    requires x.Object? && (x.members == [] ==> names == [])
    ensures DiffNames(dec, names, Some(x), Some(Fill(x)), path) == {}
    decreases Size(x), 0, |names|
  {
    if names != [] {
      var name := names[|names| - 1];
      FilledNamesNotReported(dec, names[..|names| - 1], x, path);
      FillFindsInFilled(x, name);
      if Property(Some(x), name).Some? {
        PropertyIsSmaller(Some(x), name);
        FillingIsNotReported(dec, Property(Some(x), name).value, path + [Name(name)]);
      }
    }
  }

  lemma {:induction false} FilledItemsNotReported(dec: Decimal, length: nat, x: Json, path: Path)
    requires x.Array? && length <= |x.items|
    ensures DiffItems(dec, length, Some(x), Some(Fill(x)), path) == {}
    ensures x.items == [] ==> Same(dec, x, Fill(x))
    decreases Size(x), 0, length
  {
    if length > 0 {
      FilledItemsNotReported(dec, length - 1, x, path);
      ItemIsSmaller(x.items, length - 1);
      FillingIsNotReported(dec, x.items[length - 1], path + [Index(length - 1)]);
    }
  }

  lemma {:induction false} FillingChanges(dec: Decimal, x: Json)
    requires Unique(x) && !NoEmpty(x)
    ensures !Same(dec, x, Fill(x))
  {
    match x
    case Object(members) =>
      if members != [] {
        var i :| 0 <= i < |members| && !NoEmpty(members[i].value);
        FillingChanges(dec, members[i].value);
        FindUnique(members, i);
        FillFindsFilled(members, members[i].name);
        assert !SameMember(dec, members[i], FillMembers(members));
      }
    case Array(items) =>
      var i :| 0 <= i < |items| && !NoEmpty(items[i]);
      FillingChanges(dec, items[i]);
  }

  /**
   * A document holds no empty object exactly when, against every other such document, the difference
   * reports nothing just for equal ones.
   */
  lemma DiffIsExactIffNoEmptyObject(dec: Decimal, x: Json, path: Path)
    requires Unique(x)
    ensures NoEmpty(x) <==>
      forall y: Json | Unique(y) && NoEmpty(y) :: Diff(dec, Some(x), Some(y), path) == {} <==> Same(dec, x, y)
  {
    if NoEmpty(x) {
      forall y: Json | Unique(y) && NoEmpty(y)
        ensures Diff(dec, Some(x), Some(y), path) == {} <==> Same(dec, x, y)
      {
        if !Same(dec, x, y) {
          DifferenceIsReported(dec, Some(x), Some(y), path);
        }
      }
    } else {
      FilledIsWellFormed(x);
      FillingIsNotReported(dec, x, path);
      FillingChanges(dec, x);
    }
  }

  /**
   * Absent documents included: on documents without empty objects nothing is reported exactly when the two are equal.
   */
  lemma DiffIsExact(dec: Decimal, before: Option<Json>, after: Option<Json>, path: Path)
    requires UniqueOpt(before) && UniqueOpt(after) && NoEmptyOpt(before) && NoEmptyOpt(after)
    ensures Diff(dec, before, after, path) == {} <==> JsonEquals(dec, before, after)
    ensures Diff(dec, before, after, path) == {} <==> Agree(dec, before, after)
  {
    EqualMeansAgree(dec, before, after);
    if !JsonEquals(dec, before, after) {
      DifferenceIsReported(dec, before, after, path);
    }
  }
}
