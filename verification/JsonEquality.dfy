/** JSON documents and their structural equality, position by position. */
module JsonEquality {
  import opened Wrappers
  import opened Sets

  /*************** Documents ***************/

  /** A number keeps its raw text; `Decimal` readers say which texts are decimal numbers. */
  datatype Json =
    | Object(members: seq<Member>) | Array(items: seq<Json>) | Str(text: string) | Num(raw: string)
    | True | False | Null

  datatype Member = Member(name: string, value: Json)

  type Decimal = string -> Option<real>

  /** Of several members with one name the last is found. */
  function Find(members: seq<Member>, name: string): (r: Option<Json>)
    ensures r.Some? ==> Member(name, r.value) in members
    ensures r.None? <==> forall m | m in members :: m.name != name
  {
    if members == [] then None else
      var last := members[|members| - 1];
      if last.name == name then Some(last.value) else Find(members[..|members| - 1], name)
  }

  predicate IsObject(x: Option<Json>) {
    x.Some? && x.value.Object?
  }

  predicate IsArray(x: Option<Json>) {
    x.Some? && x.value.Array?
  }

  function Property(x: Option<Json>, name: string): Option<Json> {
    if IsObject(x) then Find(x.value.members, name) else None
  }

  function Element(x: Option<Json>, index: nat): Option<Json> {
    if IsArray(x) && index < |x.value.items| then Some(x.value.items[index]) else None
  }

  predicate UniqueNames(members: seq<Member>) {
    forall i, j | 0 <= i < j < |members| :: members[i].name != members[j].name
  }

  /** Member names are unique at every level (section 4 of RFC 8259). */
  predicate Unique(x: Json) {
    match x
    case Object(members) => UniqueNames(members) && forall i | 0 <= i < |members| :: Unique(members[i].value)
    case Array(items) => forall i | 0 <= i < |items| :: Unique(items[i])
    case _ => true
  }

  /** No object anywhere in the document is empty. */
  predicate NoEmpty(x: Json) {
    match x
    case Object(members) => members != [] && forall i | 0 <= i < |members| :: NoEmpty(members[i].value)
    case Array(items) => forall i | 0 <= i < |items| :: NoEmpty(items[i])
    case _ => true
  }

  predicate UniqueOpt(x: Option<Json>) {
    x.Some? ==> Unique(x.value)
  }

  predicate NoEmptyOpt(x: Option<Json>) {
    x.Some? ==> NoEmpty(x.value)
  }

  /*************** Equality ***************/

  predicate SameNumber(dec: Decimal, a: string, b: string) {
    if dec(a).Some? && dec(b).Some? then dec(a) == dec(b) else a == b
  }

  predicate Same(dec: Decimal, a: Json, b: Json) {
    match a
    case Object(ms) =>
      && b.Object? && |ms| == |b.members|
      && forall i | 0 <= i < |ms| :: SameMember(dec, ms[i], b.members)
    case Array(items) => b.Array? && |items| == |b.items| && forall i | 0 <= i < |items| ::
      Same(dec, items[i], b.items[i])
    case Str(t) => b.Str? && t == b.text
    case Num(r) => b.Num? && SameNumber(dec, r, b.raw)
    case _ => a == b
  }

  predicate SameMember(dec: Decimal, m: Member, others: seq<Member>) {
    Find(others, m.name).Some? && Same(dec, m.value, Find(others, m.name).value)
  }

  predicate JsonEquals(dec: Decimal, a: Option<Json>, b: Option<Json>) {
    if a.None? || b.None? then a.None? && b.None? else Same(dec, a.value, b.value)
  }

  /*************** Member names ***************/

  function Names(members: seq<Member>): (names: set<string>)
    ensures forall n :: n in names <==> exists m :: m in members && m.name == n
  {
    set m | m in members :: m.name
  }

  lemma FindUnique(members: seq<Member>, i: nat)
    requires UniqueNames(members) && i < |members|
    ensures Find(members, members[i].name) == Some(members[i].value)
  {
    var r := Find(members, members[i].name);
    assert members[i] in members;
    var j :| 0 <= j < |members| && members[j] == Member(members[i].name, r.value);
  }

  lemma {:induction false} UniqueNamesCount(members: seq<Member>)
    requires UniqueNames(members)
    ensures |Names(members)| == |members|
    decreases |members|
  {
    if members != [] {
      var init, last := members[..|members| - 1], members[|members| - 1];
      UniqueNamesCount(init);
      assert members == init + [last];
      assert Names(members) == Names(init) + {last.name};
    }
  }

  /** Objects that are the same have the same names. */
  lemma SameNames(dec: Decimal, a: seq<Member>, b: seq<Member>)
    requires UniqueNames(a) && UniqueNames(b) && |a| == |b|
    requires forall i | 0 <= i < |a| :: SameMember(dec, a[i], b)
    ensures Names(a) == Names(b)
  {
    UniqueNamesCount(a);
    UniqueNamesCount(b);
    SameSizeSubset(Names(a), Names(b));
  }

  /*************** An equivalence on documents with unique names ***************/

  lemma {:induction false} SameIsReflexive(dec: Decimal, a: Json)
    requires Unique(a)
    ensures Same(dec, a, a)
  {
    match a
    case Object(ms) =>
      forall i | 0 <= i < |ms|
        ensures SameMember(dec, ms[i], ms)
      {
        FindUnique(ms, i);
        SameIsReflexive(dec, ms[i].value);
      }
    case Array(items) =>
      forall i | 0 <= i < |items|
        ensures Same(dec, items[i], items[i])
      {
        SameIsReflexive(dec, items[i]);
      }
    case _ =>
  }

  lemma {:induction false} SameIsSymmetric(dec: Decimal, a: Json, b: Json)
    requires Unique(a) && Unique(b) && Same(dec, a, b)
    ensures Same(dec, b, a)
  {
    match a
    case Object(ms) =>
      SameNames(dec, ms, b.members);
      forall j | 0 <= j < |b.members|
        ensures SameMember(dec, b.members[j], ms)
      {
        assert b.members[j].name in Names(ms);
        var i :| 0 <= i < |ms| && ms[i].name == b.members[j].name;
        FindUnique(ms, i);
        FindUnique(b.members, j);
        assert SameMember(dec, ms[i], b.members);
        SameIsSymmetric(dec, ms[i].value, b.members[j].value);
      }
    case Array(items) =>
      forall i | 0 <= i < |items|
        ensures Same(dec, b.items[i], items[i])
      {
        SameIsSymmetric(dec, items[i], b.items[i]);
      }
    case _ =>
  }

  lemma {:induction false} SameIsTransitive(dec: Decimal, a: Json, b: Json, c: Json)
    requires Unique(a) && Unique(b) && Unique(c) && Same(dec, a, b) && Same(dec, b, c)
    ensures Same(dec, a, c)
  {
    match a
    case Object(ms) =>
      forall i | 0 <= i < |ms|
        ensures SameMember(dec, ms[i], c.members)
      {
        assert SameMember(dec, ms[i], b.members);
        var found := Find(b.members, ms[i].name).value;
        var j :| 0 <= j < |b.members| && b.members[j] == Member(ms[i].name, found);
        assert SameMember(dec, b.members[j], c.members);
        var found' := Find(c.members, ms[i].name).value;
        var k :| 0 <= k < |c.members| && c.members[k] == Member(ms[i].name, found');
        SameIsTransitive(dec, ms[i].value, found, found');
      }
    case Array(items) =>
      forall i | 0 <= i < |items|
        ensures Same(dec, items[i], c.items[i])
      {
        SameIsTransitive(dec, items[i], b.items[i], c.items[i]);
      }
    case _ =>
  }

  lemma JsonEqualsIsEquivalence(dec: Decimal, a: Option<Json>, b: Option<Json>, c: Option<Json>)
    requires UniqueOpt(a) && UniqueOpt(b) && UniqueOpt(c)
    ensures JsonEquals(dec, a, a)
    ensures JsonEquals(dec, a, b) ==> JsonEquals(dec, b, a)
    ensures JsonEquals(dec, a, b) && JsonEquals(dec, b, c) ==> JsonEquals(dec, a, c)
  {
    if a.Some? {
      SameIsReflexive(dec, a.value);
      if b.Some? && Same(dec, a.value, b.value) {
        SameIsSymmetric(dec, a.value, b.value);
        if c.Some? && Same(dec, b.value, c.value) {
          SameIsTransitive(dec, a.value, b.value, c.value);
        }
      }
    }
  }

  /** Repeated names break even reflexivity. */
  lemma RepeatedNamesAreNotReflexive(dec: Decimal)
    ensures var x := Object([Member("a", Null), Member("a", True)]); !JsonEquals(dec, Some(x), Some(x))
  {
    var members := [Member("a", Null), Member("a", True)];
    assert members[|members| - 1] == Member("a", True);
    assert !SameMember(dec, members[0], members);
  }

  /*************** Equality position by position ***************/

  datatype Step = Name(name: string) | Index(index: nat)

  type Path = seq<Step>

  function Next(x: Option<Json>, step: Step): Option<Json> {
    match step
    case Name(name) => Property(x, name)
    case Index(index) => Element(x, index)
  }

  function At(x: Option<Json>, path: Path): Option<Json>
    decreases |path|
  {
    if path == [] then x else At(Next(x, path[0]), path[1..])
  }

  /** A value is found by going from member to member and item to item. */
  ghost predicate Reaches(x: Json, path: Path, y: Json)
    decreases |path|
  {
    if path == [] then x == y else
      match path[0]
      case Name(name) => x.Object? && exists m :: m in x.members && m.name == name && Reaches(m.value, path[1..], y)
      case Index(index) => x.Array? && index < |x.items| && Reaches(x.items[index], path[1..], y)
  }

  lemma NothingIsAtNone(path: Path)
    ensures At(None, path).None?
  {
  }

  lemma {:induction false} AtMeansReaches(x: Json, path: Path, y: Json)
    requires Unique(x)
    ensures At(Some(x), path) == Some(y) <==> Reaches(x, path, y)
    decreases |path|
  {
    if path != [] {
      NothingIsAtNone(path[1..]);
      match path[0]
      case Name(name) =>
        if x.Object? {
          forall i | 0 <= i < |x.members| && x.members[i].name == name
            ensures Property(Some(x), name) == Some(x.members[i].value)
            ensures At(Some(x.members[i].value), path[1..]) == Some(y) <==> Reaches(x.members[i].value, path[1..], y)
          {
            FindUnique(x.members, i);
            AtMeansReaches(x.members[i].value, path[1..], y);
          }
        }
      case Index(index) =>
        if x.Array? && index < |x.items| {
          AtMeansReaches(x.items[index], path[1..], y);
        }
    }
  }

  ghost predicate HasName(members: seq<Member>, name: string) {
    exists m :: m in members && m.name == name
  }

  /** The two positions look the same from outside, whatever objects and arrays hold. */
  ghost predicate AgreeAt(dec: Decimal, a: Option<Json>, b: Option<Json>) {
    match (a, b)
    case (None, None) => true
    case (Some(Object(ms)), Some(Object(ns))) => forall name :: HasName(ms, name) <==> HasName(ns, name)
    case (Some(Array(xs)), Some(Array(ys))) => |xs| == |ys|
    case (Some(Str(s)), Some(Str(t))) => s == t
    case (Some(Num(r)), Some(Num(q))) => if dec(r).Some? && dec(q).Some? then dec(r).value == dec(q).value else r == q
    case (Some(True), Some(True)) => true
    case (Some(False), Some(False)) => true
    case (Some(Null), Some(Null)) => true
    case _ => false
  }

  ghost predicate Agree(dec: Decimal, a: Option<Json>, b: Option<Json>) {
    forall path: Path :: AgreeAt(dec, At(a, path), At(b, path))
  }

  lemma HasNameMeans(members: seq<Member>, name: string)
    ensures HasName(members, name) <==> name in Names(members)
  {
  }

  lemma EqualAgreeHere(dec: Decimal, a: Option<Json>, b: Option<Json>)
    requires UniqueOpt(a) && UniqueOpt(b) && JsonEquals(dec, a, b)
    ensures AgreeAt(dec, a, b)
  {
    if IsObject(a) {
      SameNames(dec, a.value.members, b.value.members);
      forall name ensures HasName(a.value.members, name) <==> HasName(b.value.members, name) {
        HasNameMeans(a.value.members, name);
        HasNameMeans(b.value.members, name);
      }
    }
  }

  lemma PropertyStaysUnique(x: Option<Json>, name: string)
    requires UniqueOpt(x)
    ensures UniqueOpt(Property(x, name))
  {
    if Property(x, name).Some? {
      var i :| 0 <= i < |x.value.members| && x.value.members[i] == Member(name, Property(x, name).value);
    }
  }

  lemma ElementStaysUnique(x: Option<Json>, index: nat)
    requires UniqueOpt(x)
    ensures UniqueOpt(Element(x, index))
  {
  }

  lemma {:induction false} AtStaysUnique(x: Option<Json>, path: Path)
    requires UniqueOpt(x)
    ensures UniqueOpt(At(x, path))
    decreases |path|
  {
    if path != [] {
      match path[0] {
        case Name(name) => PropertyStaysUnique(x, name);
        case Index(index) => ElementStaysUnique(x, index);
      }
      AtStaysUnique(Next(x, path[0]), path[1..]);
    }
  }

  lemma EqualProperties(dec: Decimal, a: Option<Json>, b: Option<Json>, name: string)
    requires UniqueOpt(a) && UniqueOpt(b) && JsonEquals(dec, a, b)
    ensures JsonEquals(dec, Property(a, name), Property(b, name))
  {
    if IsObject(a) {
      var ms, ns := a.value.members, b.value.members;
      SameNames(dec, ms, ns);
      HasNameMeans(ms, name);
      HasNameMeans(ns, name);
      if i :| 0 <= i < |ms| && ms[i].name == name {
        FindUnique(ms, i);
        assert SameMember(dec, ms[i], ns);
      } else {
        assert forall m | m in ms :: m.name != name;
        assert !HasName(ns, name);
      }
    }
  }

  lemma {:induction false} EqualAgreeAt(dec: Decimal, a: Option<Json>, b: Option<Json>, path: Path)
    requires UniqueOpt(a) && UniqueOpt(b) && JsonEquals(dec, a, b)
    ensures AgreeAt(dec, At(a, path), At(b, path))
    decreases |path|
  {
    if path == [] {
      EqualAgreeHere(dec, a, b);
    } else {
      match path[0]
      case Name(name) =>
        EqualProperties(dec, a, b, name);
        PropertyStaysUnique(a, name);
        PropertyStaysUnique(b, name);
        EqualAgreeAt(dec, Property(a, name), Property(b, name), path[1..]);
      case Index(index) =>
        EqualAgreeAt(dec, Element(a, index), Element(b, index), path[1..]);
    }
  }

  /** Two objects that are not the same differ under some name of either. */
  lemma SomeNameDiffers(dec: Decimal, a: seq<Member>, b: seq<Member>) returns (name: string)
    requires UniqueNames(a) && UniqueNames(b) && !Same(dec, Object(a), Object(b))
    ensures name in Names(a) + Names(b)
    ensures !JsonEquals(dec, Property(Some(Object(a)), name), Property(Some(Object(b)), name))
  {
    if i :| 0 <= i < |a| && !SameMember(dec, a[i], b) {
      FindUnique(a, i);
      name := a[i].name;
    } else {
      UniqueNamesCount(a);
      UniqueNamesCount(b);
      assert Names(a) <= Names(b) by {
        forall n | n in Names(a)
          ensures n in Names(b)
        {
          var i :| 0 <= i < |a| && a[i].name == n;
          assert SameMember(dec, a[i], b);
        }
      }
      assert Names(a) != Names(b);
      name :| name in Names(b) && name !in Names(a);
    }
  }

  lemma AtNext(x: Option<Json>, step: Step, path: Path)
    ensures At(x, [step] + path) == At(Next(x, step), path)
  {
    assert ([step] + path)[1..] == path;
  }

  lemma {:induction false} UnequalDisagree(dec: Decimal, a: Json, b: Json) returns (path: Path)
    requires Unique(a) && Unique(b) && !Same(dec, a, b)
    ensures !AgreeAt(dec, At(Some(a), path), At(Some(b), path))
    decreases a
  {
    path := [];
    if a.Object? && b.Object? {
      var name := SomeNameDiffers(dec, a.members, b.members);
      PropertyStaysUnique(Some(a), name);
      PropertyStaysUnique(Some(b), name);
      path := PropertyDisagrees(dec, a, b, name);
    } else if a.Array? && b.Array? && |a.items| == |b.items| {
      var i :| 0 <= i < |a.items| && !Same(dec, a.items[i], b.items[i]);
      path := UnequalDisagree(dec, a.items[i], b.items[i]);
      AtNext(Some(a), Index(i), path);
      AtNext(Some(b), Index(i), path);
      path := [Index(i)] + path;
    }
  }

  lemma {:induction false} PropertyDisagrees(dec: Decimal, a: Json, b: Json, name: string) returns (path: Path)
    requires Unique(a) && Unique(b) && a.Object?
    requires UniqueOpt(Property(Some(a), name)) && UniqueOpt(Property(Some(b), name))
    requires !JsonEquals(dec, Property(Some(a), name), Property(Some(b), name))
    ensures !AgreeAt(dec, At(Some(a), path), At(Some(b), path))
    decreases a, 0
  {
    var x, y := Property(Some(a), name), Property(Some(b), name);
    path := [];
    if x.Some? && y.Some? {
      assert Member(name, x.value) in a.members;
      path := UnequalDisagree(dec, x.value, y.value);
    }
    AtNext(Some(a), Name(name), path);
    AtNext(Some(b), Name(name), path);
    path := [Name(name)] + path;
  }

  /**
   * Two documents are equal exactly when at every path both are absent or look the same: the same kind with equal
   * texts, equal numbers, as many items, or members of the same names.
   */
  lemma EqualMeansAgree(dec: Decimal, a: Option<Json>, b: Option<Json>)
    requires UniqueOpt(a) && UniqueOpt(b)
    ensures JsonEquals(dec, a, b) <==> Agree(dec, a, b)
  {
    if JsonEquals(dec, a, b) {
      forall path: Path ensures AgreeAt(dec, At(a, path), At(b, path)) {
        EqualAgreeAt(dec, a, b, path);
      }
    } else if a.Some? && b.Some? {
      var path := UnequalDisagree(dec, a.value, b.value);
    } else {
      assert !AgreeAt(dec, At(a, []), At(b, []));
    }
  }
}
