/** Omitting the surface records of suppressed metadata features from a serialized dataset. */
module SurfaceCleanup {
  import opened Wrappers
  import opened Text
  import opened Sections

  datatype CleanupError =
    EmptySnapshot | InvalidIdentity | AmbiguousSections | UnexpectedSection | UnsafeItems | InvalidOrDuplicateSurface
    | UnverifiedGeometry | MissingSurface | StillReferenced

  /*************** The line patterns ***************/

  predicate IsHeader(line: string, header: string) {
    line == header || line == header + "\r"
  }

  function WithoutReturn(line: string): string {
    if line != "" && line[|line| - 1] == '\r' then line[..|line| - 1] else line
  }

  const ITEM := "  - "
  const ENTRY := "  - Name: "
  const SURFACES := "Surfaces:"
  const FEATURES := "Features:"

  /** The name on an entry line. */
  function NameOn(line: string): string {
    if StartsWith(line, ENTRY) then WithoutReturn(line[|ENTRY|..]) else ""
  }

  predicate IsEntry(line: string) {
    NameOn(line) != "" && '\r' !in NameOn(line)
  }

  predicate IsUnexpectedItem(line: string) {
    StartsWith(line, ITEM) && !StartsWith(line, ENTRY)
  }

  predicate IsLetter(c: char) {
    'A' <= c <= 'Z' || 'a' <= c <= 'z'
  }

  predicate IsTopLevelHeader(line: string) {
    var body := WithoutReturn(line);
    && |body| >= 2 && IsLetter(body[0]) && body[|body| - 1] == ':'
    && forall i | 0 <= i < |body| - 1 :: IsWordChar(body[i]) && body[i] != '-'
  }

  function WithoutBreak(s: string): string {
    if s != "" && s[|s| - 1] == '\n' then s[..|s| - 1] else s
  }

  /** The end anchor also matches before a final line break. */
  predicate IsSurfaceName(name: string) {
    var body := WithoutBreak(name);
    |body| >= 2 && body[0] == 'S' && forall i | 1 <= i < |body| :: IsWordChar(body[i])
  }

  function Header(header: string): Pattern {
    line => IsHeader(line, header)
  }

  const YAML := Patterns(Header(SURFACES), Header(FEATURES), line => IsEntry(line))

  function NameOf(item: Item): string {
    if item == [] then "" else NameOn(item[0])
  }

  /*************** When the cleanup goes through ***************/

  predicate HasExterior(item: Item) {
    exists k | 1 <= k < |item| :: StartsWith(item[k], "    Exterior:")
  }

  function Without(items: seq<Item>, k: nat): seq<Item>
    requires k < |items|
  {
    items[..k] + items[k + 1..]
  }

  function Keep(items: seq<Item>, removed: set<string>): seq<Item> {
    if items == [] then [] else
      (if NameOf(items[0]) in removed then [] else [items[0]]) + Keep(items[1..], removed)
  }

  predicate SectionIsSafe(layout: Layout, removed: set<string>) {
    && (forall l | l in layout.Section() :: !IsTopLevelHeader(l) && !IsUnexpectedItem(l))
    && |layout.items| > |removed|
    && (forall l | l in layout.preamble :: IsBlank(l))
  }

  /** How an item is read: its name, whether that is a surface name, whether it shows its geometry. */
  datatype Reading = Reading(name: Item -> string, isName: string -> bool, shown: Item -> bool)

  const YAML_ITEMS := Reading(item => NameOf(item), name => IsSurfaceName(name), item => HasExterior(item))

  predicate ReadSafely(items: seq<Item>, reading: Reading, toRemove: set<string>) {
    && (forall k | 0 <= k < |items| :: reading.isName(reading.name(items[k])))
    && (forall i, j | 0 <= i < j < |items| :: reading.name(items[i]) != reading.name(items[j]))
    && (forall k | 0 <= k < |items| && reading.name(items[k]) in toRemove :: reading.shown(items[k]))
  }

  predicate AllFound(items: seq<Item>, removed: set<string>) {
    forall name | name in removed :: exists k | 0 <= k < |items| :: NameOf(items[k]) == name
  }

  /** The document with only this record cut out does not mention it. */
  predicate Unreferenced(layout: Layout, k: nat)
    requires k < |layout.items| && layout.tail != []
  {
    !HasWord(JoinLines(layout.(items := Without(layout.items, k)).Lines()), NameOf(layout.items[k]))
  }

  predicate NamesAreValid(removed: set<string>) {
    forall name | name in removed :: !IsBlank(name) && IsSurfaceName(name)
  }

  function Structure(yaml: string): Option<Layout> {
    LayoutOf(SplitLines(yaml), YAML)
  }

  /** Exactly the inputs for which the cleanup goes through. */
  predicate Cleanable(yaml: string, removed: set<string>) {
    && !IsBlank(yaml) && NamesAreValid(removed)
    && Structure(yaml).Some? && LayoutIsCleanable(Structure(yaml).value, removed)
  }

  predicate LayoutIsCleanable(layout: Layout, removed: set<string>) {
    && layout.tail != [] && SectionIsSafe(layout, removed) && ReadSafely(layout.items, YAML_ITEMS, removed)
    && AllFound(layout.items, removed)
    && forall k | 0 <= k < |layout.items| && NameOf(layout.items[k]) in removed :: Unreferenced(layout, k)
  }

  /** The layout with the listed records left out. */
  function CutLayout(layout: Layout, removed: set<string>): Layout {
    layout.(items := Keep(layout.items, removed))
  }

  function Cleaned(yaml: string, removed: set<string>): string
    requires Structure(yaml).Some? && Structure(yaml).value.tail != []
  {
    JoinLines(CutLayout(Structure(yaml).value, removed).Lines())
  }

  /*************** The procedure ***************/

  lemma {:induction false} KeepSplits(a: seq<Item>, b: seq<Item>, removed: set<string>)
    ensures Keep(a + b, removed) == Keep(a, removed) + Keep(b, removed)
  {
    if a == [] {
      assert a + b == b;
    } else {
      assert (a + b)[1..] == a[1..] + b;
      KeepSplits(a[1..], b, removed);
    }
  }

  lemma {:induction false} KeepAll(items: seq<Item>, removed: set<string>)
    requires forall k | 0 <= k < |items| :: NameOf(items[k]) !in removed
    ensures Keep(items, removed) == items
  {
    if items != [] {
      KeepAll(items[1..], removed);
      assert items == [items[0]] + items[1..];
    }
  }

  /** Copies the stretches between the removed positions, which are in ascending order. */
  method CopyAround(items: seq<Item>, removed: set<string>, cuts: seq<nat>) returns (output: seq<Item>)
    requires forall i, j | 0 <= i < j < |cuts| :: cuts[i] < cuts[j]
    requires forall k :: k in cuts <==> 0 <= k < |items| && NameOf(items[k]) in removed
    ensures output == Keep(items, removed)
  {
    output := [];
    var offset := 0;
    assert items[..0] == [];
    for n := 0 to |cuts|
      invariant 0 <= offset <= |items| && output == Keep(items[..offset], removed)
      invariant forall k | k in cuts && k >= offset :: k in cuts[n..]
      invariant forall k | k in cuts[n..] :: k >= offset
    {
      var cut := cuts[n];
      assert cuts[n..] == [cut] + cuts[n + 1..];
      assert cut in cuts[n..] && cut in cuts;
      StretchKept(items, offset, cut, removed);
      OneCut(items, cut, removed);
      output := output + items[offset..cut];
      offset := cut + 1;
    }
    StretchKept(items, offset, |items|, removed);
    assert items[..|items|] == items;
    output := output + items[offset..];
  }

  lemma StretchKept(items: seq<Item>, from: nat, to: nat, removed: set<string>)
    requires from <= to <= |items| && forall k | from <= k < to :: NameOf(items[k]) !in removed
    ensures Keep(items[..to], removed) == Keep(items[..from], removed) + items[from..to]
  {
    assert items[..to] == items[..from] + items[from..to];
    KeepSplits(items[..from], items[from..to], removed);
    KeepAll(items[from..to], removed);
  }

  lemma OneCut(items: seq<Item>, k: nat, removed: set<string>)
    requires k < |items| && NameOf(items[k]) in removed
    ensures Keep(items[..k + 1], removed) == Keep(items[..k], removed)
  {
    assert items[..k + 1] == items[..k] + [items[k]];
    KeepSplits(items[..k], [items[k]], removed);
    assert [items[k]][1..] == [];
    assert Keep([items[k]], removed) == [];
  }

  /** Names are valid and distinct, and every suppressed record shows its geometry; yields their positions. */
  method FindRemoved(items: seq<Item>, reading: Reading, toRemove: set<string>)
      returns (r: Result<seq<nat>, CleanupError>)
    ensures r.Success? <==> ReadSafely(items, reading, toRemove)
    ensures r.Success? ==> forall i, j | 0 <= i < j < |r.value| :: r.value[i] < r.value[j]
    ensures r.Success? ==> forall k :: k in r.value <==> 0 <= k < |items| && reading.name(items[k]) in toRemove
  {
    var found: set<string> := {};
    var removed: seq<nat> := [];
    for index := 0 to |items|
      invariant found == set k | 0 <= k < index :: reading.name(items[k])
      invariant ReadSafely(items[..index], reading, toRemove)
      invariant forall i | 0 <= i < |removed| :: removed[i] < index
      invariant forall i, j | 0 <= i < j < |removed| :: removed[i] < removed[j]
      invariant forall k :: k in removed <==> 0 <= k < index && reading.name(items[k]) in toRemove
    {
      var item := items[index];
      var name := reading.name(item);
      assert items[..index + 1] == items[..index] + [item];
      if !reading.isName(name) || name in found {
        return Failure(InvalidOrDuplicateSurface);
      }
      found := found + {name};
      if name in toRemove {
        if !reading.shown(item) {
          return Failure(UnverifiedGeometry);
        }
        removed := removed + [index];
      }
    }
    assert items[..|items|] == items;
    return Success(removed);
  }

  method CheckReferences(layout: Layout, cuts: seq<nat>) returns (ok: bool)
    requires layout.tail != [] && forall i | 0 <= i < |cuts| :: cuts[i] < |layout.items|
    ensures ok <==> forall i | 0 <= i < |cuts| :: Unreferenced(layout, cuts[i])
  {
    for n := 0 to |cuts|
      invariant forall i | 0 <= i < n :: Unreferenced(layout, cuts[i])
    {
      if !Unreferenced(layout, cuts[n]) {
        return false;
      }
    }
    return true;
  }

  lemma FoundNames(items: seq<Item>, positions: seq<nat>, toRemove: set<string>)
    requires forall k :: k in positions <==> 0 <= k < |items| && NameOf(items[k]) in toRemove
    ensures (set n | n in positions :: NameOf(items[n])) == toRemove <==> AllFound(items, toRemove)
  {
    var names := set n | n in positions :: NameOf(items[n]);
    if AllFound(items, toRemove) {
      forall name | name in toRemove ensures name in names {
        var k :| 0 <= k < |items| && NameOf(items[k]) == name;
        assert k in positions;
      }
    }
    if names == toRemove {
      forall name | name in toRemove ensures exists k | 0 <= k < |items| :: NameOf(items[k]) == name {
        assert name in names;
      }
    }
  }

  /** Nothing but list items lies between the two headers, and more of them than are to be removed. */
  method CheckSection(layout: Layout, toRemove: set<string>) returns (r: Result<(), CleanupError>)
    ensures r.Success? <==> SectionIsSafe(layout, toRemove)
  {
    var section := layout.Section();
    if exists l :: l in section && IsTopLevelHeader(l) {
      return Failure(UnexpectedSection);
    }
    if exists l :: l in section && IsUnexpectedItem(l) {
      return Failure(UnsafeItems);
    }
    if |layout.items| <= |toRemove| || exists l :: l in layout.preamble && !IsBlank(l) {
      return Failure(UnsafeItems);
    }
    return Success(());
  }

  method FindAll(items: seq<Item>, toRemove: set<string>) returns (r: Result<seq<nat>, CleanupError>)
    ensures r.Success? <==> ReadSafely(items, YAML_ITEMS, toRemove) && AllFound(items, toRemove)
    ensures r.Success? ==> forall i, j | 0 <= i < j < |r.value| :: r.value[i] < r.value[j]
    ensures r.Success? ==> forall k :: k in r.value <==> 0 <= k < |items| && NameOf(items[k]) in toRemove
  {
    r := FindRemoved(items, YAML_ITEMS, toRemove);
    if r.Failure? {
      return;
    }
    var names := set n | n in r.value :: NameOf(items[n]);
    FoundNames(items, r.value, toRemove);
    if names != toRemove {
      return Failure(MissingSurface);
    }
  }

  method CutRecords(layout: Layout, toRemove: set<string>) returns (r: Result<Layout, CleanupError>)
    ensures r.Success? <==> LayoutIsCleanable(layout, toRemove)
    ensures r.Success? ==> r.value == CutLayout(layout, toRemove)
  {
    if layout.tail == [] {
      return Failure(AmbiguousSections);
    }
    var safe := CheckSection(layout, toRemove);
    if safe.Failure? {
      return Failure(safe.error);
    }
    var found := FindAll(layout.items, toRemove);
    if found.Failure? {
      return Failure(found.error);
    }
    var removed := found.value;
    assert forall i | 0 <= i < |removed| :: removed[i] in removed;
    var unreferenced := CheckReferences(layout, removed);
    if !unreferenced {
      return Failure(StillReferenced);
    }
    var output := CopyAround(layout.items, toRemove, removed);
    return Success(layout.(items := output));
  }

  method RemoveSuppressedSurfaces(yaml: string, suppressed: seq<string>) returns (r: Result<string, CleanupError>)
    ensures suppressed == [] ==> r == Success(yaml)
    ensures suppressed != [] ==> (r.Success? <==> Cleanable(yaml, set s | s in suppressed))
    ensures suppressed != [] && r.Success? ==> r.value == Cleaned(yaml, set s | s in suppressed)
  {
    if suppressed == [] {
      return Success(yaml);
    }
    if IsBlank(yaml) {
      return Failure(EmptySnapshot);
    }
    var toRemove := set s | s in suppressed;
    if exists name :: name in toRemove && (IsBlank(name) || !IsSurfaceName(name)) {
      return Failure(InvalidIdentity);
    }
    var structure := Structure(yaml);
    if structure.None? {
      return Failure(AmbiguousSections);
    }
    var cut := CutRecords(structure.value, toRemove);
    if cut.Failure? {
      return Failure(cut.error);
    }
    return Success(JoinLines(cut.value.Lines()));
  }

  /*************** What the output is ***************/

  lemma HeadersDiffer(line: string)
    ensures !(IsHeader(line, SURFACES) && IsHeader(line, FEATURES))
  {
    if IsHeader(line, SURFACES) { assert line[0] == 'S'; }
  }

  lemma StructureIsRegular(yaml: string)
    requires Structure(yaml).Some?
    ensures Regular(Structure(yaml).value, YAML) && Structure(yaml).value.Lines() == SplitLines(yaml)
  {
    forall l | l in SplitLines(yaml) ensures !(YAML.opening(l) && YAML.closing(l)) {
      HeadersDiffer(l);
    }
    LayoutIsRegular(SplitLines(yaml), YAML);
  }

  lemma {:induction false} KeepSelects(items: seq<Item>, removed: set<string>)
    ensures forall k | 0 <= k < |Keep(items, removed)| ::
      Keep(items, removed)[k] in items && NameOf(Keep(items, removed)[k]) !in removed
  {
    if items != [] {
      KeepSelects(items[1..], removed);
    }
  }

  lemma {:induction false} KeepCounts(items: seq<Item>, removed: set<string>, p: Pattern)
    ensures Count(Flatten(Keep(items, removed)), p) <= Count(Flatten(items), p)
  {
    if items != [] {
      var rest := Keep(items[1..], removed);
      KeepCounts(items[1..], removed, p);
      CountSplits(items[0], Flatten(items[1..]), p);
      CountSplits(items[0], Flatten(rest), p);
      assert [] + rest == rest;
    }
  }

  lemma CutIsRegular(layout: Layout, ps: Patterns, removed: set<string>)
    requires Regular(layout, ps)
    ensures Regular(CutLayout(layout, removed), ps)
  {
    var cut := CutLayout(layout, removed);
    KeepSelects(layout.items, removed);
    KeepCounts(layout.items, removed, ps.opening);
    KeepCounts(layout.items, removed, ps.closing);
    CountSplits(layout.preamble, Flatten(layout.items), ps.opening);
    CountSplits(layout.preamble, Flatten(layout.items), ps.closing);
    CountSplits(layout.preamble, Flatten(cut.items), ps.opening);
    CountSplits(layout.preamble, Flatten(cut.items), ps.closing);
  }

  lemma {:induction false} InFlatten(items: seq<Item>, k: nat, l: string)
    requires k < |items| && l in items[k]
    ensures l in Flatten(items)
  {
    if k > 0 { InFlatten(items[1..], k - 1, l); }
  }

  lemma {:induction false} FromFlatten(items: seq<Item>, l: string) returns (k: nat)
    requires l in Flatten(items)
    ensures k < |items| && l in items[k]
  {
    if l in items[0] {
      k := 0;
    } else {
      var j := FromFlatten(items[1..], l);
      k := j + 1;
    }
  }

  /** A line of the cut layout is in no suppressed record. */
  lemma LineSurvives(layout: Layout, removed: set<string>, k: nat, l: string)
    requires k < |layout.items| && NameOf(layout.items[k]) in removed
    requires l in CutLayout(layout, removed).Lines()
    ensures l in layout.(items := Without(layout.items, k)).Lines()
  {
    var kept := Keep(layout.items, removed);
    if l in Flatten(kept) {
      var i := FromFlatten(kept, l);
      KeepSelects(layout.items, removed);
      var j :| 0 <= j < |layout.items| && layout.items[j] == kept[i];
      var at := if j < k then j else j - 1;
      assert Without(layout.items, k)[at] == layout.items[j];
      InFlatten(Without(layout.items, k), at, l);
    }
  }

  lemma CutLinesWereThere(layout: Layout, removed: set<string>)
    ensures forall l | l in CutLayout(layout, removed).Lines() :: l in layout.Lines()
  {
    var kept := Keep(layout.items, removed);
    KeepSelects(layout.items, removed);
    forall l | l in Flatten(kept) ensures l in Flatten(layout.items) {
      var i := FromFlatten(kept, l);
      var j :| 0 <= j < |layout.items| && layout.items[j] == kept[i];
      InFlatten(layout.items, j, l);
    }
  }

  /**
   * Reading the cut text gives the input's structure with exactly the listed records gone; every other line is as it
   * was.
   */
  lemma OutputStructure(yaml: string, removed: set<string>)
    requires Structure(yaml).Some? && Structure(yaml).value.tail != []
    ensures Structure(Cleaned(yaml, removed)) == Some(CutLayout(Structure(yaml).value, removed))
  {
    var cut := CutLayout(Structure(yaml).value, removed);
    StructureIsRegular(yaml);
    CutIsRegular(Structure(yaml).value, YAML, removed);
    LayoutOfRegular(cut, YAML);
    CutLinesWereThere(Structure(yaml).value, removed);
    SplitJoin(cut.Lines());
  }

  /** No word appears in the cut text that the input did not have. */
  lemma CuttingCreatesNoWord(yaml: string, removed: set<string>, word: string)
    requires Structure(yaml).Some? && Structure(yaml).value.tail != [] && word != "" && '\n' !in word
    ensures HasWord(Cleaned(yaml, removed), word) ==> HasWord(yaml, word)
  {
    var cut := CutLayout(Structure(yaml).value, removed);
    StructureIsRegular(yaml);
    CutLinesWereThere(Structure(yaml).value, removed);
    WordsAreInLines(cut.Lines(), word);
    WordsAreInLines(SplitLines(yaml), word);
    JoinSplit(yaml);
  }

  /** A removed record that nothing else mentions leaves no trace, whatever else is cut with it. */
  lemma UnreferencedNameIsGone(layout: Layout, removed: set<string>, k: nat)
    requires k < |layout.items| && layout.tail != [] && NameOf(layout.items[k]) in removed
    requires NameOf(layout.items[k]) != "" && '\n' !in NameOf(layout.items[k])
    ensures Unreferenced(layout, k) ==> !HasWord(JoinLines(CutLayout(layout, removed).Lines()), NameOf(layout.items[k]))
  {
    var name := NameOf(layout.items[k]);
    var remaining := layout.(items := Without(layout.items, k)).Lines();
    WordsAreInLines(CutLayout(layout, removed).Lines(), name);
    WordsAreInLines(remaining, name);
    forall l | l in CutLayout(layout, removed).Lines()
      ensures l in remaining
    {
      LineSurvives(layout, removed, k, l);
    }
  }

  /**
   * No suppressed name is left anywhere in the output, although each was only checked with the other records in place.
   */
  lemma NoSuppressedNameRemains(yaml: string, removed: set<string>, name: string)
    ensures Cleanable(yaml, removed) && name in removed ==> !HasWord(Cleaned(yaml, removed), name)
  {
    if Cleanable(yaml, removed) && name in removed {
      var layout := Structure(yaml).value;
      var k :| 0 <= k < |layout.items| && NameOf(layout.items[k]) == name;
      assert Unreferenced(layout, k);
      NameHasNoBreak(yaml, k);
      UnreferencedNameIsGone(layout, removed, k);
    }
  }

  lemma NameIsPartOfLine(line: string)
    ensures forall c | c in NameOn(line) :: c in line
  {
    if StartsWith(line, ENTRY) {
      assert forall c | c in line[|ENTRY|..] :: c in line;
    }
  }

  lemma NameHasNoBreak(yaml: string, k: nat)
    requires Structure(yaml).Some? && k < |Structure(yaml).value.items|
    ensures '\n' !in NameOf(Structure(yaml).value.items[k])
  {
    var layout := Structure(yaml).value;
    StructureIsRegular(yaml);
    var item := layout.items[k];
    if item != [] {
      ItemLinesAreLines(layout, k, item[0]);
      NameIsPartOfLine(item[0]);
    }
  }

  lemma ItemLinesAreLines(layout: Layout, k: nat, l: string)
    requires k < |layout.items| && l in layout.items[k]
    ensures l in layout.Lines()
  {
    InFlatten(layout.items, k, l);
  }
}
