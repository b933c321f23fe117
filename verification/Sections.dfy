/** A list of lines seen as a head, a section of grouped items and a tail, for any line patterns. */
module Sections {
  import opened Wrappers

  type Pattern = string -> bool

  /** Patterns for the two section headers and for the first line of a list item. */
  datatype Patterns = Patterns(opening: Pattern, closing: Pattern, entry: Pattern)

  /** An item is its entry line and the lines up to the next entry. */
  type Item = seq<string>

  datatype Layout = Layout(head: seq<string>, preamble: seq<string>, items: seq<Item>, tail: seq<string>) {
    function Section(): seq<string> {
      preamble + Flatten(items)
    }

    function Lines(): seq<string> {
      head + Section() + tail
    }
  }

  function Flatten(items: seq<Item>): seq<string> {
    if items == [] then [] else items[0] + Flatten(items[1..])
  }

  function Count(lines: seq<string>, p: Pattern): nat {
    if lines == [] then 0 else (if p(lines[0]) then 1 else 0) + Count(lines[1..], p)
  }

  function Index(lines: seq<string>, p: Pattern): (i: nat)
    requires Count(lines, p) > 0
    ensures i < |lines| && p(lines[i])
  {
    if p(lines[0]) then 0 else 1 + Index(lines[1..], p)
  }

  /** The lines before the first entry. */
  function Preamble(lines: seq<string>, p: Pattern): (pre: seq<string>)
    ensures pre <= lines && (forall l | l in pre :: !p(l))
    ensures |pre| < |lines| ==> p(lines[|pre|])
  {
    if lines == [] || p(lines[0]) then [] else
      assert lines == [lines[0]] + lines[1..];
      [lines[0]] + Preamble(lines[1..], p)
  }

  function Items(lines: seq<string>, p: Pattern): (items: seq<Item>)
    requires lines != [] ==> p(lines[0])
    decreases |lines|
  {
    if lines == [] then [] else
      var body := Preamble(lines[1..], p);
      assert lines[1..][|body|..] == lines[1 + |body|..];
      [[lines[0]] + body] + Items(lines[1 + |body|..], p)
  }

  function LayoutOf(lines: seq<string>, ps: Patterns): Option<Layout> {
    if Count(lines, ps.opening) != 1 || Count(lines, ps.closing) != 1
      || Index(lines, ps.closing) <= Index(lines, ps.opening) then None
    else Some(LayoutAt(lines, Index(lines, ps.opening), Index(lines, ps.closing), ps.entry))
  }

  function LayoutAt(lines: seq<string>, opening: nat, closing: nat, entry: Pattern): Layout
    requires opening < closing < |lines|
  {
    var section := lines[opening + 1..closing];
    var pre := Preamble(section, entry);
    Layout(lines[..opening + 1], pre, Items(section[|pre|..], entry), lines[closing..])
  }

  ghost predicate IsItem(item: Item, p: Pattern) {
    item != [] && p(item[0]) && forall l | l in item[1..] :: !p(l)
  }

  ghost predicate AllItems(items: seq<Item>, p: Pattern) {
    forall k | 0 <= k < |items| :: IsItem(items[k], p)
  }

  /** One step of `Items`. */
  lemma ItemsUnfold(lines: seq<string>, p: Pattern) returns (item: Item, rest: seq<string>)
    requires lines != [] && p(lines[0])
    ensures lines == item + rest && IsItem(item, p) && (rest != [] ==> p(rest[0]))
    ensures Items(lines, p) == [item] + Items(rest, p) && |rest| < |lines|
  {
    var body := Preamble(lines[1..], p);
    item, rest := [lines[0]] + body, lines[1 + |body|..];
    assert lines[1..][|body|..] == rest && item[1..] == body;
    assert lines == item + rest;
  }

  lemma {:induction false} ItemsFlatten(lines: seq<string>, p: Pattern)
    requires lines != [] ==> p(lines[0])
    ensures Flatten(Items(lines, p)) == lines && AllItems(Items(lines, p), p)
    decreases |lines|
  {
    if lines != [] {
      var item, rest := ItemsUnfold(lines, p);
      ItemsFlatten(rest, p);
    }
  }

  lemma {:induction false} PreambleStops(pre: seq<string>, rest: seq<string>, p: Pattern)
    requires forall l | l in pre :: !p(l)
    requires rest != [] ==> p(rest[0])
    ensures Preamble(pre + rest, p) == pre
  {
    if pre == [] {
      assert pre + rest == rest;
    } else {
      assert (pre + rest)[1..] == pre[1..] + rest;
      PreambleStops(pre[1..], rest, p);
    }
  }

  lemma {:induction false} FlattenedItems(items: seq<Item>, p: Pattern)
    requires AllItems(items, p)
    ensures Flatten(items) != [] ==> p(Flatten(items)[0])
    ensures Items(Flatten(items), p) == items
  {
    if items != [] {
      var first, rest := items[0], Flatten(items[1..]);
      assert IsItem(first, p);
      FlattenedItems(items[1..], p);
      var lines := first + rest;
      assert lines[1..] == first[1..] + rest;
      PreambleStops(first[1..], rest, p);
      assert lines[1 + |first[1..]|..] == rest;
      assert [lines[0]] + first[1..] == first;
    }
  }

  lemma {:induction false} CountSplits(a: seq<string>, b: seq<string>, p: Pattern)
    ensures Count(a + b, p) == Count(a, p) + Count(b, p)
  {
    if a == [] {
      assert a + b == b;
    } else {
      assert (a + b)[1..] == a[1..] + b;
      CountSplits(a[1..], b, p);
    }
  }

  lemma {:induction false} IndexIn(a: seq<string>, line: string, b: seq<string>, p: Pattern)
    requires Count(a, p) == 0 && p(line)
    ensures Count(a + [line] + b, p) > 0 && Index(a + [line] + b, p) == |a|
  {
    if a == [] {
      assert a + [line] + b == [line] + b;
    } else {
      assert (a + [line] + b)[1..] == a[1..] + [line] + b;
      IndexIn(a[1..], line, b, p);
    }
  }

  /** One header closes the head, one opens the tail, and the items are items. */
  ghost predicate Regular(s: Layout, ps: Patterns) {
    && s.head != [] && ps.opening(s.head[|s.head| - 1]) && !ps.closing(s.head[|s.head| - 1])
    && s.tail != [] && ps.closing(s.tail[0]) && !ps.opening(s.tail[0])
    && OutsideHeaders(s, ps.opening) && OutsideHeaders(s, ps.closing)
    && (forall l | l in s.preamble :: !ps.entry(l))
    && AllItems(s.items, ps.entry)
  }

  ghost predicate OutsideHeaders(s: Layout, p: Pattern)
    requires s.head != [] && s.tail != []
  {
    Count(s.head[..|s.head| - 1], p) == 0 && Count(s.Section(), p) == 0 && Count(s.tail[1..], p) == 0
  }

  lemma CountsIn(s: Layout, p: Pattern)
    requires s.head != [] && s.tail != []
    ensures Count(s.Lines(), p) ==
      Count(s.head[..|s.head| - 1], p) + Count([s.head[|s.head| - 1]], p) + Count(s.Section(), p)
                                   + Count([s.tail[0]], p) + Count(s.tail[1..], p)
  {
    assert s.head == s.head[..|s.head| - 1] + [s.head[|s.head| - 1]];
    assert s.tail == [s.tail[0]] + s.tail[1..];
    CountSplits(s.head[..|s.head| - 1], [s.head[|s.head| - 1]], p);
    CountSplits([s.tail[0]], s.tail[1..], p);
    CountSplits(s.head, s.Section(), p);
    CountSplits(s.head + s.Section(), s.tail, p);
  }

  lemma LinesAround(s: Layout)
    requires s.head != [] && s.tail != []
    ensures s.Lines() == s.head[..|s.head| - 1] + [s.head[|s.head| - 1]] + (s.Section() + s.tail)
    ensures s.Lines() == (s.head + s.Section()) + [s.tail[0]] + s.tail[1..]
  {
    assert s.head == s.head[..|s.head| - 1] + [s.head[|s.head| - 1]];
    assert s.tail == [s.tail[0]] + s.tail[1..];
  }

  lemma HeadersOf(s: Layout, ps: Patterns)
    requires Regular(s, ps)
    ensures Count(s.Lines(), ps.opening) == 1 && Index(s.Lines(), ps.opening) == |s.head| - 1
    ensures Count(s.Lines(), ps.closing) == 1 && Index(s.Lines(), ps.closing) == |s.head| + |s.Section()|
  {
    var before, o := s.head[..|s.head| - 1], s.head[|s.head| - 1];
    CountsIn(s, ps.opening);
    CountsIn(s, ps.closing);
    LinesAround(s);
    IndexIn(before, o, s.Section() + s.tail, ps.opening);
    CountSplits(before, [o], ps.closing);
    assert before + [o] == s.head;
    CountSplits(s.head, s.Section(), ps.closing);
    IndexIn(s.head + s.Section(), s.tail[0], s.tail[1..], ps.closing);
  }

  lemma SectionOf(s: Layout, p: Pattern)
    requires (forall l | l in s.preamble :: !p(l)) && AllItems(s.items, p)
    ensures Preamble(s.Section(), p) == s.preamble
    ensures s.Section()[|s.preamble|..] == Flatten(s.items)
    ensures (Flatten(s.items) != [] ==> p(Flatten(s.items)[0])) && Items(Flatten(s.items), p) == s.items
  {
    FlattenedItems(s.items, p);
    PreambleStops(s.preamble, Flatten(s.items), p);
  }

  lemma PartsOf(s: Layout)
    ensures var lines, h, t := s.Lines(), |s.head|, |s.head| + |s.Section()|;
            lines[..h] == s.head && lines[h..t] == s.Section() && lines[t..] == s.tail
  {
  }

  /** Laying out the lines of a regular layout finds the layout again. */
  lemma LayoutOfRegular(s: Layout, ps: Patterns)
    requires Regular(s, ps)
    ensures LayoutOf(s.Lines(), ps) == Some(s)
  {
    HeadersOf(s, ps);
    LayoutAtParts(s, ps.entry);
  }

  lemma LayoutAtParts(s: Layout, entry: Pattern)
    requires s.head != [] && s.tail != [] && (forall l | l in s.preamble :: !entry(l)) && AllItems(s.items, entry)
    ensures LayoutAt(s.Lines(), |s.head| - 1, |s.head| + |s.Section()|, entry) == s
  {
    PartsOf(s);
    SectionOf(s, entry);
  }

  lemma PreambleSplits(section: seq<string>, pre: seq<string>)
    requires pre <= section
    ensures pre + section[|pre|..] == section
  {
  }

  lemma SectionParts(section: seq<string>, pre: seq<string>, rest: seq<string>, entry: Pattern)
    requires pre == Preamble(section, entry) && rest == section[|pre|..]
    ensures pre + Flatten(Items(rest, entry)) == section
    ensures (forall l | l in pre :: !entry(l)) && AllItems(Items(rest, entry), entry)
  {
    assert rest != [] ==> rest[0] == section[|pre|];
    ItemsFlatten(rest, entry);
    PreambleSplits(section, pre);
  }

  lemma InThree(lines: seq<string>, a: nat, b: nat)
    requires a <= b <= |lines|
    ensures lines[..a] + lines[a..b] + lines[b..] == lines
  {
  }

  lemma LayoutIs(lines: seq<string>, opening: nat, closing: nat, pre: seq<string>, items: seq<Item>)
    requires opening < closing < |lines| && pre + Flatten(items) == lines[opening + 1..closing]
    ensures var s := Layout(lines[..opening + 1], pre, items, lines[closing..]);
      && s.Lines() == lines && s.head != [] && s.head[|s.head| - 1] == lines[opening] && s.tail != []
      && s.tail[0] == lines[closing]
  {
    InThree(lines, opening + 1, closing);
  }

  lemma LayoutParts(lines: seq<string>, opening: nat, closing: nat, entry: Pattern)
    requires opening < closing < |lines|
    ensures var s := LayoutAt(lines, opening, closing, entry);
      && s.Lines() == lines && s.head != [] && s.head[|s.head| - 1] == lines[opening] && s.tail != []
      && s.tail[0] == lines[closing]
      && (forall l | l in s.preamble :: !entry(l)) && AllItems(s.items, entry)
  {
    var section := lines[opening + 1..closing];
    var pre := Preamble(section, entry);
    SectionParts(section, pre, section[|pre|..], entry);
    LayoutIs(lines, opening, closing, pre, Items(section[|pre|..], entry));
  }

  /** A header counted once, at the end of the head or at the start of the tail, is nowhere else. */
  lemma CountedOnce(s: Layout, p: Pattern)
    requires s.head != [] && s.tail != [] && Count(s.Lines(), p) == 1
    requires p(s.head[|s.head| - 1]) || p(s.tail[0])
    ensures OutsideHeaders(s, p)
  {
    CountsIn(s, p);
    assert Count([s.head[|s.head| - 1]], p) == if p(s.head[|s.head| - 1]) then 1 else 0;
    assert Count([s.tail[0]], p) == if p(s.tail[0]) then 1 else 0;
  }

  /** Every layout found is regular and accounts for every line, when no line is both headers at once. */
  lemma LayoutIsRegular(lines: seq<string>, ps: Patterns)
    requires LayoutOf(lines, ps).Some?
    requires forall l | l in lines :: !(ps.opening(l) && ps.closing(l))
    ensures Regular(LayoutOf(lines, ps).value, ps) && LayoutOf(lines, ps).value.Lines() == lines
  {
    var s := LayoutOf(lines, ps).value;
    var i, f := Index(lines, ps.opening), Index(lines, ps.closing);
    LayoutParts(lines, i, f, ps.entry);
    CountedOnce(s, ps.opening);
    CountedOnce(s, ps.closing);
  }
}
