/** The line-based ENC change summary: its printer and the two parsers that read it back. */
module ChangeSummary {
  import opened Wrappers
  import opened Text

  /*************** Changes and time ***************/

  datatype Kind = Utc | Local | Unspecified

  datatype Instant = Instant(ticks: int, kind: Kind)

  datatype ProductChange = ProductChange(featureId: string, featureCode: string, attributePath: string,
                                         detectedAt: Instant, deleted: bool)

  datatype SummaryError = NoChanges | NotUtc | InvalidTimestamp | NoTimestamp

  /** Prints a UTC instant, reads an instant, and converts local ticks to UTC. */
  datatype Clock = Clock(write: int -> string, parse: string -> Option<Instant>, toUtc: int -> int) {
    function UtcOf(value: string): Option<int> {
      match parse(value)
      case None => None
      case Some(i) => Some(if i.kind.Local? then toUtc(i.ticks) else i.ticks)
    }

    /** No text with a quote or a backslash in it reads as an instant. */
    ghost predicate ReadsPlain() {
      forall value: string :: parse(value).Some? ==> '"' !in value && '\\' !in value
    }

    /** A printed instant is one trimmed line that reads back as itself. */
    ghost predicate RoundTrips() {
      forall t: int :: OneLine(write(t)) && Trim(write(t)) == write(t) && parse(write(t)) == Some(Instant(t, Utc))
    }
  }

  predicate OneLine(s: string) {
    '\n' !in s
  }

  /** Records compare instants by ticks alone, so that is what counts as the same change. */
  function Key(c: ProductChange): ProductChange {
    c.(detectedAt := Instant(c.detectedAt.ticks, Utc))
  }

  function Keys(changes: seq<ProductChange>): set<ProductChange> {
    set c | c in changes :: Key(c)
  }

  function Distinct(changes: seq<ProductChange>): seq<ProductChange> {
    if changes == [] then [] else
      var last := changes[|changes| - 1];
      var before := Distinct(changes[..|changes| - 1]);
      if Key(last) in Keys(before) then before else before + [last]
  }

  lemma {:induction false} DistinctKeepsEachChangeOnce(changes: seq<ProductChange>)
    ensures Keys(Distinct(changes)) == Keys(changes) && |Distinct(changes)| == |Keys(changes)|
    ensures forall c | c in Distinct(changes) :: c in changes
    decreases |changes|
  {
    if changes != [] {
      var init, last := changes[..|changes| - 1], changes[|changes| - 1];
      DistinctKeepsEachChangeOnce(init);
      assert changes == init + [last];
      assert Keys(changes) == Keys(init) + {Key(last)};
      assert Keys(Distinct(init) + [last]) == Keys(Distinct(init)) + {Key(last)};
    }
  }

  /** Of several equal changes the first stays, and what is kept stays in order. */
  lemma {:induction false} DistinctKeepsFirst(changes: seq<ProductChange>, i: nat)
    requires i < |changes| && forall j | 0 <= j < i :: Key(changes[j]) != Key(changes[i])
    ensures |Distinct(changes[..i])| < |Distinct(changes)| && Distinct(changes[..i]) <= Distinct(changes)
    ensures Distinct(changes)[|Distinct(changes[..i])|] == changes[i]
    decreases |changes|
  {
    var init := changes[..|changes| - 1];
    if i < |init| {
      assert init[..i] == changes[..i];
      DistinctKeepsFirst(init, i);
    } else {
      DistinctKeepsEachChangeOnce(init);
      assert changes[..i] == init;
    }
  }

  predicate Before(a: ProductChange, b: ProductChange) {
    Less(a.featureId, b.featureId) || (a.featureId == b.featureId && Less(a.attributePath, b.attributePath))
  }

  /** After every change that is not behind it, so equal keys keep their order. */
  function Insert(c: ProductChange, changes: seq<ProductChange>): seq<ProductChange> {
    if changes == [] || !Before(c, changes[|changes| - 1]) then changes + [c]
    else Insert(c, changes[..|changes| - 1]) + [changes[|changes| - 1]]
  }

  function Sort(changes: seq<ProductChange>): seq<ProductChange> {
    if changes == [] then [] else Insert(changes[|changes| - 1], Sort(changes[..|changes| - 1]))
  }

  function Observed(changes: seq<ProductChange>): seq<ProductChange> {
    Sort(Distinct(changes))
  }

  predicate Sorted(changes: seq<ProductChange>) {
    forall i, j | 0 <= i < j < |changes| :: !Before(changes[j], changes[i])
  }

  function WithKey(id: string, path: string, changes: seq<ProductChange>): seq<ProductChange> {
    if changes == [] then [] else
      var last := changes[|changes| - 1];
      WithKey(id, path, changes[..|changes| - 1])
      + if last.featureId == id && last.attributePath == path then [last] else []
  }

  lemma BeforeIsTransitive(a: ProductChange, b: ProductChange, c: ProductChange)
    requires !Before(b, a) && !Before(c, b)
    ensures !Before(c, a)
  {
    if Before(c, a) {
      LessIsTotal(a.featureId, b.featureId);
      LessIsTotal(b.featureId, c.featureId);
      LessIsTotal(a.attributePath, b.attributePath);
      LessIsTotal(b.attributePath, c.attributePath);
      LessIsStrict(a.featureId, c.featureId);
      LessIsStrict(a.attributePath, c.attributePath);
      NotLessIsTransitive(a.featureId, b.featureId, c.featureId);
      NotLessIsTransitive(a.attributePath, b.attributePath, c.attributePath);
    }
  }

  lemma NotLessIsTransitive(a: string, b: string, c: string)
    requires !Less(b, a) && !Less(c, b)
    ensures !Less(c, a) && (a == c ==> a == b)
  {
    LessIsTotal(a, b);
    LessIsTotal(b, c);
    LessIsStrict(a, c);
    LessIsStrict(b, c);
    LessIsStrict(a, b);
    if Less(a, b) && Less(b, c) {
      LessIsTransitive(a, b, c);
    }
  }

  lemma {:induction false} InsertAdds(c: ProductChange, changes: seq<ProductChange>)
    ensures multiset(Insert(c, changes)) == multiset(changes) + multiset{c}
    decreases |changes|
  {
    if changes != [] && Before(c, changes[|changes| - 1]) {
      InsertAdds(c, changes[..|changes| - 1]);
      assert changes == changes[..|changes| - 1] + [changes[|changes| - 1]];
    }
  }

  lemma {:induction false} InsertKeepsSorted(c: ProductChange, changes: seq<ProductChange>)
    requires Sorted(changes)
    ensures Sorted(Insert(c, changes))
    decreases |changes|
  {
    if changes != [] && Before(c, changes[|changes| - 1]) {
      var init, last := changes[..|changes| - 1], changes[|changes| - 1];
      InsertKeepsSorted(c, init);
      InsertAdds(c, init);
      LessIsStrict(c.featureId, last.featureId);
      LessIsStrict(c.attributePath, last.attributePath);
      forall d | d in Insert(c, init)
        ensures !Before(last, d)
      {
        assert d in multiset(Insert(c, init));
        assert d in multiset(init) || d == c;
      }
    } else {
      forall i | 0 <= i < |changes|
        ensures !Before(c, changes[i])
      {
        if i < |changes| - 1 {
          BeforeIsTransitive(changes[i], changes[|changes| - 1], c);
        }
      }
    }
  }

  lemma {:induction false} InsertGoesLast(c: ProductChange, changes: seq<ProductChange>, id: string, path: string)
    ensures WithKey(id, path, Insert(c, changes)) == WithKey(id, path, changes + [c])
    decreases |changes|
  {
    assert (changes + [c])[..|changes|] == changes;
    if changes != [] && Before(c, changes[|changes| - 1]) {
      var init, last := changes[..|changes| - 1], changes[|changes| - 1];
      InsertGoesLast(c, init, id, path);
      assert Insert(c, changes)[..|Insert(c, changes)| - 1] == Insert(c, init);
      assert (init + [c])[..|init|] == init;
      LessIsStrict(c.featureId, last.featureId);
      LessIsStrict(c.attributePath, last.attributePath);
    }
  }

  lemma {:induction false} SortPermutes(changes: seq<ProductChange>)
    ensures Sorted(Sort(changes)) && multiset(Sort(changes)) == multiset(changes)
    decreases |changes|
  {
    if changes != [] {
      var init, last := changes[..|changes| - 1], changes[|changes| - 1];
      SortPermutes(init);
      InsertKeepsSorted(last, Sort(init));
      InsertAdds(last, Sort(init));
      assert changes == init + [last];
    }
  }

  /** The sort is a stable one by feature and attribute path. */
  lemma {:induction false} SortIsStable(changes: seq<ProductChange>, id: string, path: string)
    ensures WithKey(id, path, Sort(changes)) == WithKey(id, path, changes)
    decreases |changes|
  {
    if changes != [] {
      var init, last := changes[..|changes| - 1], changes[|changes| - 1];
      SortIsStable(init, id, path);
      InsertGoesLast(last, Sort(init), id, path);
      assert (Sort(init) + [last])[..|Sort(init)|] == Sort(init);
    }
  }

  ghost predicate NotAfter(a: string, b: string) {
    a == b || Less(a, b)
  }

  /** The observed changes ascend by feature and, within one feature, by attribute path. */
  lemma ObservedAscends(changes: seq<ProductChange>, i: nat, j: nat)
    requires i < j < |Observed(changes)|
    ensures var a, b := Observed(changes)[i], Observed(changes)[j];
            && NotAfter(a.featureId, b.featureId)
            && (a.featureId == b.featureId ==> NotAfter(a.attributePath, b.attributePath))
  {
    SortPermutes(Distinct(changes));
    var a, b := Observed(changes)[i], Observed(changes)[j];
    LessIsTotal(a.featureId, b.featureId);
    LessIsTotal(a.attributePath, b.attributePath);
    assert !Before(b, a);
  }

  /*************** Printing ***************/

  function Escape(s: string, c: char): string {
    if s == "" then "" else (if s[0] == c then ['\\', c] else [s[0]]) + Escape(s[1..], c)
  }

  function Quote(value: string): string {
    "\"" + Escape(Escape(value, '\\'), '"') + "\""
  }

  /** Reads what stands behind an opening quote: a backslash is followed by a backslash or a quote, a quote ends it. */
  ghost function ReadQuoted(s: string): Option<string> {
    if s == "" then None
    else if s[0] == '"' then if |s| == 1 then Some("") else None
    else if s[0] != '\\' then Prepend(s[0], ReadQuoted(s[1..]))
    else if |s| == 1 || (s[1] != '\\' && s[1] != '"') then None
    else Prepend(s[1], ReadQuoted(s[2..]))
  }

  ghost function Prepend(c: char, r: Option<string>): Option<string> {
    if r.None? then None else Some([c] + r.value)
  }

  lemma EscapedFirst(c: char, rest: string)
    ensures Escape(Escape([c] + rest, '\\'), '"') ==
      (if c == '\\' || c == '"' then ['\\', c] else [c]) + Escape(Escape(rest, '\\'), '"')
  {
    assert ([c] + rest)[1..] == rest;
    var inner := Escape(rest, '\\');
    if c == '\\' {
      assert ['\\', c] + inner == ['\\'] + (['\\'] + inner);
      assert (['\\'] + (['\\'] + inner))[1..] == ['\\'] + inner && (['\\'] + inner)[1..] == inner;
    } else {
      assert ([c] + inner)[1..] == inner;
    }
  }

  lemma {:induction false} EscapedIsRead(value: string)
    ensures ReadQuoted(Escape(Escape(value, '\\'), '"') + "\"") == Some(value)
  {
    if value != "" {
      var c, rest := value[0], value[1..];
      assert value == [c] + rest;
      EscapedFirst(c, rest);
      EscapedIsRead(rest);
      var first: string := if c == '\\' || c == '"' then ['\\', c] else [c];
      var others := Escape(Escape(rest, '\\'), '"') + "\"";
      assert first + Escape(Escape(rest, '\\'), '"') + "\"" == first + others;
      assert (first + others)[|first|..] == others;
    } else {
      assert "" + "\"" == "\"";
    }
  }

  /** A quoted text is an opening quote and what reads back as the text, up to the very end. */
  lemma QuotedIsRead(value: string)
    ensures Quote(value) != "" && Quote(value)[0] == '"' && ReadQuoted(Quote(value)[1..]) == Some(value)
  {
    EscapedIsRead(value);
    assert Quote(value)[1..] == Escape(Escape(value, '\\'), '"') + "\"";
  }

  datatype Header = Header(datasetName: string, productSpecification: string, workDate: string, first: Instant,
                           last: Instant)

  function Latest(changes: seq<ProductChange>): int
    requires changes != []
  {
    var last := changes[|changes| - 1].detectedAt.ticks;
    if |changes| == 1 then last else
      var before := Latest(changes[..|changes| - 1]);
      if last > before then last else before
  }

  datatype Tag =
    | Dataset | Specification | WorkDate | First | Last | Edit | Changes
    | Id | Code | Attribute | Deleted | Detected

  datatype Line = Line(tag: Tag, field: string)

  const DATASET := "datasetName: "
  const SPECIFICATION := "productSpecification: "
  const WORK_DATE := "workDate: "
  const FIRST := "firstDetectedAtUtc: "
  const LAST := "lastDetectedAtUtc: "
  const EDIT := "latestArchiveEditUtc: "
  const CHANGES := "changes:"
  const ID := "  - featureId: "
  const CODE := "    featureCode: "
  const ATTRIBUTE := "    attribute: "
  const DELETED := "    deleted: "
  const DETECTED := "    detectedAtUtc: "

  /** What a line of each kind starts with. */
  function Label(tag: Tag): string {
    match tag
    case Dataset => DATASET
    case Specification => SPECIFICATION
    case WorkDate => WORK_DATE
    case First => FIRST
    case Last => LAST
    case Edit => EDIT
    case Changes => CHANGES
    case Id => ID
    case Code => CODE
    case Attribute => ATTRIBUTE
    case Deleted => DELETED
    case Detected => DETECTED
  }

  function HeaderLines(clock: Clock, h: Header, edit: string, listed: string): seq<Line> {
    [Line(Dataset, Quote(h.datasetName)), Line(Specification, h.productSpecification), Line(WorkDate, h.workDate),
     Line(First, clock.write(h.first.ticks)), Line(Last, clock.write(h.last.ticks)), Line(Edit, edit),
       Line(Changes, listed)]
  }

  function ChangeLines(clock: Clock, c: ProductChange): seq<Line> {
    [Line(Id, c.featureId), Line(Code, Quote(c.featureCode)), Line(Attribute, Quote(c.attributePath)),
     Line(Deleted, if c.deleted then "true" else "false"), Line(Detected, clock.write(c.detectedAt.ticks))]
  }

  function AllChangeLines(clock: Clock, changes: seq<ProductChange>): seq<Line> {
    if changes == [] then []
      else AllChangeLines(clock, changes[..|changes| - 1]) + ChangeLines(clock, changes[|changes| - 1])
  }

  function SummaryLines(clock: Clock, h: Header, changes: seq<ProductChange>): seq<Line>
    requires changes != []
  {
    HeaderLines(clock, h, clock.write(Latest(changes)), "") + AllChangeLines(clock, changes)
  }

  /** The text of the lines, each ended by a carriage return, where the platform writes one, and a line feed. */
  function Printed(key: Tag -> string, lines: seq<Line>, cr: string): string {
    if lines == [] then "" else key(lines[0].tag) + lines[0].field + cr + "\n" + Printed(key, lines[1..], cr)
  }

  predicate AllUtc(h: Header, changes: seq<ProductChange>) {
    h.first.kind.Utc? && h.last.kind.Utc? && forall c | c in changes :: c.detectedAt.kind.Utc?
  }

  /** Exactly when printing succeeds. */
  predicate CanPrint(h: Header, changes: seq<ProductChange>) {
    Observed(changes) != [] && AllUtc(h, Observed(changes))
  }

  function Serialized(clock: Clock, cr: string, h: Header, changes: seq<ProductChange>): Result<string, SummaryError> {
    var observed := Observed(changes);
    if observed == [] then Failure(NoChanges)
    else if !AllUtc(h, observed) then Failure(NotUtc)
    else Success(Printed(Label, SummaryLines(clock, h, observed), cr))
  }

  method Serialize(clock: Clock, cr: string, h: Header, changes: seq<ProductChange>)
      returns (r: Result<string, SummaryError>)
    ensures r == Serialized(clock, cr, h, changes)
  {
    var observed := Observed(changes);
    if observed == [] {
      return Failure(NoChanges);
    }
    for n := 0 to |observed|
      invariant forall c | c in observed[..n] :: c.detectedAt.kind.Utc?
    {
      if !observed[n].detectedAt.kind.Utc? {
        return Failure(NotUtc);
      }
    }
    assert observed[..|observed|] == observed;
    if !h.first.kind.Utc? || !h.last.kind.Utc? {
      return Failure(NotUtc);
    }
    var lines := PrintLines(clock, h, observed);
    return Success(Printed(Label, lines, cr));
  }

  method PrintLines(clock: Clock, h: Header, observed: seq<ProductChange>) returns (lines: seq<Line>)
    requires observed != []
    ensures lines == SummaryLines(clock, h, observed)
  {
    var header := HeaderLines(clock, h, clock.write(Latest(observed)), "");
    lines := header;
    for n := 0 to |observed|
      invariant lines == header + AllChangeLines(clock, observed[..n])
    {
      assert observed[..n + 1][..n] == observed[..n];
      lines := lines + ChangeLines(clock, observed[n]);
    }
    assert observed[..|observed|] == observed;
  }

  /*************** The text, word by word ***************/

  /** One line: what stands in front, the value and the line end. */
  ghost function Row(start: string, value: string, nl: string): string {
    start + value + nl
  }

  /** What stands in front, in full. */
  lemma LabelsAre()
    ensures Label(Dataset) == "datasetName: " && Label(Specification) == "productSpecification: "
    ensures Label(WorkDate) == "workDate: " && Label(First) == "firstDetectedAtUtc: "
    ensures Label(Last) == "lastDetectedAtUtc: " && Label(Edit) == "latestArchiveEditUtc: "
    ensures Label(Changes) == "changes:" && Label(Id) == "  - featureId: " && Label(Code) == "    featureCode: "
    ensures Label(Attribute) == "    attribute: " && Label(Deleted) == "    deleted: "
    ensures Label(Detected) == "    detectedAtUtc: "
  {
  }

  ghost function ChangeText(key: Tag -> string, clock: Clock, nl: string, c: ProductChange): string {
    Row(key(Id), c.featureId, nl)
    + (Row(key(Code), Quote(c.featureCode), nl)
       + (Row(key(Attribute), Quote(c.attributePath), nl)
          + (Row(key(Deleted), if c.deleted then "true" else "false", nl)
             + Row(key(Detected), clock.write(c.detectedAt.ticks), nl))))
  }

  ghost function ChangesText(key: Tag -> string, clock: Clock, nl: string, changes: seq<ProductChange>): string {
    if changes == [] then ""
    else ChangesText(key, clock, nl, changes[..|changes| - 1]) + ChangeText(key, clock, nl, changes[|changes| - 1])
  }

  ghost function HeaderText(key: Tag -> string, clock: Clock, nl: string, h: Header, edit: string, listed: string)
      : string {
    Row(key(Dataset), Quote(h.datasetName), nl)
    + (Row(key(Specification), h.productSpecification, nl)
       + (Row(key(WorkDate), h.workDate, nl)
          + (Row(key(First), clock.write(h.first.ticks), nl)
             + (Row(key(Last), clock.write(h.last.ticks), nl)
                + (Row(key(Edit), edit, nl)
                   + Row(key(Changes), listed, nl))))))
  }

  lemma PrintedFirst(key: Tag -> string, line: Line, rest: seq<Line>, cr: string)
    ensures Printed(key, [line] + rest, cr) == Row(key(line.tag), line.field, cr + "\n") + Printed(key, rest, cr)
    ensures Printed(key, [line], cr) == Row(key(line.tag), line.field, cr + "\n")
  {
    assert ([line] + rest)[1..] == rest && [line][1..] == [];
    assert key(line.tag) + line.field + cr + "\n" == key(line.tag) + line.field + (cr + "\n");
    assert Row(key(line.tag), line.field, cr + "\n") + "" == Row(key(line.tag), line.field, cr + "\n");
  }

  lemma {:induction false} PrintedParts(key: Tag -> string, a: seq<Line>, b: seq<Line>, cr: string)
    ensures Printed(key, a + b, cr) == Printed(key, a, cr) + Printed(key, b, cr)
  {
    if a == [] {
      assert a + b == b;
    } else {
      assert a == [a[0]] + a[1..] && a + b == [a[0]] + (a[1..] + b);
      PrintedFirst(key, a[0], a[1..], cr);
      PrintedFirst(key, a[0], a[1..] + b, cr);
      PrintedParts(key, a[1..], b, cr);
    }
  }

  lemma PrintedFour(key: Tag -> string, a: Line, b: Line, c: Line, rest: seq<Line>, cr: string)
    ensures Printed(key, [a, b, c] + rest, cr) ==
      Row(key(a.tag), a.field, cr + "\n")
      + (Row(key(b.tag), b.field, cr + "\n") + (Row(key(c.tag), c.field, cr + "\n") + Printed(key, rest, cr)))
  {
    PrintedFirst(key, c, rest, cr);
    PrintedFirst(key, b, [c] + rest, cr);
    PrintedFirst(key, a, [b] + ([c] + rest), cr);
    assert [a, b, c] + rest == [a] + ([b] + ([c] + rest));
  }

  ghost function RowOf(key: Tag -> string, l: Line, nl: string): string {
    Row(key(l.tag), l.field, nl)
  }

  lemma FiveRows(key: Tag -> string, l: seq<Line>, cr: string)
    requires |l| == 5
    ensures var nl := cr + "\n";
            Printed(key, l, cr) == RowOf(key, l[0], nl) + (RowOf(key, l[1], nl) + (RowOf(key, l[2], nl)
                                   + (RowOf(key, l[3], nl) + RowOf(key, l[4], nl))))
  {
    PrintedFour(key, l[0], l[1], l[2], [l[3], l[4]], cr);
    assert l == [l[0], l[1], l[2]] + [l[3], l[4]];
    PrintedFirst(key, l[3], [l[4]], cr);
    PrintedFirst(key, l[4], [], cr);
    assert [l[3], l[4]] == [l[3]] + [l[4]];
  }

  lemma SevenRows(key: Tag -> string, l: seq<Line>, cr: string)
    requires |l| == 7
    ensures var nl := cr + "\n";
            Printed(key, l, cr) == RowOf(key, l[0], nl) + (RowOf(key, l[1], nl) + (RowOf(key, l[2], nl)
                                   + (RowOf(key, l[3], nl) + (RowOf(key, l[4], nl) + (RowOf(key, l[5], nl)
                                   + RowOf(key, l[6], nl))))))
  {
    PrintedFour(key, l[0], l[1], l[2], l[3..], cr);
    assert l == [l[0], l[1], l[2]] + l[3..];
    PrintedFour(key, l[3], l[4], l[5], [l[6]], cr);
    assert l[3..] == [l[3], l[4], l[5]] + [l[6]];
    PrintedFirst(key, l[6], [], cr);
  }

  lemma ChangeIsPrinted(key: Tag -> string, clock: Clock, cr: string, c: ProductChange)
    ensures Printed(key, ChangeLines(clock, c), cr) == ChangeText(key, clock, cr + "\n", c)
  {
    FiveRows(key, ChangeLines(clock, c), cr);
  }

  lemma HeaderIsPrinted(key: Tag -> string, clock: Clock, cr: string, h: Header, edit: string, listed: string)
    ensures Printed(key, HeaderLines(clock, h, edit, listed), cr) == HeaderText(key, clock, cr + "\n", h, edit, listed)
  {
    SevenRows(key, HeaderLines(clock, h, edit, listed), cr);
  }

  lemma {:induction false} ChangesArePrinted(key: Tag -> string, clock: Clock, cr: string, changes: seq<ProductChange>)
    ensures Printed(key, AllChangeLines(clock, changes), cr) == ChangesText(key, clock, cr + "\n", changes)
    decreases |changes|
  {
    if changes != [] {
      var init, last := changes[..|changes| - 1], changes[|changes| - 1];
      ChangesArePrinted(key, clock, cr, init);
      ChangeIsPrinted(key, clock, cr, last);
      PrintedParts(key, AllChangeLines(clock, init), ChangeLines(clock, last), cr);
    }
  }

  lemma SummaryIsPrinted(key: Tag -> string, clock: Clock, cr: string, h: Header, observed: seq<ProductChange>)
    requires observed != []
    ensures Printed(key, SummaryLines(clock, h, observed), cr) ==
      HeaderText(key, clock, cr + "\n", h, clock.write(Latest(observed)), "")
      + ChangesText(key, clock, cr + "\n", observed)
  {
    var edit := clock.write(Latest(observed));
    HeaderIsPrinted(key, clock, cr, h, edit, "");
    ChangesArePrinted(key, clock, cr, observed);
    PrintedParts(key, HeaderLines(clock, h, edit, ""), AllChangeLines(clock, observed), cr);
  }

  /**
   * A summary is refused without changes or for a time that is not UTC. Its text is the header with the latest edit and
   * then every observed change, line by line.
   */
  lemma SummaryText(clock: Clock, cr: string, h: Header, changes: seq<ProductChange>)
    ensures changes == [] ==> Serialized(clock, cr, h, changes) == Failure(NoChanges)
    ensures Serialized(clock, cr, h, changes).Success? <==>
            && changes != [] && h.first.kind.Utc? && h.last.kind.Utc?
            && forall c | c in Distinct(changes) :: c.detectedAt.kind.Utc?
    ensures Serialized(clock, cr, h, changes).Success? ==>
      var nl, observed := cr + "\n", Observed(changes);
      && observed != []
      && Serialized(clock, cr, h, changes).value ==
         HeaderText(Label, clock, nl, h, clock.write(Latest(observed)), "") + ChangesText(Label, clock, nl, observed)
  {
    ObservedIffChanged(changes);
    if changes != [] {
      SummaryIsPrinted(Label, clock, cr, h, Observed(changes));
    }
  }

  lemma ObservedIffChanged(changes: seq<ProductChange>)
    ensures Observed(changes) == [] <==> changes == []
    ensures forall c :: c in Observed(changes) <==> c in Distinct(changes)
  {
    SortPermutes(Distinct(changes));
    forall c ensures c in Observed(changes) <==> c in Distinct(changes) {
      assert c in multiset(Observed(changes)) <==> c in multiset(Distinct(changes));
    }
    DistinctKeepsEachChangeOnce(changes);
    if changes != [] {
      assert Key(changes[0]) in Keys(changes);
    }
    assert |Observed(changes)| == |multiset(Observed(changes))| == |multiset(Distinct(changes))| == |Distinct(changes)|;
  }

  /** Without changes the latest edit prints as null, and the list as empty. */
  function SerializedManual(clock: Clock, cr: string, h: Header, changes: seq<ProductChange>)
      : Result<string, SummaryError> {
    var manual := h.(productSpecification := "S101");
    if changes != [] then Serialized(clock, cr, manual, changes)
    else if !AllUtc(h, []) then Failure(NotUtc)
    else Success(Printed(Label, HeaderLines(clock, manual, "null", " []"), cr))
  }

  /** A manual summary is an ordinary one of S-101 if there are changes, and otherwise a header without an edit. */
  lemma ManualSummaryText(clock: Clock, cr: string, h: Header, changes: seq<ProductChange>)
    ensures var s101 := Header(h.datasetName, "S101", h.workDate, h.first, h.last);
            if changes != [] then SerializedManual(clock, cr, h, changes) == Serialized(clock, cr, s101, changes)
            else if h.first.kind != Utc || h.last.kind != Utc
            then SerializedManual(clock, cr, h, changes) == Failure(NotUtc)
            else SerializedManual(clock, cr, h, changes) ==
                 Success(HeaderText(Label, clock, cr + "\n", s101, "null", " []"))
  {
    HeaderIsPrinted(Label, clock, cr, h.(productSpecification := "S101"), "null", " []");
  }

  /*************** Reading ***************/

  /** What one kind of line carries: the trimmed rest after a marker, if the line starts with it. */
  type Picker = string -> Option<string>

  function After(marker: string, line: string): Option<string> {
    if StartsWith(line, marker) then Some(Trim(line[|marker|..])) else None
  }

  function PickId(line: string): Option<string> {
    After(ID, line)
  }

  function PickTimestamp(line: string): Option<string> {
    if StartsWith(line, EDIT) then After(EDIT, line) else After(DETECTED, line)
  }

  function Collect(pick: Picker, lines: seq<string>): seq<string> {
    if lines == [] then [] else Picked(pick, lines[0]) + Collect(pick, lines[1..])
  }

  function Picked(pick: Picker, line: string): seq<string> {
    if pick(line).Some? then [pick(line).value] else []
  }

  lemma Regroup(a: seq<string>, b: seq<string>, c: seq<string>)
    ensures a + (b + c) == (a + b) + c
  {
  }

  function ReadSummaryFeatureIds(text: string): seq<string> {
    Collect(PickId, SplitLines(text))
  }

  /** The greatest of the values and what was read before them, or the first failure. */
  function Greatest(clock: Clock, values: seq<string>, latest: Option<int>): Result<Option<int>, SummaryError> {
    if values == [] then Success(latest) else
      var utc := clock.UtcOf(values[0]);
      if utc.None? then Failure(InvalidTimestamp)
      else Greatest(clock, values[1..], if latest.None? || utc.value > latest.value then utc else latest)
  }

  function LatestOf(clock: Clock, values: seq<string>): Result<int, SummaryError> {
    match Greatest(clock, values, None)
    case Failure(e) => Failure(e)
    case Success(None) => Failure(NoTimestamp)
    case Success(Some(t)) => Success(t)
  }

  function LatestEdit(clock: Clock, text: string): Result<int, SummaryError> {
    LatestOf(clock, Collect(PickTimestamp, SplitLines(text)))
  }

  lemma {:induction false} CollectConcat(pick: Picker, a: seq<string>, b: seq<string>)
    ensures Collect(pick, a + b) == Collect(pick, a) + Collect(pick, b)
    decreases |a|
  {
    if a == [] {
      assert a + b == b;
    } else {
      assert (a + b)[0] == a[0] && (a + b)[1..] == a[1..] + b;
      CollectConcat(pick, a[1..], b);
      Regroup(Picked(pick, a[0]), Collect(pick, a[1..]), Collect(pick, b));
    }
  }

  /** Local instants are converted; UTC and unspecified ones are taken as they are. */
  lemma InstantIsRead(clock: Clock, value: string, t: int)
    ensures clock.parse(value) == Some(Instant(t, Utc)) ==> clock.UtcOf(value) == Some(t)
    ensures clock.parse(value) == Some(Instant(t, Unspecified)) ==> clock.UtcOf(value) == Some(t)
    ensures clock.parse(value) == Some(Instant(t, Local)) ==> clock.UtcOf(value) == Some(clock.toUtc(t))
    ensures clock.parse(value) == None <==> clock.UtcOf(value) == None
  {
  }

  ghost predicate IsGreatest(clock: Clock, values: seq<string>, t: int) {
    && (exists v :: v in values && clock.UtcOf(v) == Some(t))
    && forall v | v in values :: clock.UtcOf(v).Some? && clock.UtcOf(v).value <= t
  }

  lemma {:induction false} GreatestMeans(clock: Clock, values: seq<string>, latest: Option<int>)
    ensures Greatest(clock, values, latest).Failure? <==> exists v :: v in values && clock.UtcOf(v).None?
    ensures Greatest(clock, values, latest).Failure? ==> Greatest(clock, values, latest).error == InvalidTimestamp
    ensures Greatest(clock, values, latest).Success? ==>
      var r := Greatest(clock, values, latest).value;
      && (r == latest || exists v :: v in values && clock.UtcOf(v) == r && r.Some?)
      && (latest.Some? ==> r.Some? && latest.value <= r.value)
      && (forall v | v in values :: r.Some? && clock.UtcOf(v).Some? && clock.UtcOf(v).value <= r.value)
  {
    if values != [] {
      var utc := clock.UtcOf(values[0]);
      assert values == [values[0]] + values[1..];
      if utc.Some? {
        GreatestMeans(clock, values[1..], if latest.None? || utc.value > latest.value then utc else latest);
      }
    }
  }

  /** Reading fails on an unreadable value before it misses a value, and otherwise gives the greatest. */
  lemma LatestMeans(clock: Clock, values: seq<string>, t: int)
    ensures LatestOf(clock, values) == Failure(InvalidTimestamp) <==> exists v :: v in values && clock.UtcOf(v).None?
    ensures LatestOf(clock, values) == Failure(NoTimestamp) <==> values == []
    ensures LatestOf(clock, values) == Success(t) <==> IsGreatest(clock, values, t)
  {
    GreatestMeans(clock, values, None);
    if values != [] {
      assert values[0] in values;
    }
  }

  method GetLatestArchiveEditUtc(clock: Clock, text: string) returns (r: Result<int, SummaryError>)
    ensures r == LatestEdit(clock, text)
  {
    r := GreatestPicked(clock, PickTimestamp, SplitLines(text));
  }

  method GreatestPicked(clock: Clock, pick: Picker, lines: seq<string>) returns (r: Result<int, SummaryError>)
    ensures r == LatestOf(clock, Collect(pick, lines))
  {
    var latest: Option<int> := None;
    assert lines[0..] == lines;
    for n := 0 to |lines|
      invariant Greatest(clock, Collect(pick, lines[n..]), latest) == Greatest(clock, Collect(pick, lines), None)
    {
      var value := pick(lines[n]);
      if value.Some? {
        assert Collect(pick, lines[n..])[1..] == Collect(pick, lines[n + 1..]);
        var utc := clock.UtcOf(value.value);
        if utc.None? {
          return Failure(InvalidTimestamp);
        }
        if latest.None? || utc.value > latest.value {
          latest := utc;
        }
      } else {
        assert Collect(pick, lines[n..]) == Collect(pick, lines[n + 1..]);
      }
    }
    assert lines[|lines|..] == [];
    return if latest.Some? then Success(latest.value) else Failure(NoTimestamp);
  }

  /*************** What a reader collects from printed lines ***************/

  /** What the lines after a field's first one would add. */
  function Spill(pick: Picker, field: string): seq<string> {
    Collect(pick, SplitLines(field)[1..])
  }

  /** A printed line gives its own value, if its tag is marked, and whatever its field spills. */
  function Given(pick: Picker, marks: set<Tag>, line: Line): seq<string> {
    (if line.tag in marks then [Trim(SplitLines(line.field)[0])] else []) + Spill(pick, line.field)
  }

  function AllGiven(pick: Picker, marks: set<Tag>, lines: seq<Line>): seq<string> {
    if lines == [] then [] else Given(pick, marks, lines[0]) + AllGiven(pick, marks, lines[1..])
  }

  /** A picker for lines that start with a marker does not look at a final carriage return. */
  ghost predicate IgnoresReturn(pick: Picker, cr: string) {
    pick("") == None && forall l: string :: pick(l + cr) == pick(l)
  }

  lemma CollectOne(pick: Picker, init: seq<string>, last: string)
    ensures Collect(pick, init + [last]) == Collect(pick, init) + Picked(pick, last)
  {
    CollectConcat(pick, init, [last]);
    assert [last][1..] == [];
  }

  lemma CollectReturned(pick: Picker, line: string, cr: string)
    requires IgnoresReturn(pick, cr) && '\n' !in cr
    ensures Collect(pick, SplitLines(line + cr)) == Collect(pick, SplitLines(line))
  {
    SplitWithSuffix(line, cr);
    SameWithReturn(pick, SplitLines(line), cr);
  }

  lemma SameWithReturn(pick: Picker, lines: seq<string>, cr: string)
    requires IgnoresReturn(pick, cr) && lines != []
    ensures Collect(pick, AddToLast(lines, cr)) == Collect(pick, lines)
  {
    var init, last := lines[..|lines| - 1], lines[|lines| - 1];
    CollectOne(pick, init, last + cr);
    CollectOne(pick, init, last);
    assert lines == init + [last];
    assert pick(last + cr) == pick(last);
  }

  predicate Takes(pick: Picker, marks: set<Tag>, start: string, tag: Tag, rest: string) {
    pick(start + rest) == if tag in marks then Some(Trim(rest)) else None
  }

  /** The picker takes exactly the lines whose labels are marked, whatever follows the label. */
  ghost predicate Understands(pick: Picker, marks: set<Tag>, key: Tag -> string) {
    && (forall tag: Tag :: OneLine(key(tag)))
    && (forall tag: Tag, rest: string :: Takes(pick, marks, key(tag), tag, rest))
  }

  lemma CollectLine(pick: Picker, marks: set<Tag>, key: Tag -> string, line: Line)
    requires Understands(pick, marks, key)
    ensures Collect(pick, SplitLines(key(line.tag) + line.field)) == Given(pick, marks, line)
  {
    assert OneLine(key(line.tag));
    SplitWithPrefix(key(line.tag), line.field);
    assert Takes(pick, marks, key(line.tag), line.tag, SplitLines(line.field)[0]);
  }

  lemma {:induction false} CollectPrinted(pick: Picker, marks: set<Tag>, key: Tag -> string, lines: seq<Line>,
                                          cr: string)
    requires Understands(pick, marks, key) && IgnoresReturn(pick, cr) && '\n' !in cr
    ensures Collect(pick, SplitLines(Printed(key, lines, cr))) == AllGiven(pick, marks, lines)
    decreases |lines|
  {
    if lines == [] {
      assert SplitLines("") == [""];
    } else {
      var line, rest := key(lines[0].tag) + lines[0].field, Printed(key, lines[1..], cr);
      SplitAtBreak(line + cr, rest);
      CollectConcat(pick, SplitLines(line + cr), SplitLines(rest));
      CollectReturned(pick, line, cr);
      CollectLine(pick, marks, key, lines[0]);
      CollectPrinted(pick, marks, key, lines[1..], cr);
    }
  }

  lemma OneLineSpillsNothing(pick: Picker, field: string)
    requires OneLine(field)
    ensures Spill(pick, field) == [] && SplitLines(field) == [field]
  {
    SplitPrefix(field, "");
  }

  /** A line whose key differs from the marker at some place is not picked. */
  lemma NotMarked(key: string, rest: string, marker: string, k: nat)
    requires k < |key| && k < |marker| && key[k] != marker[k]
    ensures !StartsWith(key + rest, marker)
  {
    assert (key + rest)[k] == key[k];
  }

  lemma Marked(marker: string, rest: string)
    ensures After(marker, marker + rest) == Some(Trim(rest))
  {
    assert (marker + rest)[..|marker|] == marker && (marker + rest)[|marker|..] == rest;
  }

  lemma AfterIgnoresReturn(marker: string, line: string)
    requires marker != "" && marker[|marker| - 1] != '\r'
    ensures After(marker, line + "\r") == After(marker, line)
      && StartsWith(line + "\r", marker) == StartsWith(line, marker)
  {
    if |marker| <= |line| {
      assert (line + "\r")[..|marker|] == line[..|marker|];
      assert (line + "\r")[|marker|..] == line[|marker|..] + "\r";
    } else if |marker| == |line| + 1 {
      assert (line + "\r")[..|marker|][|line|] == '\r';
    }
  }

  predicate IsReturn(cr: string) {
    cr == "" || cr == "\r"
  }

  predicate Differ(key: string, marker: string, i: nat) {
    OneLine(key) && i < |key| && i < |marker| && key[i] != marker[i]
  }

  predicate DiffersFromMarkers(key: string, fromId: nat, fromEdit: nat, fromDetected: nat) {
    Differ(key, ID, fromId) && Differ(key, EDIT, fromEdit) && Differ(key, DETECTED, fromDetected)
  }

  lemma HeaderLabelsDiffer()
    ensures DiffersFromMarkers(DATASET, 0, 0, 0) && DiffersFromMarkers(SPECIFICATION, 0, 0, 0)
    ensures DiffersFromMarkers(WORK_DATE, 0, 0, 0) && DiffersFromMarkers(FIRST, 0, 0, 0)
    ensures DiffersFromMarkers(LAST, 0, 2, 0) && DiffersFromMarkers(CHANGES, 0, 0, 0)
  {
  }

  lemma ChangeLabelsDiffer()
    ensures DiffersFromMarkers(CODE, 2, 0, 4) && DiffersFromMarkers(ATTRIBUTE, 2, 0, 4)
      && DiffersFromMarkers(DELETED, 2, 0, 6)
  {
  }

  lemma NotMarkedAtAll(key: string, rest: string, fromId: nat, fromEdit: nat, fromDetected: nat)
    requires DiffersFromMarkers(key, fromId, fromEdit, fromDetected)
    ensures OneLine(key) && PickId(key + rest) == None && PickTimestamp(key + rest) == None
  {
    NotMarked(key, rest, ID, fromId);
    NotMarked(key, rest, EDIT, fromEdit);
    NotMarked(key, rest, DETECTED, fromDetected);
  }

  lemma PickersIgnoreReturn(cr: string)
    requires IsReturn(cr)
    ensures IgnoresReturn(PickId, cr) && IgnoresReturn(PickTimestamp, cr)
  {
    forall l: string
      ensures PickId(l + cr) == PickId(l) && PickTimestamp(l + cr) == PickTimestamp(l)
    {
      if cr == "" {
        assert l + cr == l;
      } else {
        AfterIgnoresReturn(ID, l);
        AfterIgnoresReturn(EDIT, l);
        AfterIgnoresReturn(DETECTED, l);
      }
    }
  }

  const ID_MARKS: set<Tag> := {Id}
  const TIME_MARKS: set<Tag> := {Edit, Detected}

  lemma IdReadsItself(rest: string)
    ensures OneLine(ID) && PickId(ID + rest) == Some(Trim(rest)) && PickTimestamp(ID + rest) == None
  {
    Marked(ID, rest);
    NotMarked(ID, rest, EDIT, 0);
    NotMarked(ID, rest, DETECTED, 2);
  }

  lemma EditReadsItself(rest: string)
    ensures OneLine(EDIT) && PickId(EDIT + rest) == None && PickTimestamp(EDIT + rest) == Some(Trim(rest))
  {
    Marked(EDIT, rest);
    NotMarked(EDIT, rest, ID, 0);
  }

  lemma DetectedReadsItself(rest: string)
    ensures OneLine(DETECTED) && PickId(DETECTED + rest) == None && PickTimestamp(DETECTED + rest) == Some(Trim(rest))
  {
    Marked(DETECTED, rest);
    NotMarked(DETECTED, rest, ID, 2);
    NotMarked(DETECTED, rest, EDIT, 0);
  }

  lemma LabelIsUnderstood(tag: Tag, rest: string)
    ensures OneLine(Label(tag))
    ensures PickId(Label(tag) + rest) == if tag in ID_MARKS then Some(Trim(rest)) else None
    ensures PickTimestamp(Label(tag) + rest) == if tag in TIME_MARKS then Some(Trim(rest)) else None
  {
    HeaderLabelsDiffer();
    ChangeLabelsDiffer();
    match tag
    case Dataset => NotMarkedAtAll(DATASET, rest, 0, 0, 0);
    case Specification => NotMarkedAtAll(SPECIFICATION, rest, 0, 0, 0);
    case WorkDate => NotMarkedAtAll(WORK_DATE, rest, 0, 0, 0);
    case First => NotMarkedAtAll(FIRST, rest, 0, 0, 0);
    case Last => NotMarkedAtAll(LAST, rest, 0, 2, 0);
    case Changes => NotMarkedAtAll(CHANGES, rest, 0, 0, 0);
    case Code => NotMarkedAtAll(CODE, rest, 2, 0, 4);
    case Attribute => NotMarkedAtAll(ATTRIBUTE, rest, 2, 0, 4);
    case Deleted => NotMarkedAtAll(DELETED, rest, 2, 0, 6);
    case Id => IdReadsItself(rest);
    case Edit => EditReadsItself(rest);
    case Detected => DetectedReadsItself(rest);
  }

  lemma LabelsAreUnderstood()
    ensures Understands(PickId, ID_MARKS, Label) && Understands(PickTimestamp, TIME_MARKS, Label)
  {
    forall tag: Tag, rest: string
      ensures OneLine(Label(tag))
      ensures Takes(PickId, ID_MARKS, Label(tag), tag, rest) && Takes(PickTimestamp, TIME_MARKS, Label(tag), tag, rest)
    {
      LabelIsUnderstood(tag, rest);
    }
    UnderstandsBy(PickId, ID_MARKS, Label);
    UnderstandsBy(PickTimestamp, TIME_MARKS, Label);
  }

  lemma UnderstandsBy(pick: Picker, marks: set<Tag>, key: Tag -> string)
    requires forall tag: Tag :: OneLine(key(tag))
    requires forall tag: Tag, rest: string :: Takes(pick, marks, key(tag), tag, rest)
    ensures Understands(pick, marks, key)
  {
  }

  lemma IdsCollected(cr: string, lines: seq<Line>)
    requires IsReturn(cr)
    ensures Collect(PickId, SplitLines(Printed(Label, lines, cr))) == AllGiven(PickId, ID_MARKS, lines)
  {
    PickersIgnoreReturn(cr);
    LabelsAreUnderstood();
    CollectPrinted(PickId, ID_MARKS, Label, lines, cr);
  }

  lemma TimestampsCollected(cr: string, lines: seq<Line>)
    requires IsReturn(cr)
    ensures Collect(PickTimestamp, SplitLines(Printed(Label, lines, cr))) == AllGiven(PickTimestamp, TIME_MARKS, lines)
  {
    PickersIgnoreReturn(cr);
    LabelsAreUnderstood();
    CollectPrinted(PickTimestamp, TIME_MARKS, Label, lines, cr);
  }
}
