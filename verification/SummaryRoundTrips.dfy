/** What the two readers of the change summary give back, and the texts that lead them astray. */
module SummaryRoundTrips {
  import opened Wrappers
  import opened Text
  import opened ChangeSummary

  /*************** Quoting works line by line ***************/

  function Escaped(value: string): string {
    Escape(Escape(value, '\\'), '"')
  }

  function EscapeLines(lines: seq<string>, c: char): seq<string> {
    seq(|lines|, i requires 0 <= i < |lines| => Escape(lines[i], c))
  }

  lemma EscapeFirst(lines: seq<string>, first: char, c: char)
    requires lines != []
    ensures
      var escaped, rest := if first == c then ['\\', c] else [first], EscapeLines(lines, c);
      EscapeLines([[first] + lines[0]] + lines[1..], c) == [escaped + rest[0]] + rest[1..]
  {
    assert ([first] + lines[0])[1..] == lines[0];
  }

  lemma {:induction false} SplitEscape(s: string, c: char)
    requires c != '\n'
    ensures SplitLines(Escape(s, c)) == EscapeLines(SplitLines(s), c)
    decreases |s|
  {
    if s != "" {
      var rest := Escape(s[1..], c);
      SplitEscape(s[1..], c);
      if s[0] == '\n' {
        SplitPrefix("", rest);
        assert "" + "\n" + rest == Escape(s, c);
      } else {
        SplitWithPrefix(if s[0] == c then ['\\', c] else [s[0]], rest);
        EscapeFirst(SplitLines(s[1..]), s[0], c);
      }
    }
  }

  lemma Enclosed(lines: seq<string>, enclosed: seq<string>, quote: string)
    requires lines != [] && enclosed == [quote + AddToLast(lines, quote)[0]] + AddToLast(lines, quote)[1..]
    ensures |enclosed| == |lines|
    ensures forall i | 1 <= i < |lines| :: enclosed[i] == lines[i] + (if i == |lines| - 1 then quote else "")
  {
    var ended := AddToLast(lines, quote);
    forall i | 1 <= i < |lines|
      ensures enclosed[i] == lines[i] + (if i == |lines| - 1 then quote else "")
    {
      assert enclosed[i] == ended[1..][i - 1] == ended[i];
      assert lines[i] + "" == lines[i];
    }
  }

  /** Each line of a quoted text is the escaped line, between quotes at the two ends of the text. */
  lemma QuotedLines(value: string)
    ensures
      var lines, quoted := SplitLines(value), SplitLines(Quote(value));
      && |quoted| == |lines|
      && forall i | 1 <= i < |lines| :: quoted[i] == Escaped(lines[i]) + (if i == |lines| - 1 then "\"" else "")
  {
    SplitEscape(value, '\\');
    SplitEscape(Escape(value, '\\'), '"');
    SplitWithSuffix(Escaped(value), "\"");
    SplitWithPrefix("\"", Escaped(value) + "\"");
    assert Quote(value) == "\"" + (Escaped(value) + "\"");
    Enclosed(SplitLines(Escaped(value)), SplitLines(Quote(value)), "\"");
  }

  predicate Plain(s: string) {
    '\\' !in s && '"' !in s
  }

  lemma {:induction false} EscapeKeepsStart(line: string, c: char, marker: string)
    requires c !in marker && '\\' !in marker
    ensures StartsWith(Escape(line, c), marker) <==> StartsWith(line, marker)
    ensures StartsWith(line, marker) ==> Escape(line, c)[|marker|..] == Escape(line[|marker|..], c)
    decreases |marker|
  {
    if marker != "" && line != "" {
      var escaped := Escape(line, c);
      if line[0] == c {
        assert escaped[0] == '\\';
      } else if line[0] == marker[0] {
        EscapeKeepsStart(line[1..], c, marker[1..]);
        assert escaped == [line[0]] + Escape(line[1..], c);
        StartsOneBefore(line, marker);
        StartsOneBefore(escaped, marker);
      }
    }
  }

  lemma StartsOneBefore(s: string, marker: string)
    requires s != "" && marker != "" && s[0] == marker[0]
    ensures StartsWith(s, marker) <==> StartsWith(s[1..], marker[1..])
    ensures |marker| <= |s| ==> s[|marker|..] == s[1..][|marker| - 1..]
  {
    if |marker| <= |s| {
      assert s[..|marker|] == [s[0]] + s[1..][..|marker| - 1];
      assert marker == [marker[0]] + marker[1..];
    }
  }

  lemma SuffixKeepsStart(line: string, tail: string, marker: string)
    requires forall c | c in tail :: c !in marker
    ensures StartsWith(line + tail, marker) <==> StartsWith(line, marker)
    ensures StartsWith(line, marker) ==> (line + tail)[|marker|..] == line[|marker|..] + tail
  {
    if |marker| <= |line| {
      assert (line + tail)[..|marker|] == line[..|marker|];
    } else if |marker| <= |line + tail| {
      assert (line + tail)[..|marker|][|line|] == tail[0];
      assert tail[0] in tail;
    }
  }

  /** Quoting a line neither makes nor hides a marker, and leaves what follows it escaped. */
  lemma QuotingKeepsStart(line: string, tail: string, marker: string)
    requires Plain(marker) && (tail == "" || tail == "\"")
    ensures StartsWith(Escaped(line) + tail, marker) <==> StartsWith(line, marker)
    ensures StartsWith(line, marker) ==> (Escaped(line) + tail)[|marker|..] == Escaped(line[|marker|..]) + tail
  {
    EscapeKeepsStart(line, '\\', marker);
    EscapeKeepsStart(Escape(line, '\\'), '"', marker);
    SuffixKeepsStart(Escaped(line), tail, marker);
  }

  lemma {:induction false} PlainIsUnchanged(s: string, c: char)
    requires c !in s
    ensures Escape(s, c) == s
    decreases |s|
  {
    if s != "" {
      PlainIsUnchanged(s[1..], c);
    }
  }

  lemma {:induction false} EscapeKeepsChars(s: string, c: char, d: char)
    requires d in s
    ensures d in Escape(s, c)
    decreases |s|
  {
    if s[0] != d {
      EscapeKeepsChars(s[1..], c, d);
    }
  }

  lemma {:induction false} TrimKeepsSolid(s: string, c: char)
    requires c in s && !IsWhite(c)
    ensures c in Trim(s)
    decreases |s|
  {
    if IsWhite(s[|s| - 1]) {
      assert s == s[..|s| - 1] + [s[|s| - 1]];
      TrimKeepsSolid(s[..|s| - 1], c);
    } else if IsWhite(s[0]) {
      assert s == [s[0]] + s[1..];
      TrimKeepsSolid(s[1..], c);
    }
  }

  /** What follows a marker reads the same quoted or not while it is plain, and keeps its odd characters otherwise. */
  lemma QuotedRest(rest: string, tail: string)
    requires tail == "" || tail == "\""
    ensures tail == "" && Plain(rest) ==> Trim(Escaped(rest) + tail) == Trim(rest)
    ensures !Plain(rest) ==> !Plain(Trim(rest))
    ensures tail != "" || !Plain(rest) ==> !Plain(Trim(Escaped(rest) + tail))
  {
    if Plain(rest) {
      PlainIsUnchanged(rest, '\\');
      PlainIsUnchanged(rest, '"');
      assert rest + "" == rest;
    } else {
      var odd := if '\\' in rest then '\\' else '"';
      TrimKeepsSolid(rest, odd);
      EscapeKeepsChars(rest, '\\', odd);
      EscapeKeepsChars(Escape(rest, '\\'), '"', odd);
      TrimKeepsSolid(Escaped(rest) + tail, odd);
    }
    if tail != "" {
      TrimKeepsSolid(Escaped(rest) + tail, '"');
    }
  }

  /*************** The latest of several timestamps ***************/

  /** Reads as a UTC instant no later than a bound. */
  predicate ReadsBy(clock: Clock, value: string, bound: int) {
    clock.UtcOf(value).Some? && clock.UtcOf(value).value <= bound
  }

  predicate AllReadBy(clock: Clock, values: seq<string>, bound: int) {
    forall i | 0 <= i < |values| :: ReadsBy(clock, values[i], bound)
  }

  predicate AtMost(r: Result<Option<int>, SummaryError>, bound: int) {
    r.Success? && (r.value.Some? ==> r.value.value <= bound)
  }

  lemma {:induction false} GreatestBelow(clock: Clock, values: seq<string>, latest: Option<int>, bound: int)
    ensures AtMost(Greatest(clock, values, latest), bound) <==>
      AllReadBy(clock, values, bound) && AtMost(Success(latest), bound)
    decreases |values|
  {
    if values != [] {
      assert AllReadBy(clock, values, bound) <==>
        ReadsBy(clock, values[0], bound) && AllReadBy(clock, values[1..], bound) by {
        AllReadByTail(clock, values, bound);
      }
      var utc := clock.UtcOf(values[0]);
      if utc.Some? {
        GreatestBelow(clock, values[1..], if latest.None? || utc.value > latest.value then utc else latest, bound);
      }
    }
  }

  lemma AllReadByTail(clock: Clock, values: seq<string>, bound: int)
    requires values != []
    ensures AllReadBy(clock, values, bound) <==>
      ReadsBy(clock, values[0], bound) && AllReadBy(clock, values[1..], bound)
  {
    assert values == [values[0]] + values[1..];
    AllReadByConcat(clock, [values[0]], values[1..], bound);
    assert [values[0]][0] == values[0];
  }

  lemma {:induction false} GreatestReaches(clock: Clock, values: seq<string>, latest: Option<int>, i: nat, bound: int)
    requires (i < |values| && clock.UtcOf(values[i]) == Some(bound)) || (latest.Some? && latest.value >= bound)
    ensures Greatest(clock, values, latest).Success? ==>
      Greatest(clock, values, latest).value.Some? && Greatest(clock, values, latest).value.value >= bound
    decreases |values|
  {
    if values != [] {
      var utc := clock.UtcOf(values[0]);
      if utc.Some? {
        GreatestReaches(clock, values[1..], if latest.None? || utc.value > latest.value then utc else latest, if i > 0
          then i - 1 else 0, bound);
      }
    }
  }

  /** A value that is read is the latest exactly when every value is read and none is later. */
  lemma GreatestIs(clock: Clock, values: seq<string>, i: nat, bound: int)
    requires i < |values| && clock.UtcOf(values[i]) == Some(bound)
    ensures LatestOf(clock, values) == Success(bound) <==> AllReadBy(clock, values, bound)
  {
    GreatestBelow(clock, values, None, bound);
    GreatestReaches(clock, values, None, i, bound);
  }

  lemma {:induction false} LatestIsMaximum(changes: seq<ProductChange>)
    requires changes != []
    ensures forall c | c in changes :: c.detectedAt.ticks <= Latest(changes)
    ensures exists c | c in changes :: c.detectedAt.ticks == Latest(changes)
    decreases |changes|
  {
    var init, last := changes[..|changes| - 1], changes[|changes| - 1];
    assert changes == init + [last];
    if |changes| > 1 {
      LatestIsMaximum(init);
    }
  }
  lemma AllReadByConcat(clock: Clock, a: seq<string>, b: seq<string>, bound: int)
    ensures AllReadBy(clock, a + b, bound) <==> AllReadBy(clock, a, bound) && AllReadBy(clock, b, bound)
  {
    var all := a + b;
    assert forall i | 0 <= i < |a| :: all[i] == a[i];
    assert forall i | 0 <= i < |b| :: all[|a| + i] == b[i];
  }
  /*************** Texts that pretend to be lines ***************/

  /** A line break in the text is followed by something that looks like a marked line. */
  predicate LaterLineStarts(text: string, marker: string) {
    exists i | 1 <= i < |SplitLines(text)| :: StartsWith(SplitLines(text)[i], marker)
  }

  predicate IsTimeLine(line: string) {
    StartsWith(line, EDIT) || StartsWith(line, DETECTED)
  }

  function TimeOn(line: string): string
    requires IsTimeLine(line)
  {
    Trim(line[if StartsWith(line, EDIT) then |EDIT| else |DETECTED|..])
  }

  predicate LineReadsBy(clock: Clock, line: string, bound: int) {
    IsTimeLine(line) ==> ReadsBy(clock, TimeOn(line), bound)
  }

  /**
   * Every later line that looks like a timestamp's reads by the bound; in a quoted text the closing quote spoils the
   * last.
   */
  predicate LaterTimesReadBy(clock: Clock, text: string, quoted: bool, bound: int) {
    var lines := SplitLines(text);
    forall i | 1 <= i < |lines| ::
      LineReadsBy(clock, lines[i], bound) && (quoted && i == |lines| - 1 ==> !IsTimeLine(lines[i]))
  }

  lemma {:induction false} CollectNothing(pick: Picker, lines: seq<string>)
    ensures Collect(pick, lines) == [] <==> forall i | 0 <= i < |lines| :: pick(lines[i]).None?
    decreases |lines|
  {
    if lines != [] {
      CollectNothing(pick, lines[1..]);
      assert forall i | 0 < i < |lines| :: lines[i] == lines[1..][i - 1];
      assert forall i | 0 <= i < |lines| - 1 :: lines[1..][i] == lines[i + 1];
    }
  }

  lemma SpillsNothingIff(field: string)
    ensures Spill(PickId, field) == [] <==> !LaterLineStarts(field, ID)
  {
    var later := SplitLines(field)[1..];
    CollectNothing(PickId, later);
    assert forall i | 0 <= i < |later| :: later[i] == SplitLines(field)[i + 1];
    assert forall i | 1 <= i < |SplitLines(field)| :: SplitLines(field)[i] == later[i - 1];
  }

  lemma MarkersArePlain()
    ensures Plain(ID) && Plain(EDIT) && Plain(DETECTED)
  {
  }

  lemma QuotingKeepsIdLines(value: string)
    ensures LaterLineStarts(Quote(value), ID) <==> LaterLineStarts(value, ID)
  {
    var lines, quoted := SplitLines(value), SplitLines(Quote(value));
    QuotedLines(value);
    MarkersArePlain();
    forall i | 1 <= i < |lines|
      ensures StartsWith(quoted[i], ID) <==> StartsWith(lines[i], ID)
    {
      QuotingKeepsStart(lines[i], if i == |lines| - 1 then "\"" else "", ID);
    }
  }

  predicate PickReadsBy(clock: Clock, pick: Picker, line: string, bound: int) {
    pick(line).Some? ==> ReadsBy(clock, pick(line).value, bound)
  }

  lemma OneReadBy(clock: Clock, pick: Picker, line: string, bound: int)
    ensures AllReadBy(clock, Picked(pick, line), bound) <==> PickReadsBy(clock, pick, line, bound)
  {
    if pick(line).Some? {
      assert Picked(pick, line)[0] == pick(line).value;
    }
  }

  lemma {:induction false} CollectReadBy(clock: Clock, pick: Picker, lines: seq<string>, bound: int)
    ensures AllReadBy(clock, Collect(pick, lines), bound) <==>
      forall i | 0 <= i < |lines| :: PickReadsBy(clock, pick, lines[i], bound)
    decreases |lines|
  {
    if lines != [] {
      var rest := lines[1..];
      CollectReadBy(clock, pick, rest, bound);
      OneReadBy(clock, pick, lines[0], bound);
      AllReadByConcat(clock, Picked(pick, lines[0]), Collect(pick, rest), bound);
      assert forall i | 0 < i < |lines| :: lines[i] == rest[i - 1];
      assert forall i | 0 <= i < |rest| :: rest[i] == lines[i + 1];
    }
  }

  lemma PickedTime(line: string)
    ensures PickTimestamp(line) == if IsTimeLine(line) then Some(TimeOn(line)) else None
  {
  }

  lemma PickedReadsBy(clock: Clock, line: string, bound: int)
    ensures PickReadsBy(clock, PickTimestamp, line, bound) == LineReadsBy(clock, line, bound)
  {
    PickedTime(line);
  }

  predicate LinesReadBy(clock: Clock, lines: seq<string>, bound: int) {
    forall i | 0 <= i < |lines| :: LineReadsBy(clock, lines[i], bound)
  }

  lemma CollectedTimesReadBy(clock: Clock, lines: seq<string>, bound: int)
    ensures AllReadBy(clock, Collect(PickTimestamp, lines), bound) <==> LinesReadBy(clock, lines, bound)
  {
    CollectReadBy(clock, PickTimestamp, lines, bound);
    forall i | 0 <= i < |lines|
      ensures PickReadsBy(clock, PickTimestamp, lines[i], bound) == LineReadsBy(clock, lines[i], bound)
    {
      PickedReadsBy(clock, lines[i], bound);
    }
  }

  lemma LaterLinesReadBy(clock: Clock, lines: seq<string>, bound: int)
    requires lines != []
    ensures LinesReadBy(clock, lines[1..], bound) <==>
      forall i | 1 <= i < |lines| :: LineReadsBy(clock, lines[i], bound)
  {
    var later := lines[1..];
    if LinesReadBy(clock, later, bound) {
      forall i | 1 <= i < |lines|
        ensures LineReadsBy(clock, lines[i], bound)
      {
        assert lines[i] == later[i - 1];
      }
    }
  }

  lemma SpilledTimesReadBy(clock: Clock, field: string, bound: int)
    ensures AllReadBy(clock, Spill(PickTimestamp, field), bound) <==>
      forall i | 1 <= i < |SplitLines(field)| :: LineReadsBy(clock, SplitLines(field)[i], bound)
  {
    assert Spill(PickTimestamp, field) == Collect(PickTimestamp, SplitLines(field)[1..]);
    CollectedTimesReadBy(clock, SplitLines(field)[1..], bound);
    assert AllReadBy(clock, Spill(PickTimestamp, field), bound) <==> LinesReadBy(clock, SplitLines(field)[1..], bound);
    LaterLinesReadBy(clock, SplitLines(field), bound);
  }

  lemma QuotedTime(clock: Clock, line: string, tail: string, bound: int)
    requires clock.ReadsPlain() && (tail == "" || tail == "\"")
    ensures LineReadsBy(clock, Escaped(line) + tail, bound) <==>
      LineReadsBy(clock, line, bound) && (tail != "" ==> !IsTimeLine(line))
  {
    MarkersArePlain();
    QuotingKeepsStart(line, tail, EDIT);
    QuotingKeepsStart(line, tail, DETECTED);
    if IsTimeLine(line) {
      QuotedRest(line[if StartsWith(line, EDIT) then |EDIT| else |DETECTED|..], tail);
    }
  }

  lemma QuotedTimesReadBy(clock: Clock, value: string, bound: int)
    requires clock.ReadsPlain()
    ensures AllReadBy(clock, Spill(PickTimestamp, Quote(value)), bound) <==> LaterTimesReadBy(clock, value, true, bound)
  {
    var lines, quoted := SplitLines(value), SplitLines(Quote(value));
    SpilledTimesReadBy(clock, Quote(value), bound);
    QuotedLines(value);
    forall i | 1 <= i < |lines|
      ensures LineReadsBy(clock, quoted[i], bound) <==>
        LineReadsBy(clock, lines[i], bound) && (i == |lines| - 1 ==> !IsTimeLine(lines[i]))
    {
      QuotedTime(clock, lines[i], if i == |lines| - 1 then "\"" else "", bound);
    }
  }

  lemma BareTimesReadBy(clock: Clock, value: string, bound: int)
    ensures AllReadBy(clock, Spill(PickTimestamp, value), bound) <==> LaterTimesReadBy(clock, value, false, bound)
  {
    SpilledTimesReadBy(clock, value, bound);
    var lines := SplitLines(value);
    assert LaterTimesReadBy(clock, value, false, bound) <==>
      forall i | 1 <= i < |lines| :: LineReadsBy(clock, lines[i], bound);
  }

  /*************** Judging a summary by its texts ***************/

  predicate All(ok: Line -> bool, lines: seq<Line>) {
    forall line | line in lines :: ok(line)
  }

  lemma AllConcat(ok: Line -> bool, a: seq<Line>, b: seq<Line>)
    ensures All(ok, a + b) <==> All(ok, a) && All(ok, b)
  {
    assert forall line | line in a :: line in a + b;
    assert forall line | line in b :: line in a + b;
  }

  lemma AllOfHeader(ok: Line -> bool, clock: Clock, h: Header, edit: string, listed: string)
    ensures All(ok, HeaderLines(clock, h, edit, listed)) <==>
      && ok(Line(Dataset, Quote(h.datasetName))) && ok(Line(Specification, h.productSpecification))
      && ok(Line(WorkDate, h.workDate)) && ok(Line(First, clock.write(h.first.ticks)))
      && ok(Line(Last, clock.write(h.last.ticks))) && ok(Line(Edit, edit)) && ok(Line(Changes, listed))
  {
    var lines := HeaderLines(clock, h, edit, listed);
    if All(ok, lines) {
      assert lines[0] in lines && lines[1] in lines && lines[2] in lines && lines[3] in lines;
      assert lines[4] in lines && lines[5] in lines && lines[6] in lines;
    }
  }

  lemma AllOfChange(ok: Line -> bool, clock: Clock, c: ProductChange)
    ensures All(ok, ChangeLines(clock, c)) <==>
      && ok(Line(Id, c.featureId)) && ok(Line(Code, Quote(c.featureCode)))
      && ok(Line(Attribute, Quote(c.attributePath)))
      && ok(Line(Deleted, if c.deleted then "true" else "false")) && ok(Line(Detected, clock.write(c.detectedAt.ticks)))
  {
    var lines := ChangeLines(clock, c);
    if All(ok, lines) {
      assert lines[0] in lines && lines[1] in lines && lines[2] in lines && lines[3] in lines && lines[4] in lines;
    }
  }

  /** What is right for an identifier, a text printed as it is, and a quoted one. */
  datatype Judge = Judge(id: string -> bool, bare: string -> bool, quoted: string -> bool)

  ghost predicate QuotesAs(bare: string -> bool, quoted: string -> bool) {
    forall value: string {:trigger Quote(value)} :: bare(Quote(value)) == quoted(value)
  }

  /** A property of printed lines that depends on the text alone and is never at odds with a text of one line. */
  ghost predicate Follows(ok: Line -> bool, judge: Judge) {
    && (forall tag: Tag, value: string | tag != Id :: ok(Line(tag, value)) == judge.bare(value))
    && (forall value: string :: ok(Line(Id, value)) == judge.id(value))
    && QuotesAs(judge.bare, judge.quoted)
    && (forall value: string | OneLine(value) :: judge.bare(value))
  }

  predicate HeaderIsFine(judge: Judge, h: Header) {
    judge.quoted(h.datasetName) && judge.bare(h.productSpecification) && judge.bare(h.workDate)
  }

  predicate ChangeIsFine(judge: Judge, c: ProductChange) {
    judge.id(c.featureId) && judge.quoted(c.featureCode) && judge.quoted(c.attributePath)
  }

  lemma HeaderLinesAreFine(ok: Line -> bool, judge: Judge, clock: Clock, h: Header, latest: int)
    requires clock.RoundTrips() && Follows(ok, judge)
    ensures All(ok, HeaderLines(clock, h, clock.write(latest), "")) <==> HeaderIsFine(judge, h)
  {
    assert OneLine(clock.write(h.first.ticks)) && OneLine(clock.write(h.last.ticks)) && OneLine(clock.write(latest))
      && OneLine("");
    AllOfHeader(ok, clock, h, clock.write(latest), "");
  }

  lemma ChangeLinesAreFine(ok: Line -> bool, judge: Judge, clock: Clock, c: ProductChange)
    requires clock.RoundTrips() && Follows(ok, judge)
    ensures All(ok, ChangeLines(clock, c)) <==> ChangeIsFine(judge, c)
  {
    assert OneLine(clock.write(c.detectedAt.ticks)) && OneLine(if c.deleted then "true" else "false");
    AllOfChange(ok, clock, c);
  }

  lemma FineOneMore(judge: Judge, changes: seq<ProductChange>)
    requires changes != []
    ensures (forall c | c in changes :: ChangeIsFine(judge, c)) <==>
      (forall c | c in changes[..|changes| - 1] :: ChangeIsFine(judge, c))
      && ChangeIsFine(judge, changes[|changes| - 1])
  {
    assert changes == changes[..|changes| - 1] + [changes[|changes| - 1]];
  }

  lemma {:induction false} AllChangeLinesAreFine(ok: Line -> bool, judge: Judge, clock: Clock,
                                                 changes: seq<ProductChange>)
    requires clock.RoundTrips() && Follows(ok, judge)
    ensures All(ok, AllChangeLines(clock, changes)) <==> forall c | c in changes :: ChangeIsFine(judge, c)
    decreases |changes|
  {
    if changes != [] {
      var init, last := changes[..|changes| - 1], changes[|changes| - 1];
      AllChangeLinesAreFine(ok, judge, clock, init);
      AllConcat(ok, AllChangeLines(clock, init), ChangeLines(clock, last));
      ChangeLinesAreFine(ok, judge, clock, last);
      FineOneMore(judge, changes);
    }
  }

  /** Removing duplicates and sorting loses no change and invents none, up to the kind of its time. */
  lemma ObservedKeepsKeys(changes: seq<ProductChange>)
    ensures forall c | c in Observed(changes) :: c in changes
    ensures forall c | c in changes :: exists d :: d in Observed(changes) && Key(d) == Key(c)
  {
    var observed, distinct := Observed(changes), Distinct(changes);
    DistinctKeepsEachChangeOnce(changes);
    SortPermutes(distinct);
    forall c | c in observed
      ensures c in changes
    {
      assert c in multiset(distinct);
    }
    forall c | c in changes
      ensures exists d :: d in observed && Key(d) == Key(c)
    {
      assert Key(c) in Keys(changes);
      var d :| d in distinct && Key(d) == Key(c);
      assert d in multiset(observed);
    }
  }

  lemma ObservedAreFineIff(judge: Judge, changes: seq<ProductChange>)
    ensures (forall c | c in Observed(changes) :: ChangeIsFine(judge, c)) <==>
      (forall c | c in changes :: ChangeIsFine(judge, c))
  {
    ObservedKeepsKeys(changes);
    if forall c | c in Observed(changes) :: ChangeIsFine(judge, c) {
      forall c | c in changes
        ensures ChangeIsFine(judge, c)
      {
        var d :| d in Observed(changes) && Key(d) == Key(c);
      }
    }
  }

  /** Every printed line is fine exactly when the texts that were handed in are. */
  lemma SummaryIsFine(ok: Line -> bool, judge: Judge, clock: Clock, h: Header, changes: seq<ProductChange>)
    requires clock.RoundTrips() && Follows(ok, judge) && Observed(changes) != []
    ensures All(ok, SummaryLines(clock, h, Observed(changes))) <==>
      HeaderIsFine(judge, h) && forall c | c in changes :: ChangeIsFine(judge, c)
  {
    var observed := Observed(changes);
    HeaderLinesAreFine(ok, judge, clock, h, Latest(observed));
    AllChangeLinesAreFine(ok, judge, clock, observed);
    AllConcat(ok, HeaderLines(clock, h, clock.write(Latest(observed)), ""), AllChangeLines(clock, observed));
    ObservedAreFineIff(judge, changes);
  }

  /*************** Feature identifiers come back ***************/

  /** What the identifier lines are meant to say. */
  function Meant(marks: set<Tag>, lines: seq<Line>): seq<string> {
    if lines == [] then [] else (if lines[0].tag in marks then [lines[0].field] else []) + Meant(marks, lines[1..])
  }

  /** A marked field is one trimmed line, and no field prints further lines that the reader picks. */
  predicate ReadsBack(pick: Picker, marks: set<Tag>, line: Line) {
    Spill(pick, line.field) == [] && (line.tag in marks ==> OneLine(line.field) && Trim(line.field) == line.field)
  }

  predicate AllReadBack(pick: Picker, marks: set<Tag>, lines: seq<Line>) {
    forall line | line in lines :: ReadsBack(pick, marks, line)
  }

  lemma GivenAsMeant(pick: Picker, marks: set<Tag>, line: Line)
    ensures Given(pick, marks, line) == (if line.tag in marks then [line.field] else []) <==>
      ReadsBack(pick, marks, line)
    ensures |Given(pick, marks, line)| >= if line.tag in marks then 1 else 0
  {
    var first := SplitLines(line.field)[0];
    assert first in SplitLines(line.field);
    if OneLine(line.field) {
      OneLineSpillsNothing(pick, line.field);
    }
    if line.tag in marks && Given(pick, marks, line) == [line.field] {
      assert Given(pick, marks, line)[0] == Trim(first) == line.field;
      assert |Given(pick, marks, line)| == 1;
    }
  }

  lemma {:induction false} AllGivenAsMeant(pick: Picker, marks: set<Tag>, lines: seq<Line>)
    ensures AllGiven(pick, marks, lines) == Meant(marks, lines) <==> AllReadBack(pick, marks, lines)
    ensures |AllGiven(pick, marks, lines)| >= |Meant(marks, lines)|
    decreases |lines|
  {
    if lines != [] {
      var own := if lines[0].tag in marks then [lines[0].field] else [];
      var given, rest := Given(pick, marks, lines[0]), AllGiven(pick, marks, lines[1..]);
      AllGivenAsMeant(pick, marks, lines[1..]);
      GivenAsMeant(pick, marks, lines[0]);
      assert lines == [lines[0]] + lines[1..];
      if given + rest == own + Meant(marks, lines[1..]) {
        assert |given| == |own|;
        assert given == (given + rest)[..|own|] == own;
        assert rest == (given + rest)[|own|..] == Meant(marks, lines[1..]);
      }
    }
  }

  function FeatureIds(changes: seq<ProductChange>): seq<string> {
    if changes == [] then [] else FeatureIds(changes[..|changes| - 1]) + [changes[|changes| - 1].featureId]
  }

  lemma {:induction false} MeantConcat(marks: set<Tag>, a: seq<Line>, b: seq<Line>)
    ensures Meant(marks, a + b) == Meant(marks, a) + Meant(marks, b)
    decreases |a|
  {
    if a == [] {
      assert a + b == b;
    } else {
      assert (a + b)[1..] == a[1..] + b;
      MeantConcat(marks, a[1..], b);
    }
  }

  lemma {:induction false} UnmarkedMeanNothing(marks: set<Tag>, lines: seq<Line>)
    requires forall line | line in lines :: line.tag !in marks
    ensures Meant(marks, lines) == []
    decreases |lines|
  {
    if lines != [] {
      UnmarkedMeanNothing(marks, lines[1..]);
    }
  }

  lemma ChangeMeansItsId(clock: Clock, c: ProductChange)
    ensures Meant(ID_MARKS, ChangeLines(clock, c)) == [c.featureId]
  {
    UnmarkedMeanNothing(ID_MARKS, ChangeLines(clock, c)[1..]);
  }

  lemma {:induction false} ChangesMeanTheirIds(clock: Clock, changes: seq<ProductChange>)
    ensures Meant(ID_MARKS, AllChangeLines(clock, changes)) == FeatureIds(changes)
    decreases |changes|
  {
    if changes != [] {
      var init, last := changes[..|changes| - 1], changes[|changes| - 1];
      ChangesMeanTheirIds(clock, init);
      MeantConcat(ID_MARKS, AllChangeLines(clock, init), ChangeLines(clock, last));
      ChangeMeansItsId(clock, last);
    }
  }
  lemma SummaryMeans(clock: Clock, h: Header, observed: seq<ProductChange>)
    requires observed != []
    ensures Meant(ID_MARKS, SummaryLines(clock, h, observed)) == FeatureIds(observed)
  {
    var header := HeaderLines(clock, h, clock.write(Latest(observed)), "");
    MeantConcat(ID_MARKS, header, AllChangeLines(clock, observed));
    UnmarkedMeanNothing(ID_MARKS, header);
    ChangesMeanTheirIds(clock, observed);
    assert [] + FeatureIds(observed) == FeatureIds(observed);
  }

  lemma SummaryMeansItsIds(clock: Clock, pick: Picker, h: Header, observed: seq<ProductChange>)
    requires observed != []
    ensures
      var lines := SummaryLines(clock, h, observed);
      AllGiven(pick, ID_MARKS, lines) == FeatureIds(observed) <==> AllReadBack(pick, ID_MARKS, lines)
  {
    AllGivenAsMeant(pick, ID_MARKS, SummaryLines(clock, h, observed));
    SummaryMeans(clock, h, observed);
  }
  predicate IsCleanText(value: string) {
    !LaterLineStarts(value, ID)
  }

  predicate IsCleanId(value: string) {
    OneLine(value) && Trim(value) == value
  }

  predicate HeaderIsClean(h: Header) {
    IsCleanText(h.datasetName) && IsCleanText(h.productSpecification) && IsCleanText(h.workDate)
  }

  predicate IdIsClean(c: ProductChange) {
    IsCleanId(c.featureId) && IsCleanText(c.featureCode) && IsCleanText(c.attributePath)
  }

  predicate IdLineReadsBack(line: Line) {
    ReadsBack(PickId, ID_MARKS, line)
  }

  lemma BareTextReadsBack(tag: Tag, value: string)
    ensures tag != Id ==> IdLineReadsBack(Line(tag, value)) == IsCleanText(value)
    ensures IdLineReadsBack(Line(Id, value)) == IsCleanId(value)
    ensures OneLine(value) ==> IsCleanText(value)
    ensures IsCleanText(Quote(value)) == IsCleanText(value)
  {
    SpillsNothingIff(value);
    QuotingKeepsIdLines(value);
    if OneLine(value) {
      OneLineSpillsNothing(PickId, value);
    }
  }

  lemma CleanTextQuotes()
    ensures QuotesAs(IsCleanText, IsCleanText)
  {
    var text: string -> bool := IsCleanText;
    forall value: string {:trigger Quote(value)}
      ensures text(Quote(value)) == text(value)
    {
      BareTextReadsBack(Code, value);
    }
  }

  lemma IdsFollowJudge()
    ensures Follows(IdLineReadsBack, Judge(IsCleanId, IsCleanText, IsCleanText))
  {
    var ok: Line -> bool, id: string -> bool, text: string -> bool := IdLineReadsBack, IsCleanId, IsCleanText;
    forall tag: Tag, value: string
      ensures tag != Id ==> ok(Line(tag, value)) == text(value)
      ensures ok(Line(Id, value)) == id(value)
    {
      BareTextReadsBack(tag, value);
    }
    forall value: string | OneLine(value)
      ensures text(value)
    {
      BareTextReadsBack(Code, value);
    }
    CleanTextQuotes();
  }

  lemma SummaryReadsBackIff(clock: Clock, h: Header, changes: seq<ProductChange>)
    requires clock.RoundTrips() && Observed(changes) != []
    ensures AllReadBack(PickId, ID_MARKS, SummaryLines(clock, h, Observed(changes))) <==>
      HeaderIsClean(h) && forall c | c in changes :: IdIsClean(c)
  {
    IdsFollowJudge();
    SummaryIsFine(IdLineReadsBack, Judge(IsCleanId, IsCleanText, IsCleanText), clock, h, changes);
    AllReadBackIff(SummaryLines(clock, h, Observed(changes)));
  }

  lemma AllReadBackIff(lines: seq<Line>)
    ensures AllReadBack(PickId, ID_MARKS, lines) <==> All(IdLineReadsBack, lines)
  {
    var pick: Picker := PickId;
    forall line: Line
      ensures IdLineReadsBack(line) == ReadsBack(pick, ID_MARKS, line)
    {
    }
  }

  /**
   * Printing and reading back gives the identifiers of the sorted distinct changes in order, exactly when every
   * identifier is one trimmed line and no line break in a free text is followed by an identifier's marker.
   */
  lemma FeatureIdsRoundTripIff(clock: Clock, cr: string, h: Header, changes: seq<ProductChange>)
    requires clock.RoundTrips() && IsReturn(cr) && CanPrint(h, changes)
    ensures Serialized(clock, cr, h, changes).Success?
    ensures ReadSummaryFeatureIds(Serialized(clock, cr, h, changes).value) == FeatureIds(Observed(changes)) <==>
      HeaderIsClean(h) && forall c | c in changes :: IdIsClean(c)
  {
    IdsCollected(cr, SummaryLines(clock, h, Observed(changes)));
    SummaryMeansItsIds(clock, PickId, h, Observed(changes));
    SummaryReadsBackIff(clock, h, changes);
  }

  predicate IsOneLineChange(c: ProductChange) {
    OneLine(c.featureId) && OneLine(c.featureCode) && OneLine(c.attributePath)
  }

  predicate AllOneLine(h: Header, changes: seq<ProductChange>) {
    && OneLine(h.datasetName) && OneLine(h.productSpecification) && OneLine(h.workDate)
    && forall c | c in changes :: IsOneLineChange(c)
  }

  lemma UtcChangesPrint(h: Header, changes: seq<ProductChange>)
    requires changes != [] && AllUtc(h, changes)
    ensures CanPrint(h, changes)
  {
    ObservedKeepsKeys(changes);
    assert changes[0] in changes;
  }

  /** Without line breaks in the texts every summary of trimmed identifiers comes back. */
  lemma FeatureIdsRoundTrip(clock: Clock, cr: string, h: Header, changes: seq<ProductChange>)
    requires clock.RoundTrips() && IsReturn(cr) && changes != [] && AllUtc(h, changes)
    requires AllOneLine(h, changes) && forall c | c in changes :: Trim(c.featureId) == c.featureId
    ensures Serialized(clock, cr, h, changes).Success?
    ensures ReadSummaryFeatureIds(Serialized(clock, cr, h, changes).value) == FeatureIds(Observed(changes))
  {
    UtcChangesPrint(h, changes);
    BareTextReadsBack(Dataset, h.datasetName);
    BareTextReadsBack(Specification, h.productSpecification);
    BareTextReadsBack(WorkDate, h.workDate);
    forall c | c in changes
      ensures IdIsClean(c)
    {
      assert IsOneLineChange(c);
      BareTextReadsBack(Code, c.featureCode);
      BareTextReadsBack(Attribute, c.attributePath);
    }
    FeatureIdsRoundTripIff(clock, cr, h, changes);
  }

  /** The line that follows a line break, whatever surrounds it. */
  lemma LineAfterBreak(p: string, marker: string, rest: string)
    requires OneLine(marker)
    ensures
      var lines := SplitLines(p + "\n" + (marker + rest));
      var i := |SplitLines(p)|;
      && |lines| == i + |SplitLines(rest)| && lines[i] == marker + SplitLines(rest)[0]
  {
    SplitAtBreak(p, marker + rest);
    SplitWithPrefix(marker, rest);
  }

  lemma MarkerStarts(marker: string, rest: string)
    ensures StartsWith(marker + rest, marker) && (marker + rest)[|marker|..] == rest
  {
  }

  /** One attribute path with a line break before the marker makes the reader return other identifiers. */
  lemma LineBreakForgesAnId(clock: Clock, cr: string, h: Header, changes: seq<ProductChange>, c: ProductChange,
                            p: string, forged: string)
    requires clock.RoundTrips() && IsReturn(cr) && CanPrint(h, changes)
    requires c in changes && c.attributePath == p + "\n" + (ID + forged)
    ensures ReadSummaryFeatureIds(Serialized(clock, cr, h, changes).value) != FeatureIds(Observed(changes))
  {
    var lines := SplitLines(c.attributePath);
    IdReadsItself("");
    LineAfterBreak(p, ID, forged);
    MarkerStarts(ID, SplitLines(forged)[0]);
    assert StartsWith(lines[|SplitLines(p)|], ID);
    assert !IdIsClean(c);
    FeatureIdsRoundTripIff(clock, cr, h, changes);
  }

  /*************** The latest edit comes back ***************/

  /** Every timestamp that a field spills is readable and no later than the bound. */
  predicate NothingLater(clock: Clock, pick: Picker, lines: seq<Line>, bound: int) {
    forall line | line in lines :: AllReadBy(clock, Spill(pick, line.field), bound)
  }

  lemma {:induction false} AllGivenReadBy(clock: Clock, pick: Picker, marks: set<Tag>, lines: seq<Line>, bound: int)
    requires forall line | line in lines && line.tag in marks :: ReadsBy(clock, Trim(SplitLines(line.field)[0]), bound)
    ensures AllReadBy(clock, AllGiven(pick, marks, lines), bound) <==> NothingLater(clock, pick, lines, bound)
    decreases |lines|
  {
    if lines != [] {
      var own := if lines[0].tag in marks then [Trim(SplitLines(lines[0].field)[0])] else [];
      AllGivenReadBy(clock, pick, marks, lines[1..], bound);
      AllReadByConcat(clock, own, Spill(pick, lines[0].field), bound);
      AllReadByConcat(clock, Given(pick, marks, lines[0]), AllGiven(pick, marks, lines[1..]), bound);
      assert lines == [lines[0]] + lines[1..];
    }
  }

  lemma {:induction false} GivenIsAmong(pick: Picker, marks: set<Tag>, lines: seq<Line>, i: nat)
    requires i < |lines| && lines[i].tag in marks
    ensures Trim(SplitLines(lines[i].field)[0]) in AllGiven(pick, marks, lines)
    decreases |lines|
  {
    if i > 0 {
      GivenIsAmong(pick, marks, lines[1..], i - 1);
    } else {
      assert Given(pick, marks, lines[0])[0] == Trim(SplitLines(lines[0].field)[0]);
    }
  }

  lemma PrintedInstant(clock: Clock, pick: Picker, t: int)
    requires clock.RoundTrips()
    ensures Trim(SplitLines(clock.write(t))[0]) == clock.write(t) && clock.UtcOf(clock.write(t)) == Some(t)
  {
    assert clock.parse(clock.write(t)) == Some(Instant(t, Utc)) && OneLine(clock.write(t));
    OneLineSpillsNothing(pick, clock.write(t));
  }

  predicate ShowsBy(clock: Clock, bound: int, line: Line) {
    line.tag in TIME_MARKS ==> ReadsBy(clock, Trim(SplitLines(line.field)[0]), bound)
  }

  lemma ChangeTimeReadsBy(clock: Clock, pick: Picker, c: ProductChange, bound: int)
    requires clock.RoundTrips() && c.detectedAt.ticks <= bound
    ensures forall line | line in ChangeLines(clock, c) :: ShowsBy(clock, bound, line)
  {
    PrintedInstant(clock, pick, c.detectedAt.ticks);
    assert ShowsBy(clock, bound, Line(Detected, clock.write(c.detectedAt.ticks)));
  }

  lemma {:induction false} ChangeTimesReadBy(clock: Clock, pick: Picker, changes: seq<ProductChange>, bound: int)
    requires clock.RoundTrips() && forall c | c in changes :: c.detectedAt.ticks <= bound
    ensures forall line | line in AllChangeLines(clock, changes) :: ShowsBy(clock, bound, line)
    decreases |changes|
  {
    if changes != [] {
      var init, last := changes[..|changes| - 1], changes[|changes| - 1];
      assert changes == init + [last];
      ChangeTimesReadBy(clock, pick, init, bound);
      ChangeTimeReadsBy(clock, pick, last, bound);
    }
  }

  lemma LinesTimesReadBy(clock: Clock, pick: Picker, lines: seq<Line>, i: nat, m: int)
    requires clock.RoundTrips() && i < |lines| && lines[i] == Line(Edit, clock.write(m))
    requires forall line | line in lines :: ShowsBy(clock, m, line)
    ensures LatestOf(clock, AllGiven(pick, TIME_MARKS, lines)) == Success(m) <==>
      NothingLater(clock, pick, lines, m)
  {
    AllGivenReadBy(clock, pick, TIME_MARKS, lines, m);
    PrintedInstant(clock, pick, m);
    GivenIsAmong(pick, TIME_MARKS, lines, i);
    var values := AllGiven(pick, TIME_MARKS, lines);
    var j :| 0 <= j < |values| && values[j] == clock.write(m);
    GreatestIs(clock, values, j, m);
  }

  lemma SummaryTimesReadBy(clock: Clock, pick: Picker, h: Header, observed: seq<ProductChange>)
    requires clock.RoundTrips() && observed != []
    ensures
      var lines, latest := SummaryLines(clock, h, observed), Latest(observed);
      LatestOf(clock, AllGiven(pick, TIME_MARKS, lines)) == Success(latest) <==>
        NothingLater(clock, pick, lines, latest)
  {
    PrintedTimesReadBy(clock, pick, h, observed);
    LinesTimesReadBy(clock, pick, SummaryLines(clock, h, observed), 5, Latest(observed));
  }

  lemma HeaderTimeReadsBy(clock: Clock, pick: Picker, h: Header, m: int)
    requires clock.RoundTrips()
    ensures var header := HeaderLines(clock, h, clock.write(m), "");
      && header[5] == Line(Edit, clock.write(m))
      && forall line | line in header :: ShowsBy(clock, m, line)
  {
    var header := HeaderLines(clock, h, clock.write(m), "");
    PrintedInstant(clock, pick, m);
    forall line | line in header && line.tag in TIME_MARKS
      ensures line == Line(Edit, clock.write(m))
    {
    }
  }

  lemma PrintedTimesReadBy(clock: Clock, pick: Picker, h: Header, observed: seq<ProductChange>)
    requires clock.RoundTrips() && observed != []
    ensures var lines := SummaryLines(clock, h, observed);
      && |lines| > 5 && lines[5] == Line(Edit, clock.write(Latest(observed)))
      && forall line | line in lines :: ShowsBy(clock, Latest(observed), line)
  {
    LatestIsMaximum(observed);
    ChangeTimesReadBy(clock, pick, observed, Latest(observed));
    HeaderTimeReadsBy(clock, pick, h, Latest(observed));
  }

  lemma {:induction false} FailureIsUnreadable(clock: Clock, values: seq<string>, latest: Option<int>)
    ensures Greatest(clock, values, latest).Failure? ==> Greatest(clock, values, latest).error == InvalidTimestamp
    decreases |values|
  {
    if values != [] {
      var utc := clock.UtcOf(values[0]);
      FailureIsUnreadable(clock, values[1..], if latest.None? || (utc.Some? && utc.value > latest.value) then utc
        else latest);
    }
  }

  lemma UnreadableFails(clock: Clock, values: seq<string>, i: nat)
    requires i < |values| && clock.UtcOf(values[i]) == None
    ensures LatestOf(clock, values) == Failure(InvalidTimestamp)
  {
    var r := Greatest(clock, values, None);
    var bound := if r.Success? && r.value.Some? then r.value.value else 0;
    GreatestBelow(clock, values, None, bound);
    assert !ReadsBy(clock, values[i], bound);
    FailureIsUnreadable(clock, values, None);
  }
  /** What the clock reads from a text that is printed as it is, and from a quoted one, is no later than the bound. */
  predicate BareReadsBy(clock: Clock, bound: int, value: string) {
    LaterTimesReadBy(clock, value, false, bound)
  }

  predicate QuotedReadsBy(clock: Clock, bound: int, value: string) {
    LaterTimesReadBy(clock, value, true, bound)
  }

  predicate HeaderTimesReadBy(clock: Clock, h: Header, bound: int) {
    && QuotedReadsBy(clock, bound, h.datasetName)
    && BareReadsBy(clock, bound, h.productSpecification) && BareReadsBy(clock, bound, h.workDate)
  }

  predicate TimesReadBy(clock: Clock, c: ProductChange, bound: int) {
    && BareReadsBy(clock, bound, c.featureId)
    && QuotedReadsBy(clock, bound, c.featureCode) && QuotedReadsBy(clock, bound, c.attributePath)
  }

  lemma OneLineHasNoTimes(clock: Clock, value: string, bound: int)
    requires OneLine(value)
    ensures AllReadBy(clock, Spill(PickTimestamp, value), bound)
    ensures LaterTimesReadBy(clock, value, true, bound) && LaterTimesReadBy(clock, value, false, bound)
  {
    OneLineSpillsNothing(PickTimestamp, value);
  }

  predicate LineSpillsBy(clock: Clock, bound: int, line: Line) {
    AllReadBy(clock, Spill(PickTimestamp, line.field), bound)
  }

  lemma TextSpillsBy(clock: Clock, bound: int, tag: Tag, value: string)
    requires clock.ReadsPlain()
    ensures LineSpillsBy(clock, bound, Line(tag, value)) == BareReadsBy(clock, bound, value)
    ensures BareReadsBy(clock, bound, Quote(value)) == QuotedReadsBy(clock, bound, value)
    ensures OneLine(value) ==> BareReadsBy(clock, bound, value)
  {
    BareTimesReadBy(clock, value, bound);
    BareTimesReadBy(clock, Quote(value), bound);
    QuotedTimesReadBy(clock, value, bound);
    if OneLine(value) {
      OneLineHasNoTimes(clock, value, bound);
    }
  }

  lemma TimesQuote(clock: Clock, bound: int, bare: string -> bool, quoted: string -> bool)
    requires clock.ReadsPlain()
    requires forall value: string :: bare(value) == BareReadsBy(clock, bound, value)
    requires forall value: string :: quoted(value) == QuotedReadsBy(clock, bound, value)
    ensures QuotesAs(bare, quoted)
  {
    forall value: string {:trigger Quote(value)}
      ensures bare(Quote(value)) == quoted(value)
    {
      TextSpillsBy(clock, bound, Code, value);
    }
  }

  lemma TimesFollowJudge(clock: Clock, bound: int, ok: Line -> bool, bare: string -> bool, quoted: string -> bool)
    requires clock.ReadsPlain()
    requires forall line: Line :: ok(line) == LineSpillsBy(clock, bound, line)
    requires forall value: string :: bare(value) == BareReadsBy(clock, bound, value)
    requires forall value: string :: quoted(value) == QuotedReadsBy(clock, bound, value)
    ensures Follows(ok, Judge(bare, bare, quoted))
  {
    forall tag: Tag, value: string
      ensures ok(Line(tag, value)) == bare(value)
      ensures OneLine(value) ==> bare(value)
    {
      TextSpillsBy(clock, bound, tag, value);
    }
    TimesQuote(clock, bound, bare, quoted);
  }

  lemma NothingLaterIff(clock: Clock, lines: seq<Line>, bound: int, ok: Line -> bool)
    requires forall line: Line :: ok(line) == LineSpillsBy(clock, bound, line)
    ensures NothingLater(clock, PickTimestamp, lines, bound) <==> All(ok, lines)
  {
    if All(ok, lines) {
      forall line | line in lines
        ensures AllReadBy(clock, Spill(PickTimestamp, line.field), bound)
      {
        assert ok(line) && LineSpillsBy(clock, bound, line);
      }
    }
  }

  lemma SummaryNothingLater(clock: Clock, h: Header, changes: seq<ProductChange>, bound: int)
    requires clock.RoundTrips() && clock.ReadsPlain() && Observed(changes) != []
    ensures NothingLater(clock, PickTimestamp, SummaryLines(clock, h, Observed(changes)), bound) <==>
      HeaderTimesReadBy(clock, h, bound) && forall c | c in changes :: TimesReadBy(clock, c, bound)
  {
    var ok, bare, quoted := (line: Line) => LineSpillsBy(clock, bound, line),
      (value: string) => BareReadsBy(clock, bound, value), (value: string) => QuotedReadsBy(clock, bound, value);
    TimesFollowJudge(clock, bound, ok, bare, quoted);
    SummaryIsFine(ok, Judge(bare, bare, quoted), clock, h, changes);
    NothingLaterIff(clock, SummaryLines(clock, h, Observed(changes)), bound, ok);
  }

  /** The greatest detection time. */
  predicate IsLatest(changes: seq<ProductChange>, latest: int) {
    && (forall c | c in changes :: c.detectedAt.ticks <= latest)
    && exists c | c in changes :: c.detectedAt.ticks == latest
  }

  /** The detection times survive removing duplicates and sorting. */
  lemma ObservedKeepsTimes(changes: seq<ProductChange>)
    requires Observed(changes) != []
    ensures IsLatest(changes, Latest(Observed(changes)))
  {
    LatestIsMaximum(Observed(changes));
    ObservedKeepsKeys(changes);
    SameKeysSameLatest(changes, Observed(changes), Latest(Observed(changes)));
  }

  lemma SameKeysSameLatest(changes: seq<ProductChange>, observed: seq<ProductChange>, latest: int)
    requires (forall c | c in observed :: c in changes) && IsLatest(observed, latest)
    requires forall c | c in changes :: exists d :: d in observed && Key(d) == Key(c)
    ensures IsLatest(changes, latest)
  {
    forall c | c in changes
      ensures c.detectedAt.ticks <= latest
    {
      var d :| d in observed && Key(d) == Key(c);
      assert d.detectedAt.ticks == Key(d).detectedAt.ticks;
    }
    var c :| c in observed && c.detectedAt.ticks == latest;
    assert c in changes;
  }

  /**
   * Reading a printed summary gives the latest detection time, exactly when every timestamp line that a line break
   * smuggles into a text is readable and no later; behind a quoted text the closing quote makes the last one
   * unreadable.
   */
  lemma LatestEditRoundTripIff(clock: Clock, cr: string, h: Header, changes: seq<ProductChange>, latest: int)
    requires clock.RoundTrips() && clock.ReadsPlain() && IsReturn(cr) && CanPrint(h, changes)
      && IsLatest(changes, latest)
    ensures LatestEdit(clock, Serialized(clock, cr, h, changes).value) == Success(latest) <==>
      HeaderTimesReadBy(clock, h, latest) && forall c | c in changes :: TimesReadBy(clock, c, latest)
  {
    ObservedKeepsTimes(changes);
    assert Latest(Observed(changes)) == latest;
    TimestampsCollected(cr, SummaryLines(clock, h, Observed(changes)));
    SummaryTimesReadBy(clock, PickTimestamp, h, Observed(changes));
    SummaryNothingLater(clock, h, changes, latest);
  }

  /** Without line breaks in the texts every summary gives back its latest detection time. */
  lemma LatestEditRoundTrip(clock: Clock, cr: string, h: Header, changes: seq<ProductChange>, latest: int)
    requires clock.RoundTrips() && clock.ReadsPlain() && IsReturn(cr) && changes != [] && AllUtc(h, changes)
    requires AllOneLine(h, changes) && IsLatest(changes, latest)
    ensures Serialized(clock, cr, h, changes).Success?
    ensures LatestEdit(clock, Serialized(clock, cr, h, changes).value) == Success(latest)
  {
    UtcChangesPrint(h, changes);
    OneLineHasNoTimes(clock, h.datasetName, latest);
    OneLineHasNoTimes(clock, h.productSpecification, latest);
    OneLineHasNoTimes(clock, h.workDate, latest);
    forall c | c in changes
      ensures TimesReadBy(clock, c, latest)
    {
      assert IsOneLineChange(c);
      OneLineHasNoTimes(clock, c.featureId, latest);
      OneLineHasNoTimes(clock, c.featureCode, latest);
      OneLineHasNoTimes(clock, c.attributePath, latest);
    }
    LatestEditRoundTripIff(clock, cr, h, changes, latest);
  }

  lemma DetectedLine(text: string, i: nat)
    requires 1 <= i < |SplitLines(text)| && StartsWith(SplitLines(text)[i], DETECTED)
    ensures IsTimeLine(SplitLines(text)[i]) && TimeOn(SplitLines(text)[i]) == Trim(SplitLines(text)[i][|DETECTED|..])
  {
    var line := SplitLines(text)[i];
    assert DETECTED[0] == ' ' && EDIT[0] == 'l';
    assert line[0] == line[..|DETECTED|][0];
  }

  /** One attribute path with a line break before the marker and a later time hides the latest edit. */
  lemma LineBreakForgesAnEdit(clock: Clock, cr: string, h: Header, changes: seq<ProductChange>, latest: int,
                              c: ProductChange,
                              p: string, later: int, rest: string)
    requires clock.RoundTrips() && clock.ReadsPlain() && IsReturn(cr) && CanPrint(h, changes)
      && IsLatest(changes, latest)
    requires c in changes && later > latest
      && c.attributePath == p + "\n" + (DETECTED + (clock.write(later) + "\n" + rest))
    ensures LatestEdit(clock, Serialized(clock, cr, h, changes).value) != Success(latest)
  {
    var i := |SplitLines(p)|;
    DetectedReadsItself("");
    LineAfterBreak(p, DETECTED, clock.write(later) + "\n" + rest);
    assert OneLine(clock.write(later)) && clock.parse(clock.write(later)) == Some(Instant(later, Utc));
    SplitPrefix(clock.write(later), rest);
    MarkerStarts(DETECTED, clock.write(later));
    DetectedLine(c.attributePath, i);
    assert !LaterTimesReadBy(clock, c.attributePath, true, latest);
    LatestEditRoundTripIff(clock, cr, h, changes, latest);
  }

  /** Even with an earlier time, or none, the marker on the last line of an attribute path spoils the reading. */
  lemma LineBreakSpoilsTheEdit(clock: Clock, cr: string, h: Header, changes: seq<ProductChange>, latest: int,
                               c: ProductChange,
                               p: string, rest: string)
    requires clock.RoundTrips() && clock.ReadsPlain() && IsReturn(cr) && CanPrint(h, changes)
      && IsLatest(changes, latest)
    requires c in changes && OneLine(rest) && c.attributePath == p + "\n" + (DETECTED + rest)
    ensures LatestEdit(clock, Serialized(clock, cr, h, changes).value) != Success(latest)
  {
    var i := |SplitLines(p)|;
    DetectedReadsItself("");
    LineAfterBreak(p, DETECTED, rest);
    SplitPrefix(rest, "");
    MarkerStarts(DETECTED, rest);
    DetectedLine(c.attributePath, i);
    assert !LaterTimesReadBy(clock, c.attributePath, true, latest);
    LatestEditRoundTripIff(clock, cr, h, changes, latest);
  }

  /*************** Manual summaries ***************/

  lemma UnreadableLineFails(clock: Clock, cr: string, lines: seq<Line>, i: nat)
    requires IsReturn(cr) && i < |lines| && lines[i].tag in TIME_MARKS
    requires OneLine(lines[i].field) && Trim(lines[i].field) == lines[i].field && clock.UtcOf(lines[i].field) == None
    ensures LatestEdit(clock, Printed(Label, lines, cr)) == Failure(InvalidTimestamp)
  {
    TimestampsCollected(cr, lines);
    var values := AllGiven(PickTimestamp, TIME_MARKS, lines);
    OneLineSpillsNothing(PickTimestamp, lines[i].field);
    GivenIsAmong(PickTimestamp, TIME_MARKS, lines, i);
    var j :| 0 <= j < |values| && values[j] == lines[i].field;
    UnreadableFails(clock, values, j);
  }
  /** The empty manual summary prints null for the latest edit, which the timestamp reader rejects. */
  lemma EmptyManualSummaryIsRejected(clock: Clock, cr: string, h: Header)
    requires IsReturn(cr) && clock.parse("null") == None && AllUtc(h, [])
    ensures SerializedManual(clock, cr, h, []).Success?
    ensures LatestEdit(clock, SerializedManual(clock, cr, h, []).value) == Failure(InvalidTimestamp)
  {
    var lines := HeaderLines(clock, h.(productSpecification := "S101"), "null", " []");
    assert OneLine("null") && Trim("null") == "null" && lines[5] == Line(Edit, "null");
    UnreadableLineFails(clock, cr, lines, 5);
  }

  /** Without line breaks in the texts a manual summary reads back exactly when it holds a change. */
  lemma ManualSummaryReadsIffChanged(clock: Clock, cr: string, h: Header, changes: seq<ProductChange>)
    requires clock.RoundTrips() && clock.ReadsPlain() && clock.parse("null") == None && IsReturn(cr)
    requires AllUtc(h, changes) && AllOneLine(h, changes)
    ensures
      var printed := SerializedManual(clock, cr, h, changes);
      && printed.Success?
      && (LatestEdit(clock, printed.value).Success? <==> changes != [])
      && (changes != [] ==> IsLatest(changes, LatestEdit(clock, printed.value).value))
  {
    if changes == [] {
      EmptyManualSummaryIsRejected(clock, cr, h);
    } else {
      var manual := h.(productSpecification := "S101");
      assert AllOneLine(manual, changes) && AllUtc(manual, changes);
      UtcChangesPrint(manual, changes);
      ObservedKeepsTimes(changes);
      LatestEditRoundTrip(clock, cr, manual, changes, Latest(Observed(changes)));
    }
  }
}
