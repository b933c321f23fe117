/** The line patterns of the surface cleanup as grammars, and what it does to a serialized dataset. */
module SurfaceDocuments {
  import opened Wrappers
  import opened Text
  import opened Sections
  import opened SurfaceCleanup

  /*************** What the line patterns accept ***************/

  ghost predicate IsReturn(s: string) {
    s == "" || s == "\r"
  }

  lemma ReturnSplits(line: string) returns (ret: string)
    ensures IsReturn(ret) && line == WithoutReturn(line) + ret
    ensures ret == "" <==> line == "" || line[|line| - 1] != '\r'
  {
    ret := if line != "" && line[|line| - 1] == '\r' then "\r" else "";
  }

  lemma WithoutReturnOf(body: string, ret: string)
    requires IsReturn(ret) && (body != "" ==> body[|body| - 1] != '\r')
    ensures WithoutReturn(body + ret) == body
  {
    assert body + "" == body;
    if ret == "\r" {
      assert (body + ret)[..|body|] == body;
    }
  }

  /** A line opens an item exactly if it is the entry marker, a name without carriage returns and an optional one. */
  lemma EntryLineIs(line: string, name: string)
    ensures IsEntry(line) && NameOn(line) == name <==>
            name != "" && '\r' !in name && (line == "  - Name: " + name || line == "  - Name: " + name + "\r")
  {
    var mark := "  - Name: ";
    if IsEntry(line) && NameOn(line) == name {
      var ret := ReturnSplits(line[|mark|..]);
      assert line == mark + line[|mark|..];
      assert mark + (name + ret) == mark + name + ret;
      assert mark + name + "" == mark + name;
    }
    if name != "" && '\r' !in name {
      WithoutReturnOf(name, "");
      WithoutReturnOf(name, "\r");
      assert name + "" == name;
      assert (mark + name)[..|mark|] == mark && (mark + name)[|mark|..] == name;
      assert (mark + name + "\r")[..|mark|] == mark && (mark + name + "\r")[|mark|..] == name + "\r";
    }
  }

  /** Letters, digits and underscores. */
  ghost predicate IsIdentifierChar(c: char) {
    c in "ABCDEFGHIJKLMNOPQRSTUVWXYZ" || c in "abcdefghijklmnopqrstuvwxyz" || c in "0123456789_"
  }

  lemma InUpper(c: char)
    ensures c in "ABCDEFGHIJKLMNOPQRSTUVWXYZ" <==> 'A' <= c <= 'Z'
  {
    var s := "ABCDEFGHIJKLMNOPQRSTUVWXYZ";
    if 'A' <= c <= 'Z' {
      assert s[c as int - 'A' as int] == c;
    }
  }

  lemma InLower(c: char)
    ensures c in "abcdefghijklmnopqrstuvwxyz" <==> 'a' <= c <= 'z'
  {
    var s := "abcdefghijklmnopqrstuvwxyz";
    if 'a' <= c <= 'z' {
      assert s[c as int - 'a' as int] == c;
    }
  }

  lemma InDigits(c: char)
    ensures c in "0123456789_" <==> '0' <= c <= '9' || c == '_'
  {
    var s := "0123456789_";
    if '0' <= c <= '9' {
      assert s[c as int - '0' as int] == c;
    }
    if c == '_' {
      assert s[10] == c;
    }
  }

  /** A word is made of identifier characters and dashes. */
  lemma WordCharIs(c: char)
    ensures IsWordChar(c) <==> IsIdentifierChar(c) || c == '-'
    ensures IsLetter(c) <==> c in "ABCDEFGHIJKLMNOPQRSTUVWXYZ" || c in "abcdefghijklmnopqrstuvwxyz"
  {
    InUpper(c);
    InLower(c);
    InDigits(c);
  }

  ghost predicate IsWord(s: string) {
    forall c | c in s :: IsIdentifierChar(c) || c == '-'
  }

  lemma WordCharsAre(s: string, from: nat)
    requires from <= |s|
    ensures (forall i | from <= i < |s| :: IsWordChar(s[i])) <==> IsWord(s[from..])
  {
    forall i | from <= i < |s| ensures IsWordChar(s[i]) <==> IsIdentifierChar(s[i]) || s[i] == '-' {
      WordCharIs(s[i]);
    }
    forall i | from <= i < |s| ensures s[i] in s[from..] {
      assert s[from..][i - from] == s[i];
    }
  }

  /** A surface name is an S, a nonempty word and at most a final line break. */
  ghost predicate IsNamed(name: string, word: string, final: string) {
    name == "S" + word + final && word != "" && IsWord(word) && (final == "" || final == "\n")
  }

  lemma NamedIsSurfaceName(name: string, word: string, final: string)
    requires IsNamed(name, word, final)
    ensures IsSurfaceName(name)
  {
    WordHasNoBreak(word);
    assert word[|word| - 1] in word;
    var body := "S" + word;
    assert name == body + final && body[|body| - 1] == word[|word| - 1];
    if final == "\n" {
      assert name[..|name| - 1] == body;
    } else {
      assert name == body;
    }
    WordCharsAre(body, 1);
    assert body[1..] == word;
  }

  lemma SurfaceNameIs(name: string)
    ensures IsSurfaceName(name) <==> exists word, final :: IsNamed(name, word, final)
  {
    if IsSurfaceName(name) {
      var body := WithoutBreak(name);
      var final := if name[|name| - 1] == '\n' then "\n" else "";
      WordCharsAre(body, 1);
      assert name == body + final && body == "S" + body[1..];
      assert IsNamed(name, body[1..], final);
    }
    if word, final :| IsNamed(name, word, final) {
      NamedIsSurfaceName(name, word, final);
    }
  }

  lemma WordHasNoBreak(word: string)
    requires IsWord(word)
    ensures '\n' !in word && '\r' !in word
  {
    if '\n' in word {
      InUpper('\n');
      InLower('\n');
      InDigits('\n');
    }
    if '\r' in word {
      InUpper('\r');
      InLower('\r');
      InDigits('\r');
    }
  }

  /** A top-level header is an identifier that starts with a letter, a colon and an optional carriage return. */
  ghost predicate IsHeaded(line: string, word: string, ret: string) {
    && line == word + ":" + ret && IsReturn(ret) && word != ""
    && (word[0] in "ABCDEFGHIJKLMNOPQRSTUVWXYZ" || word[0] in "abcdefghijklmnopqrstuvwxyz")
    && forall c | c in word :: IsIdentifierChar(c)
  }

  lemma IdentifierCharsAre(s: string)
    ensures (forall i | 0 <= i < |s| :: IsWordChar(s[i]) && s[i] != '-') <==> forall c | c in s :: IsIdentifierChar(c)
  {
    InDigits('-');
    InUpper('-');
    InLower('-');
    forall i | 0 <= i < |s| ensures IsWordChar(s[i]) && s[i] != '-' <==> IsIdentifierChar(s[i]) {
      WordCharIs(s[i]);
    }
    forall i | 0 <= i < |s| ensures s[i] in s {
    }
  }

  lemma TopLevelHeaderIs(line: string)
    ensures IsTopLevelHeader(line) <==> exists word, ret :: IsHeaded(line, word, ret)
  {
    if IsTopLevelHeader(line) {
      var body := WithoutReturn(line);
      var ret := ReturnSplits(line);
      var word := body[..|body| - 1];
      assert body == word + ":";
      IdentifierCharsAre(word);
      WordCharIs(word[0]);
      assert IsHeaded(line, word, ret);
    }
    if word, ret :| IsHeaded(line, word, ret) {
      WithoutReturnOf(word + ":", ret);
      IdentifierCharsAre(word);
      WordCharIs(word[0]);
      assert (word + ":")[0] == word[0];
      assert forall i | 0 <= i < |word| :: (word + ":")[i] == word[i];
    }
  }

  /** An item that is no entry starts with the item marker but not with the entry marker. */
  lemma UnexpectedItemIs(line: string)
    ensures IsUnexpectedItem(line) <==>
            (exists rest :: line == "  - " + rest) && !exists rest :: line == "  - Name: " + rest
  {
    if StartsWith(line, "  - ") {
      assert line == "  - " + line[4..];
    }
    if StartsWith(line, "  - Name: ") {
      assert line == "  - Name: " + line[10..];
    }
    if rest :| line == "  - " + rest {
      assert line[..4] == "  - ";
    }
    if rest :| line == "  - Name: " + rest {
      assert line[..10] == "  - Name: ";
    }
  }

  /** A record shows its geometry if one of its lines after the first starts with the indented key. */
  lemma ExteriorIs(item: Item)
    ensures HasExterior(item) <==> exists k, rest :: 1 <= k < |item| && item[k] == "    Exterior:" + rest
  {
    var mark := "    Exterior:";
    if k :| 1 <= k < |item| && StartsWith(item[k], mark) {
      assert item[k] == mark + item[k][|mark|..];
    }
    if k, rest :| 1 <= k < |item| && item[k] == mark + rest {
      assert item[k][..|mark|] == mark;
    }
  }

  /*************** A dataset as it is serialized ***************/

  /** A surface record: its name and the indented lines below it. */
  datatype Surface = Surface(name: string, body: seq<string>)

  ghost function Record(s: Surface, ret: string): Item {
    ["  - Name: " + s.name + ret] + s.body
  }

  ghost function Records(surfaces: seq<Surface>, ret: string): (items: seq<Item>)
    ensures |items| == |surfaces|
  {
    if surfaces == [] then [] else [Record(surfaces[0], ret)] + Records(surfaces[1..], ret)
  }

  lemma {:induction false} RecordsAre(surfaces: seq<Surface>, ret: string)
    ensures var items := Records(surfaces, ret);
            |items| == |surfaces| && forall k | 0 <= k < |items| :: items[k] == Record(surfaces[k], ret)
  {
    if surfaces != [] {
      RecordsAre(surfaces[1..], ret);
    }
  }

  ghost function Written(head: seq<string>, surfaces: seq<Surface>, tail: seq<string>, ret: string): Layout {
    Layout(head + ["Surfaces:" + ret], [], Records(surfaces, ret), ["Features:" + ret] + tail)
  }

  /** Lines before the surfaces, the surfaces between the two headers, and lines after them. */
  ghost function Serialized(head: seq<string>, surfaces: seq<Surface>, tail: seq<string>, ret: string): string {
    JoinLines(Written(head, surfaces, tail, ret).Lines())
  }

  /** A line that is neither of the two headers. */
  ghost predicate IsOutside(line: string) {
    && '\n' !in line && line != "Surfaces:" && line != "Surfaces:\r" && line != "Features:" && line != "Features:\r"
  }

  ghost predicate IsIndented(line: string) {
    '\n' !in line && |line| >= 4 && line[..4] == "    "
  }

  ghost predicate IsSurface(s: Surface) {
    (exists word :: IsNamed(s.name, word, "")) && forall l | l in s.body :: IsIndented(l)
  }

  ghost predicate IsDataset(head: seq<string>, surfaces: seq<Surface>, tail: seq<string>, ret: string) {
    && IsReturn(ret) && (forall l | l in head + tail :: IsOutside(l))
    && (forall s | s in surfaces :: IsSurface(s))
    && forall i, j | 0 <= i < j < |surfaces| :: surfaces[i].name != surfaces[j].name
  }

  /** The surface shows its geometry, and its name is no word of any line outside its own record. */
  ghost predicate MayGo(head: seq<string>, surfaces: seq<Surface>, tail: seq<string>, s: Surface) {
    && (exists l, rest :: l in s.body && l == "    Exterior:" + rest) && s.name != "Surfaces"
    && (forall l | l in head + tail :: !HasWord(l, s.name))
    && forall other, l | other in surfaces && other.name != s.name && l in other.body :: !HasWord(l, s.name)
  }

  function Remaining(surfaces: seq<Surface>, removed: set<string>): seq<Surface> {
    if surfaces == [] then []
    else (if surfaces[0].name in removed then [] else [surfaces[0]]) + Remaining(surfaces[1..], removed)
  }

  lemma RecordIsItem(s: Surface, ret: string)
    requires IsReturn(ret) && IsSurface(s)
    ensures IsItem(Record(s, ret), YAML.entry) && NameOf(Record(s, ret)) == s.name
    ensures IsSurfaceName(s.name) && '\n' !in s.name
  {
    var word :| IsNamed(s.name, word, "");
    NamedIsSurfaceName(s.name, word, "");
    WordHasNoBreak(word);
    var line := "  - Name: " + s.name + ret;
    assert "  - Name: " + s.name + "" == "  - Name: " + s.name;
    EntryLineIs(line, s.name);
    assert Record(s, ret)[1..] == s.body;
    forall l | l in s.body ensures !IsEntry(l) {
      assert l[..4][2] == ' ' && "  - Name: "[2] == '-';
      EntryLineIs(l, NameOn(l));
    }
  }

  /** What can stand in the section: an entry line or an indented line. */
  lemma SectionLineIs(surfaces: seq<Surface>, ret: string, l: string) returns (k: nat)
    requires l in Flatten(Records(surfaces, ret))
    ensures k < |surfaces| && (l == "  - Name: " + surfaces[k].name + ret || l in surfaces[k].body)
  {
    RecordsAre(surfaces, ret);
    k := FromFlatten(Records(surfaces, ret), l);
  }

  lemma IndentedIsNoHeader(l: string)
    requires IsIndented(l)
    ensures !IsHeader(l, SURFACES) && !IsHeader(l, FEATURES) && !IsTopLevelHeader(l) && !IsUnexpectedItem(l)
  {
    assert l[0] == l[..4][0] == ' ' && l[2] == l[..4][2] == ' ';
    assert ("Surfaces:")[0] == 'S' && ("Features:")[0] == 'F' && "  - "[2] == '-';
    assert l[..4] != ITEM;
    InUpper(' ');
    InLower(' ');
  }

  lemma EntryIsNoHeader(name: string, ret: string)
    ensures var l := "  - Name: " + name + ret;
            !IsHeader(l, SURFACES) && !IsHeader(l, FEATURES) && !IsTopLevelHeader(l) && !IsUnexpectedItem(l)
  {
    var l := "  - Name: " + name + ret;
    assert l[0] == ' ' && ("Surfaces:")[0] == 'S' && ("Features:")[0] == 'F';
    assert l[..10] == "  - Name: ";
    UnexpectedItemIs(l);
    assert l == "  - Name: " + (name + ret);
  }

  lemma SectionHasNoHeader(surfaces: seq<Surface>, ret: string, l: string)
    requires IsReturn(ret) && (forall s | s in surfaces :: IsSurface(s)) && l in Flatten(Records(surfaces, ret))
    ensures '\n' !in l
    ensures !IsHeader(l, SURFACES) && !IsHeader(l, FEATURES) && !IsTopLevelHeader(l) && !IsUnexpectedItem(l)
  {
    var k := SectionLineIs(surfaces, ret, l);
    if l in surfaces[k].body {
      assert IsSurface(surfaces[k]);
      IndentedIsNoHeader(l);
    } else {
      EntryIsNoHeader(surfaces[k].name, ret);
      RecordIsItem(surfaces[k], ret);
    }
  }

  lemma {:induction false} CountNone(lines: seq<string>, p: Pattern)
    requires forall l | l in lines :: !p(l)
    ensures Count(lines, p) == 0
  {
    if lines != [] {
      CountNone(lines[1..], p);
    }
  }

  lemma HeadersAre(ret: string)
    requires IsReturn(ret)
    ensures IsHeader("Surfaces:" + ret, SURFACES) && !IsHeader("Surfaces:" + ret, FEATURES)
    ensures IsHeader("Features:" + ret, FEATURES) && !IsHeader("Features:" + ret, SURFACES)
  {
    assert "Surfaces:" + "" == "Surfaces:" && "Features:" + "" == "Features:";
    HeadersDiffer("Surfaces:" + ret);
    HeadersDiffer("Features:" + ret);
  }

  lemma WrittenIsRegular(head: seq<string>, surfaces: seq<Surface>, tail: seq<string>, ret: string)
    requires IsDataset(head, surfaces, tail, ret)
    ensures Regular(Written(head, surfaces, tail, ret), YAML)
  {
    var s := Written(head, surfaces, tail, ret);
    RecordsAre(surfaces, ret);
    HeadersAre(ret);
    assert s.head[..|s.head| - 1] == head && s.tail[1..] == tail && s.Section() == Flatten(s.items);
    forall l | l in head + tail ensures !IsHeader(l, SURFACES) && !IsHeader(l, FEATURES) {
      assert IsOutside(l);
    }
    forall l | l in s.Section() ensures !IsHeader(l, SURFACES) && !IsHeader(l, FEATURES) {
      SectionHasNoHeader(surfaces, ret, l);
    }
    assert forall l | l in head :: l in head + tail;
    assert forall l | l in tail :: l in head + tail;
    CountNone(head, YAML.opening);
    CountNone(head, YAML.closing);
    CountNone(tail, YAML.opening);
    CountNone(tail, YAML.closing);
    CountNone(s.Section(), YAML.opening);
    CountNone(s.Section(), YAML.closing);
    forall k | 0 <= k < |s.items| ensures IsItem(s.items[k], YAML.entry) {
      RecordIsItem(surfaces[k], ret);
    }
  }

  lemma WrittenLineIs(head: seq<string>, surfaces: seq<Surface>, tail: seq<string>, ret: string, l: string)
    requires l in Written(head, surfaces, tail, ret).Lines()
    ensures l in head + tail || l in Flatten(Records(surfaces, ret)) || l == "Surfaces:" + ret || l == "Features:" + ret
  {
    var s := Written(head, surfaces, tail, ret);
    assert s.Section() == Flatten(s.items);
    assert l in s.head || l in s.Section() || l in s.tail;
  }

  lemma WrittenLineHasNoBreak(head: seq<string>, surfaces: seq<Surface>, tail: seq<string>, ret: string, l: string)
    requires IsDataset(head, surfaces, tail, ret) && l in Written(head, surfaces, tail, ret).Lines()
    ensures '\n' !in l
  {
    WrittenLineIs(head, surfaces, tail, ret, l);
    if l in head + tail {
      assert IsOutside(l);
    } else if l in Flatten(Records(surfaces, ret)) {
      SectionHasNoHeader(surfaces, ret, l);
    }
  }

  lemma SerializedIsRead(head: seq<string>, surfaces: seq<Surface>, tail: seq<string>, ret: string)
    requires IsDataset(head, surfaces, tail, ret)
    ensures Structure(Serialized(head, surfaces, tail, ret)) == Some(Written(head, surfaces, tail, ret))
  {
    var s := Written(head, surfaces, tail, ret);
    WrittenIsRegular(head, surfaces, tail, ret);
    LayoutOfRegular(s, YAML);
    forall l | l in s.Lines() ensures '\n' !in l {
      WrittenLineHasNoBreak(head, surfaces, tail, ret, l);
    }
    SplitJoin(s.Lines());
  }

  /*************** No other line mentions the name ***************/

  lemma NameStart(name: string, word: string)
    requires IsNamed(name, word, "")
    ensures |name| >= 2 && name[0] == 'S' && IsWord(name[1..])
    ensures forall i | 0 <= i < |name| :: IsWordChar(name[i])
  {
    assert name == "S" + word && name[1..] == word;
    WordCharsAre(name, 1);
    InUpper('S');
    WordCharIs('S');
  }

  /** A name that is a word of another record's entry line would be that record's name. */
  lemma EntryMentionsItsName(other: string, otherWord: string, ret: string, name: string, word: string)
    requires IsNamed(other, otherWord, "") && IsNamed(name, word, "") && IsReturn(ret) && other != name
    ensures !HasWord("  - Name: " + other + ret, name)
  {
    var line := "  - Name: " + other + ret;
    NameStart(other, otherWord);
    NameStart(name, word);
    forall p | 0 <= p <= |line| ensures !WordAt(line, name, p) {
      if p + |name| <= |line| && line[p..p + |name|] == name {
        assert line[p] == line[p..p + |name|][0] == 'S';
        assert forall i | 0 <= i < 10 :: line[i] == "  - Name: "[i];
        assert p >= 10;
        var end := 10 + |other|;
        assert forall i | 10 <= i < end :: line[i] == other[i - 10];
        EntryWordFits(line, other, name, p, ret);
      }
    }
  }

  lemma EntryWordFits(line: string, other: string, name: string, p: nat, ret: string)
    requires line == "  - Name: " + other + ret && IsReturn(ret) && other != name
    requires forall i | 0 <= i < |other| :: IsWordChar(other[i])
    requires forall i | 0 <= i < |name| :: IsWordChar(name[i])
    requires 10 <= p && |name| >= 1 && p + |name| <= |line| && line[p..p + |name|] == name
    ensures !WordAt(line, name, p)
  {
    var end := 10 + |other|;
    assert forall i | 10 <= i < end :: line[i] == other[i - 10];
    InUpper('\r');
    InLower('\r');
    InDigits('\r');
    assert ret == "\r" ==> line[end] == '\r';
    assert forall i | p <= i < p + |name| :: line[i] == name[i - p];
    assert line[10..end] == other;
  }

  lemma FeaturesDoesNotMention(ret: string, name: string, word: string)
    requires IsReturn(ret) && IsNamed(name, word, "")
    ensures !HasWord("Features:" + ret, name)
  {
    NameStart(name, word);
    var line := "Features:" + ret;
    forall p | 0 <= p <= |line| ensures !WordAt(line, name, p) {
      if p + |name| <= |line| && line[p..p + |name|] == name {
        assert line[p] == line[p..p + |name|][0] == 'S';
        assert forall i | 0 <= i < 9 :: line[i] == "Features:"[i];
      }
    }
  }

  lemma NoSecondS(ret: string)
    requires IsReturn(ret)
    ensures forall i | 1 <= i < |"Surfaces:" + ret| :: ("Surfaces:" + ret)[i] != 'S'
  {
  }

  /** The header of the section mentions a surface only if that is called as the section is. */
  lemma SurfacesDoesNotMention(ret: string, name: string, word: string)
    requires IsReturn(ret) && IsNamed(name, word, "") && name != "Surfaces"
    ensures !HasWord("Surfaces:" + ret, name)
  {
    NameStart(name, word);
    var line := "Surfaces:" + ret;
    assert forall i | 1 <= i < |line| :: line[i] != 'S' by {
      NoSecondS(ret);
    }
    forall p | 0 <= p <= |line| ensures !WordAt(line, name, p) {
      if p + |name| <= |line| && line[p..p + |name|] == name {
        assert line[p] == line[p..p + |name|][0] == 'S';
        assert p == 0;
        HeaderWordFits(line, name, ret);
      }
    }
  }

  lemma HeaderWordFits(line: string, name: string, ret: string)
    requires line == "Surfaces:" + ret && IsReturn(ret) && name != "Surfaces"
    requires forall i | 0 <= i < |name| :: IsWordChar(name[i])
    requires |name| >= 1 && |name| <= |line| && line[0..|name|] == name
    ensures !WordAt(line, name, 0)
  {
    InUpper(':');
    InLower(':');
    InDigits(':');
    WordCharIs(':');
    assert line[8] == ':' && line[..8] == "Surfaces";
    assert forall i | 0 <= i < |name| :: line[i] == name[i];
    assert forall i | 0 <= i < 8 :: line[i] == "Surfaces"[i];
    assert line[0..8] == line[..8];
    if |name| < 8 {
      SurfacesIsWord(|name|);
    }
  }

  lemma SurfacesIsWord(k: nat)
    requires k < 8
    ensures IsWordChar("Surfaces"[k])
  {
    InUpper("Surfaces"[k]);
    InLower("Surfaces"[k]);
  }

  /*************** What the cleanup does to it ***************/

  lemma WithoutOne(surfaces: seq<Surface>, ret: string, k: nat, l: string) returns (j: nat)
    requires k < |surfaces| && l in Flatten(Without(Records(surfaces, ret), k))
    ensures j < |surfaces| && j != k && (l == "  - Name: " + surfaces[j].name + ret || l in surfaces[j].body)
  {
    RecordsAre(surfaces, ret);
    var items := Records(surfaces, ret);
    var i := FromFlatten(Without(items, k), l);
    j := if i < k then i else i + 1;
    assert Without(items, k)[i] == items[j];
  }

  lemma EntryDoesNotMention(s: Surface, ret: string, other: Surface)
    requires IsReturn(ret) && IsSurface(s) && IsSurface(other) && s.name != other.name
    ensures !HasWord("  - Name: " + other.name + ret, s.name)
  {
    var word :| IsNamed(s.name, word, "");
    var otherWord :| IsNamed(other.name, otherWord, "");
    EntryMentionsItsName(other.name, otherWord, ret, s.name, word);
  }

  lemma HeadersDoNotMention(s: Surface, ret: string)
    requires IsReturn(ret) && IsSurface(s) && s.name != "Surfaces"
    ensures !HasWord("Surfaces:" + ret, s.name) && !HasWord("Features:" + ret, s.name)
  {
    var word :| IsNamed(s.name, word, "");
    SurfacesDoesNotMention(ret, s.name, word);
    FeaturesDoesNotMention(ret, s.name, word);
  }

  lemma RemainingLineIs(head: seq<string>, surfaces: seq<Surface>, tail: seq<string>, ret: string, k: nat, l: string)
    requires k < |surfaces|
    requires l in Written(head, surfaces, tail, ret).(items := Without(Records(surfaces, ret), k)).Lines()
    ensures || l in head + tail || l in Flatten(Without(Records(surfaces, ret), k))
            || l == "Surfaces:" + ret || l == "Features:" + ret
  {
    var s := Written(head, surfaces, tail, ret).(items := Without(Records(surfaces, ret), k));
    assert s.Section() == Flatten(s.items);
    assert l in s.head || l in s.Section() || l in s.tail;
  }

  lemma LineDoesNotMention(head: seq<string>, surfaces: seq<Surface>, tail: seq<string>, ret: string, k: nat,
                           l: string)
    requires IsDataset(head, surfaces, tail, ret) && k < |surfaces| && MayGo(head, surfaces, tail, surfaces[k])
    requires l in Written(head, surfaces, tail, ret).(items := Without(Records(surfaces, ret), k)).Lines()
    ensures !HasWord(l, surfaces[k].name)
  {
    RemainingLineIs(head, surfaces, tail, ret, k, l);
    if l in head + tail {
    } else if l in Flatten(Without(Records(surfaces, ret), k)) {
      var j := WithoutOne(surfaces, ret, k, l);
      assert surfaces[j].name != surfaces[k].name;
      if l !in surfaces[j].body {
        EntryDoesNotMention(surfaces[k], ret, surfaces[j]);
      }
    } else {
      HeadersDoNotMention(surfaces[k], ret);
    }
  }

  lemma NobodyMentions(head: seq<string>, surfaces: seq<Surface>, tail: seq<string>, ret: string, k: nat)
    requires IsDataset(head, surfaces, tail, ret) && k < |surfaces| && MayGo(head, surfaces, tail, surfaces[k])
    ensures Unreferenced(Written(head, surfaces, tail, ret), k)
  {
    var s, name := Written(head, surfaces, tail, ret), surfaces[k].name;
    RecordsAre(surfaces, ret);
    RecordIsItem(surfaces[k], ret);
    var lines := s.(items := Without(s.items, k)).Lines();
    forall l | l in lines ensures !HasWord(l, name) {
      LineDoesNotMention(head, surfaces, tail, ret, k, l);
    }
    WordsAreInLines(lines, name);
  }

  lemma {:induction false} LineIsNotBlank(lines: seq<string>, l: string)
    requires l in lines && !IsBlank(l)
    ensures !IsBlank(JoinLines(lines))
  {
    var text := JoinLines(lines);
    if lines[0] == l {
      var i :| 0 <= i < |l| && !IsWhite(l[i]);
      assert text[i] == l[i];
    } else {
      LineIsNotBlank(lines[1..], l);
      var rest := JoinLines(lines[1..]);
      var i :| 0 <= i < |rest| && !IsWhite(rest[i]);
      assert text[|lines[0]| + 1 + i] == rest[i];
    }
  }

  lemma RecordsUnfold(first: Surface, rest: seq<Surface>, ret: string)
    ensures Records([first] + rest, ret) == [Record(first, ret)] + Records(rest, ret)
  {
    assert ([first] + rest)[1..] == rest;
  }

  lemma KeepUnfolds(first: Item, rest: seq<Item>, removed: set<string>)
    ensures Keep([first] + rest, removed) ==
      if NameOf(first) in removed then Keep(rest, removed) else [first] + Keep(rest, removed)
  {
    assert ([first] + rest)[1..] == rest;
    assert [] + Keep(rest, removed) == Keep(rest, removed);
  }

  lemma {:induction false} KeptAreRemaining(surfaces: seq<Surface>, ret: string, removed: set<string>)
    requires IsReturn(ret) && forall s | s in surfaces :: IsSurface(s)
    ensures Keep(Records(surfaces, ret), removed) == Records(Remaining(surfaces, removed), ret)
  {
    if surfaces != [] {
      KeptAreRemaining(surfaces[1..], ret, removed);
      RecordIsItem(surfaces[0], ret);
      var first, rest := surfaces[0], surfaces[1..];
      assert surfaces == [first] + rest;
      RecordsUnfold(first, rest, ret);
      KeepUnfolds(Record(first, ret), Records(rest, ret), removed);
      if first.name in removed {
        assert [] + Remaining(rest, removed) == Remaining(rest, removed);
      } else {
        RecordsUnfold(first, Remaining(rest, removed), ret);
      }
    }
  }

  lemma SerializedIsSafe(head: seq<string>, surfaces: seq<Surface>, tail: seq<string>, ret: string,
                         removed: set<string>)
    requires IsDataset(head, surfaces, tail, ret) && |removed| < |surfaces|
    requires forall s | s in surfaces && s.name in removed :: MayGo(head, surfaces, tail, s)
    ensures SectionIsSafe(Written(head, surfaces, tail, ret), removed)
    ensures ReadSafely(Written(head, surfaces, tail, ret).items, YAML_ITEMS, removed)
  {
    var s := Written(head, surfaces, tail, ret);
    RecordsAre(surfaces, ret);
    assert s.Section() == Flatten(s.items);
    forall l | l in s.Section() ensures !IsTopLevelHeader(l) && !IsUnexpectedItem(l) {
      SectionHasNoHeader(surfaces, ret, l);
    }
    forall k | 0 <= k < |surfaces|
      ensures NameOf(s.items[k]) == surfaces[k].name && IsSurfaceName(surfaces[k].name)
      ensures surfaces[k].name in removed ==> HasExterior(s.items[k])
    {
      RecordIsItem(surfaces[k], ret);
      if surfaces[k].name in removed {
        ShowsExterior(head, surfaces, tail, ret, surfaces[k]);
      }
    }
  }

  lemma ShowsExterior(head: seq<string>, surfaces: seq<Surface>, tail: seq<string>, ret: string, s: Surface)
    requires MayGo(head, surfaces, tail, s)
    ensures HasExterior(Record(s, ret))
  {
    var l, rest :| l in s.body && l == "    Exterior:" + rest;
    var i :| 0 <= i < |s.body| && s.body[i] == l;
    assert Record(s, ret)[i + 1] == l;
    ExteriorIs(Record(s, ret));
  }

  lemma AllAreFound(head: seq<string>, surfaces: seq<Surface>, tail: seq<string>, ret: string, removed: set<string>)
    requires IsDataset(head, surfaces, tail, ret)
    requires forall name | name in removed :: exists s :: s in surfaces && s.name == name
    ensures AllFound(Written(head, surfaces, tail, ret).items, removed) && NamesAreValid(removed)
  {
    RecordsAre(surfaces, ret);
    var items := Records(surfaces, ret);
    forall name | name in removed
      ensures (exists k | 0 <= k < |items| :: NameOf(items[k]) == name) && IsSurfaceName(name) && !IsBlank(name)
    {
      var s :| s in surfaces && s.name == name;
      var k :| 0 <= k < |surfaces| && surfaces[k] == s;
      RecordIsItem(s, ret);
      assert NameOf(items[k]) == name;
      assert name[0] == 'S';
    }
  }

  lemma AllAreUnreferenced(head: seq<string>, surfaces: seq<Surface>, tail: seq<string>, ret: string,
                           removed: set<string>)
    requires IsDataset(head, surfaces, tail, ret)
    requires forall s | s in surfaces && s.name in removed :: MayGo(head, surfaces, tail, s)
    ensures var s := Written(head, surfaces, tail, ret);
            forall k | 0 <= k < |s.items| && NameOf(s.items[k]) in removed :: Unreferenced(s, k)
  {
    var s := Written(head, surfaces, tail, ret);
    RecordsAre(surfaces, ret);
    forall k | 0 <= k < |s.items| && NameOf(s.items[k]) in removed ensures Unreferenced(s, k) {
      RecordIsItem(surfaces[k], ret);
      NobodyMentions(head, surfaces, tail, ret, k);
    }
  }

  lemma SerializedIsNotBlank(head: seq<string>, surfaces: seq<Surface>, tail: seq<string>, ret: string)
    ensures !IsBlank(Serialized(head, surfaces, tail, ret))
  {
    var s, header := Written(head, surfaces, tail, ret), "Surfaces:" + ret;
    assert header in s.head && header in s.Lines();
    assert header[0] == 'S';
    LineIsNotBlank(s.Lines(), header);
  }

  /**
   * Any list of surfaces that a serialized dataset holds can be removed, if each shows its geometry and is mentioned
   * nowhere else and some surface is left; the output is the dataset serialized without them.
   */
  lemma SerializedIsCleaned(head: seq<string>, surfaces: seq<Surface>, tail: seq<string>, ret: string,
                            removed: set<string>)
    requires IsDataset(head, surfaces, tail, ret) && |removed| < |surfaces|
    requires forall name | name in removed :: exists s :: s in surfaces && s.name == name
    requires forall s | s in surfaces && s.name in removed :: MayGo(head, surfaces, tail, s)
    ensures Cleanable(Serialized(head, surfaces, tail, ret), removed)
    ensures Cleaned(Serialized(head, surfaces, tail, ret), removed)
            == Serialized(head, Remaining(surfaces, removed), tail, ret)
  {
    SerializedIsRead(head, surfaces, tail, ret);
    SerializedIsSafe(head, surfaces, tail, ret, removed);
    SerializedIsNotBlank(head, surfaces, tail, ret);
    AllAreFound(head, surfaces, tail, ret, removed);
    AllAreUnreferenced(head, surfaces, tail, ret, removed);
    KeptAreRemaining(surfaces, ret, removed);
  }

  lemma SurfacesIsReferenced(layout: Layout, k: nat)
    requires k < |layout.items| && layout.tail != [] && NameOf(layout.items[k]) == "Surfaces"
    requires layout.head != [] && IsHeader(layout.head[|layout.head| - 1], SURFACES)
    ensures !Unreferenced(layout, k)
  {
    var lines, header := layout.(items := Without(layout.items, k)).Lines(), layout.head[|layout.head| - 1];
    HeaderMentionsSurfaces(header);
    assert header in lines;
    WordsAreInLines(lines, "Surfaces");
  }

  /** The one name that cannot go: the section header mentions it, whatever the document. */
  lemma SurfacesIsNeverRemoved(yaml: string, removed: set<string>)
    ensures "Surfaces" in removed ==> !Cleanable(yaml, removed)
  {
    if Structure(yaml).Some? {
      StructureIsRegular(yaml);
      var layout := Structure(yaml).value;
      forall k | 0 <= k < |layout.items| && NameOf(layout.items[k]) == "Surfaces" ensures !Unreferenced(layout, k) {
        SurfacesIsReferenced(layout, k);
      }
    }
  }

  lemma HeaderMentionsSurfaces(line: string)
    requires IsHeader(line, SURFACES)
    ensures HasWord(line, "Surfaces")
  {
    InUpper(':');
    InLower(':');
    InDigits(':');
    WordCharIs(':');
    assert line[0..8] == "Surfaces" && line[8] == ':';
    assert WordAt(line, "Surfaces", 0);
  }
}
