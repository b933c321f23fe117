/** Strings as the source's ordinal comparers, trimming and line splitting see them. */
module Text {

  predicate IsWhite(c: char) {
    c == ' ' || '\t' <= c <= '\r' || c == '\U{85}' || c == '\U{A0}'
  }

  /** Tab, line feed, vertical tab, form feed, carriage return, space, next line and no-break space. */
  lemma WhiteSpaceIs(c: char)
    ensures IsWhite(c) <==> c as int in {9, 10, 11, 12, 13, 32, 133, 160}
  {
  }

  predicate IsBlank(s: string) {
    forall i | 0 <= i < |s| :: IsWhite(s[i])
  }

  function Trim(s: string): (r: string)
    ensures r != "" ==> !IsWhite(r[0]) && !IsWhite(r[|r| - 1])
    ensures forall c | c in r :: c in s
  {
    if s == "" then s
    else if IsWhite(s[|s| - 1]) then Trim(s[..|s| - 1])
    else if IsWhite(s[0]) then Trim(s[1..])
    else s
  }

  /** Trimming takes white space off both ends and nothing else. */
  lemma {:induction false} TrimTakesWhiteEnds(s: string) returns (left: string, right: string)
    ensures s == left + Trim(s) + right
    ensures (forall c | c in left :: IsWhite(c)) && (forall c | c in right :: IsWhite(c))
    decreases |s|
  {
    left, right := "", "";
    if s == "" {
    } else if IsWhite(s[|s| - 1]) {
      left, right := TrimTakesWhiteEnds(s[..|s| - 1]);
      right := right + [s[|s| - 1]];
    } else if IsWhite(s[0]) {
      left, right := TrimTakesWhiteEnds(s[1..]);
      left := [s[0]] + left;
    }
  }

  predicate StartsWith(s: string, prefix: string) {
    |prefix| <= |s| && s[..|prefix|] == prefix
  }

  /*************** Ordinal order ***************/

  predicate Less(a: string, b: string) {
    b != "" && (a == "" || a[0] < b[0] || (a[0] == b[0] && Less(a[1..], b[1..])))
  }

  /** After what the two strings have in common, the first ends or goes on with a smaller character. */
  ghost predicate IsBefore(a: string, b: string, k: nat) {
    && k <= |a| && k < |b| && a[..k] == b[..k]
    && (k == |a| || a[k] < b[k])
  }

  lemma HeadsAgree(a: string, b: string, k: nat)
    ensures IsBefore(a, b, k) && k > 0 ==> a != "" && b != "" && a[0] == b[0]
  {
    if IsBefore(a, b, k) && k > 0 {
      assert a[..k][0] == b[..k][0];
    }
  }

  lemma {:induction false} LessMeansBefore(a: string, b: string)
    ensures Less(a, b) <==> exists k: nat :: IsBefore(a, b, k)
  {
    if a != "" && b != "" && a[0] == b[0] {
      LessMeansBefore(a[1..], b[1..]);
      if k: nat :| IsBefore(a[1..], b[1..], k) {
        assert a[..k + 1] == [a[0]] + a[1..][..k] && b[..k + 1] == [b[0]] + b[1..][..k];
        assert IsBefore(a, b, k + 1);
      }
      if k: nat :| IsBefore(a, b, k) {
        assert k > 0;
        assert a[1..][..k - 1] == a[..k][1..] && b[1..][..k - 1] == b[..k][1..];
        assert IsBefore(a[1..], b[1..], k - 1);
      }
    } else if k: nat :| IsBefore(a, b, k) {
      HeadsAgree(a, b, k);
    } else if Less(a, b) {
      assert a[..0] == b[..0];
      assert IsBefore(a, b, 0);
    }
  }

  lemma {:induction false} LessIsStrict(a: string, b: string)
    ensures !(Less(a, b) && Less(b, a)) && !Less(a, a)
  {
    if a != "" && b != "" && a[0] == b[0] {
      LessIsStrict(a[1..], b[1..]);
    }
    if a != "" {
      LessIsStrict(a[1..], a[1..]);
    }
  }

  lemma {:induction false} LessIsTotal(a: string, b: string)
    ensures Less(a, b) || Less(b, a) || a == b
  {
    if a != "" && b != "" && a[0] == b[0] {
      LessIsTotal(a[1..], b[1..]);
      assert a == [a[0]] + a[1..] && b == [b[0]] + b[1..];
    }
  }

  lemma {:induction false} LessIsTransitive(a: string, b: string, c: string)
    requires Less(a, b) && Less(b, c)
    ensures Less(a, c)
  {
    if a != "" && a[0] == b[0] == c[0] {
      LessIsTransitive(a[1..], b[1..], c[1..]);
    }
  }

  predicate Ascending(ss: seq<string>) {
    forall i, j | 0 <= i < j < |ss| :: Less(ss[i], ss[j])
  }

  function InsertAscending(s: string, ss: seq<string>): (r: seq<string>)
    requires Ascending(ss)
    ensures Ascending(r) && forall t :: t in r <==> t == s || t in ss
  {
    if ss == [] then [s]
    else if s == ss[0] then ss
    else if Less(s, ss[0]) then
      FirstIsBelow(s, ss);
      [s] + ss
    else
      LessIsTotal(s, ss[0]);
      var rest := InsertAscending(s, ss[1..]);
      assert forall t | t in rest :: t == s || t in ss[1..];
      assert forall i | 0 <= i < |rest| :: rest[i] in rest;
      [ss[0]] + rest
  }

  lemma FirstIsBelow(s: string, ss: seq<string>)
    requires Ascending(ss) && ss != [] && Less(s, ss[0])
    ensures forall i | 0 <= i < |ss| :: Less(s, ss[i])
  {
    forall i | 0 < i < |ss|
      ensures Less(s, ss[i])
    {
      LessIsTransitive(s, ss[0], ss[i]);
    }
  }

  function Digits(n: nat): string {
    (if n < 10 then "" else Digits(n / 10)) + [('0' as int + n % 10) as char]
  }

  /** What a decimal text stands for. */
  function Value(s: string): int {
    if s == "" then 0 else 10 * Value(s[..|s| - 1]) + (s[|s| - 1] as int - '0' as int)
  }

  /** The printed digits read as the number, without leading zeros. */
  lemma {:induction false} DigitsRead(n: nat)
    ensures Value(Digits(n)) == n && forall c | c in Digits(n) :: '0' <= c <= '9'
    ensures Digits(n) != "" && (n > 0 ==> Digits(n)[0] != '0')
  {
    if n >= 10 {
      DigitsRead(n / 10);
      assert Digits(n)[..|Digits(n)| - 1] == Digits(n / 10);
    } else {
      assert Digits(n) == [('0' as int + n) as char];
    }
  }

  /*************** Lines ***************/

  function SplitLines(s: string): (lines: seq<string>)
    ensures lines != [] && forall l | l in lines :: '\n' !in l
  {
    if s == "" then [""] else
      var rest := SplitLines(s[1..]);
      if s[0] == '\n' then [""] + rest else [[s[0]] + rest[0]] + rest[1..]
  }

  function JoinLines(lines: seq<string>): string
    requires lines != []
  {
    if |lines| == 1 then lines[0] else lines[0] + "\n" + JoinLines(lines[1..])
  }

  lemma {:induction false} JoinSplit(s: string)
    ensures JoinLines(SplitLines(s)) == s
  {
    if s != "" {
      JoinSplit(s[1..]);
      var rest := SplitLines(s[1..]);
      if s[0] == '\n' {
        assert ([""] + rest)[1..] == rest;
        assert "" + "\n" + s[1..] == s;
      } else {
        assert [s[0]] + s[1..] == s;
      }
    }
  }

  /** A break splits any text, whatever the two sides hold. */
  lemma {:induction false} SplitAtBreak(a: string, b: string)
    ensures SplitLines(a + "\n" + b) == SplitLines(a) + SplitLines(b)
  {
    var whole := a + "\n" + b;
    if a == "" {
      assert whole[1..] == b;
    } else {
      assert whole[1..] == a[1..] + "\n" + b;
      SplitAtBreak(a[1..], b);
    }
  }

  function AddToLast(lines: seq<string>, suffix: string): seq<string>
    requires lines != []
  {
    lines[..|lines| - 1] + [lines[|lines| - 1] + suffix]
  }

  /** Text in front of the first line, or a new first line, does not touch what is added to the last. */
  lemma AddToLastAfter(lines: seq<string>, c: char, suffix: string)
    requires lines != []
    ensures AddToLast([""] + lines, suffix) == [""] + AddToLast(lines, suffix)
    ensures AddToLast([[c] + lines[0]] + lines[1..], suffix) ==
      [[c] + AddToLast(lines, suffix)[0]] + AddToLast(lines, suffix)[1..]
  {
    if |lines| == 1 {
      assert [c] + (lines[0] + suffix) == [c] + lines[0] + suffix;
    }
  }

  lemma {:induction false} SplitWithSuffix(a: string, suffix: string)
    requires '\n' !in suffix
    ensures SplitLines(a + suffix) == AddToLast(SplitLines(a), suffix)
  {
    if a == "" {
      assert a + suffix == suffix;
      SplitPrefix(suffix, "");
      assert "" + suffix == suffix;
    } else {
      assert (a + suffix)[1..] == a[1..] + suffix;
      SplitWithSuffix(a[1..], suffix);
      AddToLastAfter(SplitLines(a[1..]), a[0], suffix);
    }
  }

  lemma {:induction false} SplitWithPrefix(prefix: string, a: string)
    requires '\n' !in prefix
    ensures SplitLines(prefix + a) == [prefix + SplitLines(a)[0]] + SplitLines(a)[1..]
  {
    if prefix == "" {
      assert prefix + a == a && prefix + SplitLines(a)[0] == SplitLines(a)[0];
    } else {
      assert (prefix + a)[1..] == prefix[1..] + a;
      SplitWithPrefix(prefix[1..], a);
      assert [prefix[0]] + (prefix[1..] + SplitLines(a)[0]) == prefix + SplitLines(a)[0];
    }
  }

  lemma {:induction false} SplitPrefix(l: string, s: string)
    requires '\n' !in l
    ensures SplitLines(l) == [l]
    ensures SplitLines(l + "\n" + s) == [l] + SplitLines(s)
  {
    if l == "" {
      assert l + "\n" + s == "\n" + s && ("\n" + s)[1..] == s;
    } else {
      SplitPrefix(l[1..], s);
      assert (l + "\n" + s)[1..] == l[1..] + "\n" + s;
      assert [l[0]] + l[1..] == l;
    }
  }

  lemma {:induction false} SplitJoin(lines: seq<string>)
    requires lines != [] && forall l | l in lines :: '\n' !in l
    ensures SplitLines(JoinLines(lines)) == lines
  {
    if |lines| == 1 {
      SplitPrefix(lines[0], "");
    } else {
      SplitJoin(lines[1..]);
      SplitPrefix(lines[0], JoinLines(lines[1..]));
    }
  }

  /*************** Whole-word occurrences ***************/

  predicate IsWordChar(c: char) {
    'A' <= c <= 'Z' || 'a' <= c <= 'z' || '0' <= c <= '9' || c == '_' || c == '-'
  }

  predicate WordAt(text: string, word: string, p: nat) {
    && p + |word| <= |text| && text[p..p + |word|] == word
    && (p > 0 ==> !IsWordChar(text[p - 1]))
    && (p + |word| < |text| ==> !IsWordChar(text[p + |word|]))
  }

  predicate HasWord(text: string, word: string) {
    exists p | 0 <= p <= |text| :: WordAt(text, word, p)
  }

  lemma WordBeforeBreak(a: string, b: string, word: string, p: nat)
    requires word != "" && p + |word| <= |a|
    ensures WordAt(a + "\n" + b, word, p) <==> WordAt(a, word, p)
  {
    var text := a + "\n" + b;
    assert text[p..p + |word|] == a[p..p + |word|];
  }

  lemma WordAfterBreak(a: string, b: string, word: string, q: nat)
    requires word != "" && q + |word| <= |b|
    ensures WordAt(a + "\n" + b, word, |a| + 1 + q) <==> WordAt(b, word, q)
  {
    var text, p := a + "\n" + b, |a| + 1 + q;
    assert text[p..p + |word|] == b[q..q + |word|];
    if q > 0 { assert text[p - 1] == b[q - 1]; }
  }

  lemma NoWordAcrossBreak(a: string, b: string, word: string, p: nat)
    requires '\n' !in word && p <= |a| < p + |word|
    ensures !WordAt(a + "\n" + b, word, p)
  {
    var text := a + "\n" + b;
    if p + |word| <= |text| {
      assert text[p..p + |word|][|a| - p] == '\n';
    }
  }

  /** A line break never takes part in a word, so joining two texts at one neither makes nor breaks words. */
  lemma WordsAroundBreak(a: string, b: string, word: string)
    requires word != "" && '\n' !in word
    ensures HasWord(a + "\n" + b, word) <==> HasWord(a, word) || HasWord(b, word)
  {
    var text := a + "\n" + b;
    if p :| 0 <= p <= |text| && WordAt(text, word, p) {
      if p + |word| <= |a| {
        WordBeforeBreak(a, b, word, p);
      } else if p <= |a| {
        NoWordAcrossBreak(a, b, word, p);
      } else {
        WordAfterBreak(a, b, word, p - |a| - 1);
      }
    }
    if p :| 0 <= p <= |a| && WordAt(a, word, p) {
      WordBeforeBreak(a, b, word, p);
    }
    if q :| 0 <= q <= |b| && WordAt(b, word, q) {
      WordAfterBreak(a, b, word, q);
      assert WordAt(text, word, |a| + 1 + q);
    }
  }

  lemma {:induction false} WordsAreInLines(lines: seq<string>, word: string)
    requires lines != [] && word != "" && '\n' !in word
    ensures HasWord(JoinLines(lines), word) <==> exists l :: l in lines && HasWord(l, word)
  {
    if |lines| > 1 {
      WordsAroundBreak(lines[0], JoinLines(lines[1..]), word);
      WordsAreInLines(lines[1..], word);
      assert lines == [lines[0]] + lines[1..];
    }
  }
}
