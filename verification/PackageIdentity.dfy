/** The package identity allocator: reserved short identifiers and per-scope counters. */
module PackageIdentity {
  import opened Wrappers
  import opened Text

  /** The greatest 64-bit signed integer, where the checked increment fails. */
  const MAX: nat := 0x7FFF_FFFF_FFFF_FFFF

  /*************** Formatted identifiers ***************/

  /** At least three digits. */
  function D3(n: nat): string {
    if n < 10 then "00" + Digits(n) else if n < 100 then "0" + Digits(n) else Digits(n)
  }

  function Format(prefix: string, n: nat, year: string): string {
    prefix + "-" + D3(n) + "-" + year
  }

  function Scope(prefix: string, year: string): string {
    prefix + "-" + year
  }

  lemma {:induction false} LeadingZero(s: string)
    ensures Value("0" + s) == Value(s)
    decreases |s|
  {
    if s != "" {
      LeadingZero(s[..|s| - 1]);
      assert ("0" + s)[..|s|] == "0" + s[..|s| - 1];
    } else {
      assert "0" + s == "0" && "0"[..0] == "";
    }
  }

  lemma DigitsCount(n: nat)
    ensures n < 10 ==> |Digits(n)| == 1
    ensures 10 <= n < 100 ==> |Digits(n)| == 2
    ensures n >= 100 ==> |Digits(n)| >= 3
  {
    assert n >= 10 ==> |Digits(n)| == |Digits(n / 10)| + 1;
    assert n >= 100 ==> |Digits(n / 10)| == |Digits(n / 100)| + 1 by {
      assert n / 10 / 10 == n / 100;
    }
  }

  /** At least three digits that read as the number, padded with zeros only as far as needed. */
  lemma D3Reads(n: nat)
    ensures Value(D3(n)) == n && (forall c | c in D3(n) :: '0' <= c <= '9')
    ensures |D3(n)| >= 3 && (|D3(n)| > 3 ==> D3(n)[0] != '0')
  {
    DigitsRead(n);
    DigitsCount(n);
    if n < 100 {
      LeadingZero(Digits(n));
    }
    if n < 10 {
      LeadingZero("0" + Digits(n));
      assert "00" + Digits(n) == "0" + ("0" + Digits(n));
    }
  }

  lemma SameTail(a: string, y: string, b: string, z: string)
    requires |y| == |z| && a + "-" + y == b + "-" + z
    ensures a == b && y == z
  {
    var whole, other := a + "-" + y, b + "-" + z;
    assert whole[..|a|] == a && other[..|b|] == b;
    assert whole[|a| + 1..] == y && other[|b| + 1..] == z;
  }

  lemma NoDash(s: string)
    requires forall c | c in s :: '0' <= c <= '9'
    ensures '-' !in s
  {
  }

  lemma LastDashSplits(a: string, d: string, b: string, e: string)
    requires a + "-" + d == b + "-" + e && '-' !in d && '-' !in e
    ensures a == b && d == e
  {
    var whole := a + "-" + d;
    assert whole[|a|] == '-' && (b + "-" + e)[|b|] == '-';
    assert forall i | |a| < i < |whole| :: whole[i] == d[i - |a| - 1];
    assert forall i | |b| < i < |whole| :: whole[i] == e[i - |b| - 1];
    assert whole[..|a|] == a && (b + "-" + e)[..|b|] == b;
    assert whole[|a| + 1..] == d && (b + "-" + e)[|b| + 1..] == e;
  }

  /** Read from the right, a formatted identifier gives back all three parts, whatever the prefix contains. */
  lemma FormatIsInjective(p: string, m: nat, y: string, q: string, n: nat, z: string)
    requires |y| == |z| && Format(p, m, y) == Format(q, n, z)
    ensures p == q && m == n && y == z
  {
    SameTail(p + "-" + D3(m), y, q + "-" + D3(n), z);
    D3Reads(m);
    D3Reads(n);
    NoDash(D3(m));
    NoDash(D3(n));
    LastDashSplits(p, D3(m), q, D3(n));
  }

  lemma ScopeIsInjective(p: string, y: string, q: string, z: string)
    requires |y| == |z| && Scope(p, y) == Scope(q, z)
    ensures p == q && y == z
  {
    var a, b := Scope(p, y), Scope(q, z);
    assert p == a[..|p|] && q == b[..|q|] && y == a[|p| + 1..] && z == b[|q| + 1..];
  }

  /*************** The allocator ***************/

  datatype Overflow = Overflow

  datatype Identities = Identities(shortIds: set<string>, nextNumbers: map<string, nat>)

  function NextNumber(s: Identities, prefix: string, year: string): nat {
    if Scope(prefix, year) in s.nextNumbers then s.nextNumbers[Scope(prefix, year)] else 0
  }

  /** The first free number from n on, if any is left before the counter overflows. */
  function FirstFree(ids: set<string>, prefix: string, year: string, n: nat): (r: Option<nat>)
    ensures r.Some? ==> n <= r.value < MAX && Format(prefix, r.value, year) !in ids
    ensures forall k | n <= k < if r.Some? then r.value else MAX :: Format(prefix, k, year) in ids
    decreases MAX - n
  {
    if n >= MAX then None
    else if Format(prefix, n, year) !in ids then Some(n)
    else FirstFree(ids, prefix, year, n + 1)
  }

  /** The granted short identifier; None when the supplied one is taken. */
  function Grant(s: Identities, prefix: string, source: Option<string>, year: string)
      : (Identities, Result<Option<string>, Overflow>) {
    match source
    case Some(id) => if id in s.shortIds then (s, Success(None))
      else (s.(shortIds := s.shortIds + {id}), Success(Some(id)))
    case None =>
      match FirstFree(s.shortIds, prefix, year, NextNumber(s, prefix, year))
      case None => (s, Failure(Overflow))
      case Some(n) =>
        var id := Format(prefix, n, year);
        (Identities(s.shortIds + {id}, s.nextNumbers[Scope(prefix, year) := n + 1]), Success(Some(id)))
  }

  /** Where a search that tries one number after the other ends up. */
  lemma FirstFreeIs(ids: set<string>, prefix: string, year: string, start: nat, n: nat)
    requires start <= n && forall k | start <= k < n :: Format(prefix, k, year) in ids
    ensures n < MAX && Format(prefix, n, year) !in ids ==> FirstFree(ids, prefix, year, start) == Some(n)
    ensures n >= MAX ==> FirstFree(ids, prefix, year, start) == None
  {
  }

  class PackageIdentityService {
    var shortIds: set<string>
    var nextNumbers: map<string, nat>

    constructor ()
      ensures State() == Identities({}, map[])
    {
      shortIds, nextNumbers := {}, map[];
    }

    function State(): Identities
      reads this
    {
      Identities(shortIds, nextNumbers)
    }

    /** The search tries at most one number more than there are reservations. */
    method Reserve(prefix: string, source: Option<string>, year: string)
        returns (r: Result<Option<string>, Overflow>, attempts: nat)
      modifies this
      ensures (State(), r) == Grant(old(State()), prefix, source, year)
      ensures attempts <= |old(shortIds)| + 1
    {
      attempts := 0;
      var shortId := "";
      if source.None? {
        var scope := Scope(prefix, year);
        var number := if scope in nextNumbers then nextNumbers[scope] else 0;
        ghost var start := number;
        var taken := true;
        while taken
          invariant start <= number && attempts == number - start
          invariant shortIds == old(shortIds) && nextNumbers == old(nextNumbers)
          invariant forall k | start <= k < if taken then number else number - 1 :: Format(prefix, k, year) in shortIds
          invariant !taken ==>
            start < number <= MAX && shortId == Format(prefix, number - 1, year) && shortId !in shortIds
          decreases taken, MAX - number
        {
          shortId := Format(prefix, number, year);
          if number >= MAX {
            AttemptsAreBounded(shortIds, prefix, year, start, number);
            FirstFreeIs(shortIds, prefix, year, start, number);
            return Failure(Overflow), attempts;
          }
          number, attempts := number + 1, attempts + 1;
          taken := shortId in shortIds;
        }
        AttemptsAreBounded(shortIds, prefix, year, start, number - 1);
        FirstFreeIs(shortIds, prefix, year, start, number - 1);
        nextNumbers := nextNumbers[scope := number];
      } else {
        shortId := source.value;
      }
      if shortId in shortIds {
        return Success(None), attempts;
      }
      shortIds := shortIds + {shortId};
      return Success(Some(shortId)), attempts;
    }

    method Release(shortId: string)
      modifies this`shortIds
      ensures shortIds == old(shortIds) - {shortId}
    {
      shortIds := shortIds - {shortId};
    }
  }

  /** Numbers tried in vain have different identifiers, all reserved. */
  lemma {:induction false} AttemptsAreBounded(ids: set<string>, prefix: string, year: string, start: nat, n: nat)
    requires start <= n && forall k | start <= k < n :: Format(prefix, k, year) in ids
    ensures n - start <= |ids|
    decreases n - start
  {
    if start < n {
      var last := Format(prefix, n - 1, year);
      forall k | start <= k < n - 1
        ensures Format(prefix, k, year) in ids - {last}
      {
        if Format(prefix, k, year) == last {
          FormatIsInjective(prefix, k, year, prefix, n - 1, year);
        }
      }
      AttemptsAreBounded(ids - {last}, prefix, year, start, n - 1);
    }
  }

  /** In an unused scope the first number is zero, and the next one is one more than the last. */
  lemma NumbersStartAtZero(prefix: string, year: string, taken: set<string>, n: nat)
    requires prefix + "-000-" + year !in taken
    ensures Grant(Identities(taken, map[]), prefix, None, year) ==
            (Identities(taken + {prefix + "-000-" + year}, map[prefix + "-" + year := 1]),
             Success(Some(prefix + "-000-" + year)))
    ensures n < MAX && Format(prefix, n, year) !in taken ==>
      Grant(Identities(taken, map[prefix + "-" + year := n]), prefix, None, year) ==
      (Identities(taken + {Format(prefix, n, year)}, map[prefix + "-" + year := n + 1]),
       Success(Some(Format(prefix, n, year))))
  {
    assert Digits(0) == "0";
    assert D3(0) == "000";
    assert prefix + "-" + "000" + "-" + year == prefix + "-000-" + year;
    assert map[prefix + "-" + year := n][prefix + "-" + year := n + 1] == map[prefix + "-" + year := n + 1];
  }

  /*************** Every sequence of calls ***************/

  /** Two-digit years only. */
  datatype Call = ReserveCall(prefix: string, source: Option<string>, year: string) | ReleaseCall(shortId: string)

  predicate WellFormed(call: Call) {
    call.ReserveCall? ==> |call.year| == 2
  }

  datatype Generated = Generated(prefix: string, number: nat, year: string) {
    function Id(): string {
      Format(prefix, number, year)
    }
  }

  /** The allocator with everything it ever generated, as parts and as it was returned. */
  datatype History = History(state: Identities, generated: seq<Generated>, returned: seq<string>)

  function Next(h: History, call: Call): History {
    match call
    case ReleaseCall(id) => h.(state := h.state.(shortIds := h.state.shortIds - {id}))
    case ReserveCall(prefix, source, year) =>
      var (after, r) := Grant(h.state, prefix, source, year);
      if source.Some? || r.Failure? || r.value.None? then h.(state := after)
      else History(after, h.generated + [Generated(prefix, NextNumber(after, prefix, year) - 1, year)],
                   h.returned + [r.value.value])
  }

  function Run(calls: seq<Call>): History {
    if calls == [] then History(Identities({}, map[]), [], []) else Next(Run(calls[..|calls| - 1]), calls[|calls| - 1])
  }

  /** After any calls one more behaves as the allocator does, and what it generates joins what was returned. */
  lemma CallIsRecorded(calls: seq<Call>, prefix: string, source: Option<string>, year: string, shortId: string)
    ensures var h := Run(calls);
            var after := Run(calls + [ReserveCall(prefix, source, year)]);
            var (state, r) := Grant(h.state, prefix, source, year);
            && after.state == state
            && after.returned == h.returned + (match r
                                               case Success(Some(id)) => if source.None? then [id] else []
                                               case _ => [])
    ensures Run(calls + [ReleaseCall(shortId)]) ==
            History(Identities(Run(calls).state.shortIds - {shortId}, Run(calls).state.nextNumbers),
                    Run(calls).generated, Run(calls).returned)
    ensures Run([]) == History(Identities({}, map[]), [], [])
  {
    var reserve, release := ReserveCall(prefix, source, year), ReleaseCall(shortId);
    assert (calls + [reserve])[..|calls|] == calls && (calls + [release])[..|calls|] == calls;
    assert Run(calls).returned + [] == Run(calls).returned;
  }

  predicate Inv(h: History) {
    && (forall g | g in h.generated :: |g.year| == 2 && g.number < NextNumber(h.state, g.prefix, g.year))
    && (forall i, j | 0 <= i < j < |h.generated| :: h.generated[i] != h.generated[j])
  }

  /** What was returned is what was generated. */
  predicate Recorded(h: History) {
    |h.returned| == |h.generated| && forall i | 0 <= i < |h.returned| :: h.returned[i] == h.generated[i].Id()
  }

  lemma NextKeepsRecorded(h: History, call: Call)
    requires Recorded(h)
    ensures Recorded(Next(h, call))
  {
  }

  lemma NextKeepsInv(h: History, call: Call)
    requires Inv(h) && WellFormed(call)
    ensures Inv(Next(h, call))
  {
    if call.ReserveCall? && call.source.None? && Grant(h.state, call.prefix, None, call.year).1.Success? {
      var after := Next(h, call);
      forall g | g in after.generated
        ensures |g.year| == 2 && g.number < NextNumber(after.state, g.prefix, g.year)
      {
        if Scope(g.prefix, g.year) == Scope(call.prefix, call.year) {
          ScopeIsInjective(g.prefix, g.year, call.prefix, call.year);
        }
      }
    }
  }

  /** Over any calls no generated short identifier is returned twice, not even one that was released in between. */
  lemma {:induction false} NeverGeneratedTwice(calls: seq<Call>)
    requires forall call | call in calls :: WellFormed(call)
    ensures Inv(Run(calls)) && Recorded(Run(calls))
    ensures var ids := Run(calls).returned; forall i, j | 0 <= i < j < |ids| :: ids[i] != ids[j]
    decreases |calls|
  {
    if calls != [] {
      NeverGeneratedTwice(calls[..|calls| - 1]);
      NextKeepsInv(Run(calls[..|calls| - 1]), calls[|calls| - 1]);
      NextKeepsRecorded(Run(calls[..|calls| - 1]), calls[|calls| - 1]);
    }
    var ids := Run(calls).generated;
    forall i, j | 0 <= i < j < |ids|
      ensures Run(calls).returned[i] != Run(calls).returned[j]
    {
      if ids[i].Id() == ids[j].Id() {
        FormatIsInjective(ids[i].prefix, ids[i].number, ids[i].year, ids[j].prefix, ids[j].number, ids[j].year);
      }
    }
  }

  /**
   * A grant is never a live reservation, so live ones stay distinct; a supplied identifier is refused exactly when
   * live; a generated one is never refused, and is the smallest free number of its scope from the counter on.
   */
  lemma GrantsAreFresh(s: Identities, prefix: string, source: Option<string>, year: string)
    ensures var (after, r) := Grant(s, prefix, source, year);
      && (r.Success? && r.value.Some? ==>
           r.value.value !in s.shortIds && after.shortIds == s.shortIds + {r.value.value})
      && (r == Success(None) <==> source.Some? && source.value in s.shortIds)
      && (r.Failure? <==> source.None? && forall k | NextNumber(s, prefix, year) <= k < MAX ::
           Format(prefix, k, year) in s.shortIds)
      && (r.Success? && source.None? ==>
           var n := NextNumber(after, prefix, year) - 1;
           && NextNumber(s, prefix, year) <= n < MAX && r.value == Some(Format(prefix, n, year))
           && forall k | NextNumber(s, prefix, year) <= k < n :: Format(prefix, k, year) in s.shortIds)
      && (r.Failure? ==> after == s && MAX - NextNumber(s, prefix, year) <= |s.shortIds|)
  {
    var start := NextNumber(s, prefix, year);
    if source.None? && FirstFree(s.shortIds, prefix, year, start).None? && start <= MAX {
      AttemptsAreBounded(s.shortIds, prefix, year, start, MAX);
    }
  }
}
