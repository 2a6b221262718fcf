/** `SearchAndReplace` of src/common.cpp. */
module Replace {
  import opened Text

  datatype Rule = Rule(pattern: string, replacement: string)

  predicate Usable(rules: seq<Rule>) {
    forall r | r in rules :: r.pattern != ""
  }

  // ----- The declarative rewriting -----

  /** PairStringLengthCompare */
  predicate LongerPattern(a: Rule, b: Rule) {
    |a.pattern| > |b.pattern|
  }

  /** At position `i` rule `k` applies: it occurs there, no longer pattern does, and no earlier
      rule with a pattern as long does. */
  predicate Applies(s: string, rules: seq<Rule>, i: nat, k: nat) {
    && k < |rules|
    && OccursAt(s, rules[k].pattern, i)
    && (forall m | 0 <= m < |rules| && OccursAt(s, rules[m].pattern, i) ::
          |rules[m].pattern| < |rules[k].pattern| || (|rules[m].pattern| == |rules[k].pattern| && k <= m))
  }

  predicate NothingOccurs(s: string, rules: seq<Rule>, i: nat) {
    forall m | 0 <= m < |rules| :: !OccursAt(s, rules[m].pattern, i)
  }

  /** A reading of the input: single characters kept, and hits replaced. */
  datatype Token = Keep(c: char) | Hit(rule: nat)

  function Length(rules: seq<Rule>, t: Token): nat {
    if t.Hit? && t.rule < |rules| then |rules[t.rule].pattern| else 1
  }

  /** What a reading has to do at position `i`. */
  ghost predicate ReadsToken(s: string, rules: seq<Rule>, i: nat, t: Token)
    requires i < |s|
  {
    match t
    case Keep(c) => s[i] == c && NothingOccurs(s, rules, i)
    case Hit(k) => Applies(s, rules, i, k)
  }

  lemma AtMostOneToken(s: string, rules: seq<Rule>, i: nat, t: Token, u: Token)
    requires i < |s| && ReadsToken(s, rules, i, t) && ReadsToken(s, rules, i, u)
    ensures t == u
  {
    if t.Hit? { assert OccursAt(s, rules[t.rule].pattern, i); }
    if u.Hit? { assert OccursAt(s, rules[u.rule].pattern, i); }
  }

  /** `ts` reads `s` from position `i` to its end: a character is kept only where no pattern
      occurs, and a hit is always the rule that applies there. */
  ghost predicate Reads(s: string, rules: seq<Rule>, i: nat, ts: seq<Token>)
    decreases |ts|
  {
    if ts == [] then i == |s|
    else
      i < |s| && ReadsToken(s, rules, i, ts[0]) && Reads(s, rules, i + Length(rules, ts[0]), ts[1..])
  }

  /** `out` followed by the text of the tokens, hits replaced. */
  function Render(rules: seq<Rule>, ts: seq<Token>, out: string): string
    decreases |ts|
  {
    if ts == [] then out else Render(rules, ts[1..], out + Replacement(rules, ts[0]))
  }

  function Replacement(rules: seq<Rule>, t: Token): string {
    match t
    case Keep(c) => [c]
    case Hit(k) => if k < |rules| then rules[k].replacement else ""
  }

  lemma PrependToken(s: string, rules: seq<Rule>, i: nat, t: Token, rest: seq<Token>, out: string)
    requires i < |s| && ReadsToken(s, rules, i, t) && Reads(s, rules, i + Length(rules, t), rest)
    ensures Reads(s, rules, i, [t] + rest)
    ensures Render(rules, [t] + rest, out) == Render(rules, rest, out + Replacement(rules, t))
  {
    assert ([t] + rest)[1..] == rest;
  }

  /** The rule that applies at `i`, or `|rules|` when none does. */
  ghost function RuleAt(s: string, rules: seq<Rule>, i: nat): nat {
    if NothingOccurs(s, rules, i) then |rules|
    else
      SomeRuleApplies(s, rules, i);
      var k: nat :| Applies(s, rules, i, k);
      k
  }

  lemma RuleAtApplies(s: string, rules: seq<Rule>, i: nat)
    ensures var k := RuleAt(s, rules, i);
            if k < |rules| then Applies(s, rules, i, k) else k == |rules| && NothingOccurs(s, rules, i)
  {
    if !NothingOccurs(s, rules, i) {
      SomeRuleApplies(s, rules, i);
    }
  }

  lemma {:induction false} BestAmongFirst(s: string, rules: seq<Rule>, i: nat, n: nat) returns (k: nat)
    requires n <= |rules|
    ensures k <= n
    ensures k == n ==> forall m | 0 <= m < n :: !OccursAt(s, rules[m].pattern, i)
    ensures k < n ==> OccursAt(s, rules[k].pattern, i)
    ensures k < n ==>
              forall m | 0 <= m < n && OccursAt(s, rules[m].pattern, i) ::
                |rules[m].pattern| < |rules[k].pattern| || (|rules[m].pattern| == |rules[k].pattern| && k <= m)
  {
    if n == 0 {
      k := 0;
    } else {
      k := BestAmongFirst(s, rules, i, n - 1);
      if OccursAt(s, rules[n - 1].pattern, i) {
        if k == n - 1 || LongerPattern(rules[n - 1], rules[k]) {
          k := n - 1;
        }
      } else if k == n - 1 {
        k := n;
      }
    }
  }

  lemma SomeRuleApplies(s: string, rules: seq<Rule>, i: nat)
    requires !NothingOccurs(s, rules, i)
    ensures exists k: nat :: Applies(s, rules, i, k)
  {
    var k := BestAmongFirst(s, rules, i, |rules|);
    assert Applies(s, rules, i, k);
  }

  /** For each position the rule that applies there, or `|rules|`. */
  ghost function Hits(s: string, rules: seq<Rule>): (hits: seq<nat>)
    ensures |hits| == |s|
  {
    seq(|s|, i requires 0 <= i < |s| => RuleAt(s, rules, i))
  }

  ghost predicate AreHits(s: string, rules: seq<Rule>, hits: seq<nat>) {
    && |hits| == |s|
    && forall i: nat {:trigger RuleAt(s, rules, i)} | i < |s| :: hits[i] == RuleAt(s, rules, i)
  }

  predicate HitsFit(s: string, rules: seq<Rule>, hits: seq<nat>) {
    && |hits| == |s|
    && forall i | 0 <= i < |s| && hits[i] < |rules| :: 0 < |rules[hits[i]].pattern| <= |s| - i
  }

  /** `out` followed by the text from `i` on with every hit replaced. */
  function Rewritten(s: string, rules: seq<Rule>, hits: seq<nat>, i: nat, out: string): string
    requires HitsFit(s, rules, hits) && i <= |s|
    decreases |s| - i
  {
    if i == |s| then out
    else if hits[i] < |rules| then
      Rewritten(s, rules, hits, i + |rules[hits[i]].pattern|, out + rules[hits[i]].replacement)
    else Rewritten(s, rules, hits, i + 1, out + [s[i]])
  }

  lemma HitsAlwaysFit(s: string, rules: seq<Rule>)
    requires Usable(rules)
    ensures HitsFit(s, rules, Hits(s, rules)) && AreHits(s, rules, Hits(s, rules))
  {
    forall i | 0 <= i < |s| && Hits(s, rules)[i] < |rules|
      ensures 0 < |rules[Hits(s, rules)[i]].pattern| <= |s| - i
    {
      var k := RuleAt(s, rules, i);
      RuleAtApplies(s, rules, i);
      assert rules[k] in rules;
      assert OccursAt(s, rules[k].pattern, i);
    }
  }

  lemma {:induction false} RewrittenGap(s: string, rules: seq<Rule>, hits: seq<nat>, i: nat, j: nat, out: string)
    requires HitsFit(s, rules, hits) && i <= j <= |s|
    requires forall p | i <= p < j :: hits[p] >= |rules|
    ensures Rewritten(s, rules, hits, i, out) == Rewritten(s, rules, hits, j, out + s[i..j])
    decreases j - i
  {
    if i < j {
      RewrittenGap(s, rules, hits, i + 1, j, out + [s[i]]);
      assert out + [s[i]] + s[i + 1..j] == out + s[i..j];
    } else {
      assert out + s[i..j] == out;
    }
  }

  /** The text after replacement. */
  ghost function Replaced(s: string, rules: seq<Rule>): string
    requires Usable(rules)
  {
    HitsAlwaysFit(s, rules);
    Rewritten(s, rules, Hits(s, rules), 0, "")
  }

  ghost function TokenAt(s: string, rules: seq<Rule>, i: nat): (t: Token)
    requires i < |s|
  {
    var k := RuleAt(s, rules, i);
    if k < |rules| then Hit(k) else Keep(s[i])
  }

  lemma TokenAtReads(s: string, rules: seq<Rule>, i: nat)
    requires i < |s|
    ensures ReadsToken(s, rules, i, TokenAt(s, rules, i))
  {
    RuleAtApplies(s, rules, i);
  }

  /** The rewriting is the rendering of every reading of the input. */
  lemma {:induction false} ReadingRendersRewritten(s: string, rules: seq<Rule>, hits: seq<nat>, i: nat,
      ts: seq<Token>, out: string)
    requires HitsFit(s, rules, hits) && AreHits(s, rules, hits) && Reads(s, rules, i, ts)
    ensures i <= |s| && Render(rules, ts, out) == Rewritten(s, rules, hits, i, out)
    decreases |ts|
  {
    if ts != [] {
      TokenAtReads(s, rules, i);
      AtMostOneToken(s, rules, i, ts[0], TokenAt(s, rules, i));
      ReadingRendersRewritten(s, rules, hits, i + Length(rules, ts[0]), ts[1..], out + Replacement(rules, ts[0]));
    }
  }

  /** Every input has a reading. */
  lemma {:induction false} SomeReading(s: string, rules: seq<Rule>, hits: seq<nat>, i: nat) returns (ts: seq<Token>)
    requires HitsFit(s, rules, hits) && AreHits(s, rules, hits) && i <= |s|
    ensures Reads(s, rules, i, ts)
    decreases |s| - i
  {
    if i == |s| {
      ts := [];
    } else {
      TokenAtReads(s, rules, i);
      var head := TokenAt(s, rules, i);
      var tail := SomeReading(s, rules, hits, i + Length(rules, head));
      PrependToken(s, rules, i, head, tail, "");
      ts := [head] + tail;
    }
  }

  /** `SearchAndReplace`: a reading exists, and the text after replacement renders every one. */
  lemma ReplacedIsTheReading(s: string, rules: seq<Rule>)
    requires Usable(rules)
    ensures exists ts :: Reads(s, rules, 0, ts)
    ensures forall ts | Reads(s, rules, 0, ts) :: Replaced(s, rules) == Render(rules, ts, "")
  {
    HitsAlwaysFit(s, rules);
    var some := SomeReading(s, rules, Hits(s, rules), 0);
    forall ts | Reads(s, rules, 0, ts) ensures Replaced(s, rules) == Render(rules, ts, "") {
      ReadingRendersRewritten(s, rules, Hits(s, rules), 0, ts, "");
    }
  }

  // ----- The replacement, from the front of the text -----

  lemma OccursInTail(s: string, p: string, n: nat, i: nat)
    requires n <= |s|
    ensures OccursAt(s[n..], p, i) <==> OccursAt(s, p, n + i)
  {
    if n + i + |p| <= |s| {
      OccursInSlice(s, p, n, |s|, i);
      assert s[n..|s|] == s[n..];
    }
  }

  lemma TokenInTail(s: string, rules: seq<Rule>, n: nat, i: nat, t: Token)
    requires n + i < |s| && ReadsToken(s[n..], rules, i, t)
    ensures ReadsToken(s, rules, n + i, t)
  {
    forall m | 0 <= m < |rules|
      ensures OccursAt(s[n..], rules[m].pattern, i) <==> OccursAt(s, rules[m].pattern, n + i)
    {
      OccursInTail(s, rules[m].pattern, n, i);
    }
  }

  /** A reading of the end of a text reads the text from there. */
  lemma {:induction false} ReadsInTail(s: string, rules: seq<Rule>, n: nat, i: nat, ts: seq<Token>)
    requires n <= |s| && Reads(s[n..], rules, i, ts)
    ensures Reads(s, rules, n + i, ts)
    decreases |ts|
  {
    if ts != [] {
      TokenInTail(s, rules, n, i, ts[0]);
      ReadsInTail(s, rules, n, i + Length(rules, ts[0]), ts[1..]);
    }
  }

  lemma {:induction false} RenderBehind(rules: seq<Rule>, ts: seq<Token>, front: string, out: string)
    ensures Render(rules, ts, front + out) == front + Render(rules, ts, out)
    decreases |ts|
  {
    if ts != [] {
      var r := Replacement(rules, ts[0]);
      assert front + out + r == front + (out + r);
      RenderBehind(rules, ts[1..], front, out + r);
    }
  }

  lemma TokenFirst(s: string, rules: seq<Rule>, t: Token, n: nat)
    requires Usable(rules) && s != "" && ReadsToken(s, rules, 0, t) && n == Length(rules, t) <= |s|
    ensures Replaced(s, rules) == Replacement(rules, t) + Replaced(s[n..], rules)
  {
    var rest := s[n..];
    HitsAlwaysFit(rest, rules);
    var ts := SomeReading(rest, rules, Hits(rest, rules), 0);
    ReadsInTail(s, rules, n, 0, ts);
    PrependToken(s, rules, 0, t, ts, "");
    ReplacedIsTheReading(s, rules);
    ReplacedIsTheReading(rest, rules);
    RenderBehind(rules, ts, Replacement(rules, t), "");
    assert "" + Replacement(rules, t) == Replacement(rules, t) + "";
  }

  /** Where patterns begin the text, the longest of them is replaced, the earliest of those as long, and
      the replacement goes on behind it; what it put there is not searched again. */
  lemma LongestIsReplaced(s: string, rules: seq<Rule>, k: nat)
    requires Usable(rules) && k < |rules| && rules[k].pattern <= s
    requires forall m | 0 <= m < |rules| && m != k && rules[m].pattern <= s ::
               |rules[m].pattern| < |rules[k].pattern| || (|rules[m].pattern| == |rules[k].pattern| && k < m)
    ensures Replaced(s, rules) == rules[k].replacement + Replaced(s[|rules[k].pattern|..], rules)
  {
    assert rules[k] in rules;
    TokenFirst(s, rules, Hit(k), |rules[k].pattern|);
  }

  /** Where none does, the first character stays, and the replacement goes on behind it. */
  lemma OthersAreKept(s: string, rules: seq<Rule>)
    requires Usable(rules) && forall m | 0 <= m < |rules| :: !(rules[m].pattern <= s)
    ensures Replaced(s, rules) == if s == "" then "" else [s[0]] + Replaced(s[1..], rules)
  {
    if s != "" {
      TokenFirst(s, rules, Keep(s[0]), 1);
    }
  }

  // ----- Sorting the rules, longest pattern first -----

  /** An index paired with its rule, so that stability can be stated. */
  datatype Ranked = Ranked(rule: Rule, index: nat)

  function Rank(rules: seq<Rule>): (r: seq<Ranked>)
    ensures |r| == |rules|
    ensures forall i | 0 <= i < |r| :: r[i] == Ranked(rules[i], i)
  {
    seq(|rules|, i requires 0 <= i < |rules| => Ranked(rules[i], i))
  }

  /** Sorted by pattern length, descending, equal lengths in the original order. */
  predicate InOrder(rs: seq<Ranked>) {
    forall i, j | 0 <= i < j < |rs| :: Before(rs[i], rs[j])
  }

  predicate Before(a: Ranked, b: Ranked) {
    LongerPattern(a.rule, b.rule) || (|a.rule.pattern| == |b.rule.pattern| && a.index < b.index)
  }

  /** std::stable_sort with PairStringLengthCompare, carrying the original indices. */
  function StableSort(rs: seq<Ranked>): (r: seq<Ranked>)
    requires forall i, j | 0 <= i < j < |rs| :: rs[i].index < rs[j].index
    ensures InOrder(r)
    ensures forall x :: x in r <==> x in rs
  {
    if rs == [] then []
    else
      var init := rs[..|rs| - 1];
      var last := rs[|rs| - 1];
      assert forall x :: x in rs <==> x in init || x == last;
      Insert(StableSort(init), last)
  }

  /** Puts `x`, which comes after everything sorted so far, behind all patterns as long as its own. */
  function Insert(rs: seq<Ranked>, x: Ranked): (r: seq<Ranked>)
    requires InOrder(rs) && forall y | y in rs :: y.index < x.index
    ensures InOrder(r)
    ensures forall y :: y in r <==> y in rs || y == x
  {
    if rs == [] then [x]
    else if LongerPattern(x.rule, rs[0].rule) then
      assert forall y | y in rs :: Before(x, y);
      [x] + rs
    else
      assert forall y | y in rs[1..] :: y in rs && Before(rs[0], y);
      var tail := Insert(rs[1..], x);
      assert forall y | y in tail :: Before(rs[0], y);
      [rs[0]] + tail
  }

  // ----- The code -----

  predicate NonEmptyPatterns(pairs: seq<Ranked>) {
    forall q | 0 <= q < |pairs| :: pairs[q].rule.pattern != ""
  }

  /** The earliest hit at or after `start`, and the first pair of the sorted list that has it;
      `next == |s|` stands for npos. */
  ghost predicate Earliest(s: string, pairs: seq<Ranked>, start: nat, next: nat, best: nat)
    requires start <= |s| && NonEmptyPatterns(pairs)
  {
    && start <= next <= |s|
    && (forall q | 0 <= q < |pairs| :: Find(s, pairs[q].rule.pattern, start) >= next)
    && (next < |s| ==>
          && best < |pairs| && OccursAt(s, pairs[best].rule.pattern, next)
          && forall q | 0 <= q < best :: Find(s, pairs[q].rule.pattern, start) > next)
  }

  /** The rules with their indices, longest pattern first, each rule once, equal lengths in order. */
  ghost predicate SortedPairs(rules: seq<Rule>, pairs: seq<Ranked>) {
    && InOrder(pairs)
    && NonEmptyPatterns(pairs)
    && (forall q | 0 <= q < |pairs| :: pairs[q].index < |rules| && pairs[q].rule == rules[pairs[q].index])
    && (forall m | 0 <= m < |rules| :: Ranked(rules[m], m) in pairs)
  }

  lemma PairsAreSorted(rules: seq<Rule>)
    requires Usable(rules)
    ensures SortedPairs(rules, StableSort(Rank(rules)))
  {
    var pairs := StableSort(Rank(rules));
    forall m | 0 <= m < |rules| ensures Ranked(rules[m], m) in pairs {
      assert Rank(rules)[m] == Ranked(rules[m], m);
    }
    forall q | 0 <= q < |pairs|
      ensures pairs[q].index < |rules| && pairs[q].rule == rules[pairs[q].index] && pairs[q].rule.pattern != ""
    {
      assert pairs[q] in pairs;
      assert pairs[q].rule in rules;
    }
  }

  /** Nothing occurs before the earliest hit, and nothing that occurs there is preferred to it. */
  lemma NothingBeatsEarliest(s: string, rules: seq<Rule>, pairs: seq<Ranked>, start: nat, next: nat, best: nat,
      p: nat, m: nat)
    requires start <= |s| && SortedPairs(rules, pairs) && Earliest(s, pairs, start, next, best)
    requires start <= p <= next && p < |s| && m < |rules| && OccursAt(s, rules[m].pattern, p)
    ensures p == next && (pairs[best] == Ranked(rules[m], m) || Before(pairs[best], Ranked(rules[m], m)))
  {
    assert Ranked(rules[m], m) in pairs;
    var q :| 0 <= q < |pairs| && pairs[q] == Ranked(rules[m], m);
    FindIsFirst(s, pairs[q].rule.pattern, start);
    assert Find(s, pairs[q].rule.pattern, start) <= p;
  }

  lemma EarliestHitApplies(s: string, rules: seq<Rule>, pairs: seq<Ranked>, start: nat, next: nat, best: nat)
    requires start <= |s| && SortedPairs(rules, pairs) && Earliest(s, pairs, start, next, best)
    ensures forall p | start <= p < next :: NothingOccurs(s, rules, p)
    ensures next < |s| ==> Applies(s, rules, next, pairs[best].index)
  {
    forall p | start <= p < next ensures NothingOccurs(s, rules, p) {
      if m: nat :| m < |rules| && OccursAt(s, rules[m].pattern, p) {
        NothingBeatsEarliest(s, rules, pairs, start, next, best, p, m);
      }
    }
    if next < |s| {
      forall m | 0 <= m < |rules| && OccursAt(s, rules[m].pattern, next)
        ensures pairs[best] == Ranked(rules[m], m) || Before(pairs[best], Ranked(rules[m], m))
      {
        NothingBeatsEarliest(s, rules, pairs, start, next, best, next, m);
      }
    }
  }

  /** `next` is the first hit at or after `start`, and `rule` the one that applies there. */
  ghost predicate NextHit(s: string, rules: seq<Rule>, hits: seq<nat>, start: nat, next: nat, rule: Rule)
    requires HitsFit(s, rules, hits)
  {
    && start <= next <= |s|
    && (forall p | start <= p < next :: hits[p] >= |rules|)
    && (next < |s| ==> hits[next] < |rules| && rule == rules[hits[next]])
  }

  lemma LoopStep(s: string, rules: seq<Rule>, hits: seq<nat>, start: nat, next: nat, rule: Rule, out: string)
    requires HitsFit(s, rules, hits) && NextHit(s, rules, hits, start, next, rule)
    ensures next == |s| ==> Rewritten(s, rules, hits, start, out) == out + s[start..]
    ensures next < |s| ==>
              && 0 < |rule.pattern| <= |s| - next
              && Rewritten(s, rules, hits, start, out) ==
                 Rewritten(s, rules, hits, next + |rule.pattern|, out + s[start..next] + rule.replacement)
  {
    RewrittenGap(s, rules, hits, start, next, out);
    if next == |s| { assert s[start..next] == s[start..]; }
  }

  method SearchAndReplace(input: string, rules: seq<Rule>) returns (out: string)
    requires Usable(rules)
    ensures out == Replaced(input, rules)
  {
    var pairs := StableSort(Rank(rules));
    PairsAreSorted(rules);
    HitsAlwaysFit(input, rules);
    out := ReplaceSorted(input, rules, pairs, Hits(input, rules));
  }

  /** The main loop; npos is `|s|`. */
  method ReplaceSorted(s: string, ghost rules: seq<Rule>, pairs: seq<Ranked>, ghost hits: seq<nat>)
    returns (out: string)
    requires Usable(rules) && SortedPairs(rules, pairs) && HitsFit(s, rules, hits) && AreHits(s, rules, hits)
    ensures out == Rewritten(s, rules, hits, 0, "")
  {
    out := "";
    var start := 0;
    while start < |s|
      invariant start <= |s|
      invariant Rewritten(s, rules, hits, start, out) == Rewritten(s, rules, hits, 0, "")
      decreases |s| - start
    {
      var next, best := EarliestHit(s, pairs, start);
      EarliestIsNextHit(s, rules, pairs, hits, start, next, best);
      LoopStep(s, rules, hits, start, next, HitRule(pairs, best), out);
      if next == |s| {
        out := out + s[start..];
        start := |s|;
        break;
      }
      out := out + s[start..next];
      out := out + pairs[best].rule.replacement;
      start := next + |pairs[best].rule.pattern|;
    }
  }

  /** What the inner loop knows behind the first m pairs. */
  ghost predicate EarliestOf(s: string, pairs: seq<Ranked>, start: nat, m: nat, next: nat, best: nat)
    requires start <= |s| && NonEmptyPatterns(pairs)
  {
    && m <= |pairs| && start <= next <= |s|
    && (forall q | 0 <= q < m :: Find(s, pairs[q].rule.pattern, start) >= next)
    && (next < |s| ==> best < m && Find(s, pairs[best].rule.pattern, start) == next)
    && (next < |s| ==> forall q | 0 <= q < best :: Find(s, pairs[q].rule.pattern, start) > next)
  }

  lemma OneMorePair(s: string, pairs: seq<Ranked>, start: nat, m: nat, next: nat, best: nat)
    requires start <= |s| && NonEmptyPatterns(pairs) && m < |pairs| && EarliestOf(s, pairs, start, m, next, best)
    ensures var index := Find(s, pairs[m].rule.pattern, start);
            if next == |s| || (index != |s| && index < next) then EarliestOf(s, pairs, start, m + 1, index, m)
            else EarliestOf(s, pairs, start, m + 1, next, best)
  {
    var index := Find(s, pairs[m].rule.pattern, start);
    if next == |s| || (index != |s| && index < next) {
      EarlierPair(s, pairs, start, m, next, best, index);
    }
  }

  lemma EarlierPair(s: string, pairs: seq<Ranked>, start: nat, m: nat, next: nat, best: nat, index: nat)
    requires start <= |s| && NonEmptyPatterns(pairs) && m < |pairs| && EarliestOf(s, pairs, start, m, next, best)
    requires index == Find(s, pairs[m].rule.pattern, start) && (index < next || next == |s|)
    ensures EarliestOf(s, pairs, start, m + 1, index, m)
  {
  }

  /** The inner loop over the sorted pairs. */
  method EarliestHit(s: string, pairs: seq<Ranked>, start: nat) returns (next: nat, best: nat)
    requires start <= |s| && NonEmptyPatterns(pairs)
    ensures Earliest(s, pairs, start, next, best)
    ensures next < |s| ==> best < |pairs|
  {
    next, best := |s|, 0;
    var m := 0;
    while m < |pairs|
      invariant m <= |pairs| && EarliestOf(s, pairs, start, m, next, best)
    {
      OneMorePair(s, pairs, start, m, next, best);
      var index := Find(s, pairs[m].rule.pattern, start);
      if next == |s| || (index != |s| && index < next) {
        next, best := index, m;
      }
      m := m + 1;
    }
  }

  function HitRule(pairs: seq<Ranked>, best: nat): Rule {
    if best < |pairs| then pairs[best].rule else Rule("", "")
  }

  lemma EarliestIsNextHit(s: string, rules: seq<Rule>, pairs: seq<Ranked>, hits: seq<nat>, start: nat, next: nat,
      best: nat)
    requires Usable(rules) && SortedPairs(rules, pairs) && HitsFit(s, rules, hits) && AreHits(s, rules, hits)
    requires start <= |s| && Earliest(s, pairs, start, next, best)
    ensures NextHit(s, rules, hits, start, next, HitRule(pairs, best))
  {
    EarliestHitApplies(s, rules, pairs, start, next, best);
    HitIsTheRule(s, rules, pairs, hits, start, next, best);
  }

  lemma HitIsTheRule(s: string, rules: seq<Rule>, pairs: seq<Ranked>, hits: seq<nat>, start: nat, next: nat, best: nat)
    requires SortedPairs(rules, pairs) && HitsFit(s, rules, hits) && AreHits(s, rules, hits)
    requires start <= next <= |s|
    requires forall p | start <= p < next :: NothingOccurs(s, rules, p)
    requires next < |s| ==> best < |pairs| && Applies(s, rules, next, pairs[best].index)
    ensures NextHit(s, rules, hits, start, next, HitRule(pairs, best))
  {
    forall p | start <= p < next ensures hits[p] >= |rules| {
      assert NothingOccurs(s, rules, p);
      RuleAtApplies(s, rules, p);
    }
    if next < |s| {
      RuleAtApplies(s, rules, next);
      AtMostOneToken(s, rules, next, Hit(pairs[best].index), TokenAt(s, rules, next));
    }
  }
}
