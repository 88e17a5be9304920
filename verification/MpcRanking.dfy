// Grammars without left recursion: the rules can be ranked exactly if none of them leads back to itself in leftmost position.
module MpcRanking {
  import opened MpcTypes
  import opened MpcBigStep
  import opened MpcCursors
  import opened MpcAdequacy
  import opened MpcTermination

  /** p refers to the rule name where it may not have read anything yet. */
  predicate RefersLeft(p: Parser, name: string, empty: set<string>) {
    if IsUnary(p) || IsRepeat(p) then RefersLeft(p.x, name, empty)
    else if p.Or? then exists i :: 0 <= i < |p.xs| && RefersLeft(p.xs[i], name, empty)
    else if p.And? then exists i :: 0 <= i < |p.xs| && AllEmpty(p.xs[..i], empty) && RefersLeft(p.xs[i], name, empty)
    else p == Ref(name)
  }

  predicate AllEmpty(xs: seq<Parser>, empty: set<string>) {
    forall i :: 0 <= i < |xs| ==> MayBeEmpty(xs[i], empty)
  }

  /** p repeats no parser that may read nothing. */
  predicate Steady(p: Parser, empty: set<string>) {
    if IsUnary(p) || IsRepeat(p) then Steady(p.x, empty) && (IsRepeat(p) ==> !MayBeEmpty(p.x, empty))
    else p.Or? || p.And? ==> forall i :: 0 <= i < |p.xs| ==> Steady(p.xs[i], empty)
  }

  /** From rule a, n references in leftmost position lead to rule b. */
  ghost predicate Leads(g: Grammar, empty: set<string>, a: string, b: string, n: nat)
    requires a in g
    decreases n
  {
    if n == 0 then a == b
    else exists c :: c in g && RefersLeft(g[a], c, empty) && Leads(g, empty, c, b, n - 1)
  }

  /** No rule refers to itself on the left, directly or indirectly. */
  ghost predicate NotLeftRecursive(g: Grammar, empty: set<string>) {
    forall a, n: nat :: a in g && n > 0 ==> !Leads(g, empty, a, a, n)
  }

  ghost predicate AllSteady(g: Grammar, empty: set<string>) {
    forall name :: name in g ==> Steady(g[name], empty)
  }

  /** The rules that a leads to. */
  ghost function Below(g: Grammar, empty: set<string>, a: string): set<string>
    requires a in g
  {
    set b | b in g && exists n: nat :: n > 0 && Leads(g, empty, a, b, n)
  }

  /** Each rule is ranked by the number of rules it leads to. */
  ghost function Ranks(g: Grammar, empty: set<string>): Ranking {
    Ranking(empty, map a | a in g :: |Below(g, empty, a)|, |g| + 1)
  }

  lemma BelowFalls(g: Grammar, empty: set<string>, a: string, c: string)
    requires NotLeftRecursive(g, empty) && a in g && c in g && RefersLeft(g[a], c, empty)
    ensures |Below(g, empty, c)| < |Below(g, empty, a)|
  {
    assert Leads(g, empty, c, c, 0);
    assert Leads(g, empty, a, c, 1);
    forall b | b in Below(g, empty, c) ensures b in Below(g, empty, a) {
      var n: nat :| n > 0 && Leads(g, empty, c, b, n);
      assert Leads(g, empty, a, b, n + 1);
    }
    assert c in Below(g, empty, a) && c !in Below(g, empty, c);
    Fewer(Below(g, empty, c), Below(g, empty, a));
  }

  lemma Fewer(s: set<string>, t: set<string>)
    requires s < t
    ensures |s| < |t|
  {
    assert t == s + (t - s) && t - s != {};
  }

  lemma NoMore(s: set<string>, t: set<string>)
    requires s <= t
    ensures |s| <= |t|
  {
    assert t == s + (t - s);
  }

  /** All references of p to rules are ranked below r, those further right below the limit. */
  ghost predicate RankedBelow(g: Grammar, p: Parser, k: Ranking, r: nat) {
    forall name :: name in g && RefersLeft(p, name, k.empty) ==> name in k.rank && k.rank[name] < r
  }

  /** Whether all rules have a rank below the limit. */
  ghost predicate Limited(g: Grammar, k: Ranking) {
    forall name :: name in g ==> name in k.rank && k.rank[name] < k.limit
  }

  lemma AndRanked(g: Grammar, p: Parser, k: Ranking, r: nat)
    requires p.And? && Limited(g, k)
    ensures RankedBelow(g, p, k, r) <==> forall i :: 0 <= i < |p.xs| ==> RankedBelow(g, p.xs[i], k, LeftBound(p.xs, i, k, r))
  {
    forall i | 0 <= i < |p.xs|
      ensures LeftBound(p.xs, i, k, r) == if AllEmpty(p.xs[..i], k.empty) then r else k.limit
    {
      LeftBoundIs(p.xs, i, k, r);
    }
    hide LeftBound, AllEmpty;
    if forall i :: 0 <= i < |p.xs| ==> RankedBelow(g, p.xs[i], k, LeftBound(p.xs, i, k, r)) {
      forall name | name in g && RefersLeft(p, name, k.empty) ensures name in k.rank && k.rank[name] < r {
        var i :| 0 <= i < |p.xs| && AllEmpty(p.xs[..i], k.empty) && RefersLeft(p.xs[i], name, k.empty);
        assert RankedBelow(g, p.xs[i], k, LeftBound(p.xs, i, k, r));
      }
    }
  }

  lemma LeftBoundIs(xs: seq<Parser>, i: nat, k: Ranking, r: nat)
    requires i <= |xs|
    ensures LeftBound(xs, i, k, r) == if AllEmpty(xs[..i], k.empty) then r else k.limit
  {
    if AllEmpty(xs[..i], k.empty) {
      forall j | 0 <= j < i ensures MayBeEmpty(xs[j], k.empty) {
        assert xs[..i][j] == xs[j];
      }
    }
  }

  lemma OrRanked(g: Grammar, p: Parser, k: Ranking, r: nat)
    requires p.Or?
    ensures RankedBelow(g, p, k, r) <==> forall i :: 0 <= i < |p.xs| ==> RankedBelow(g, p.xs[i], k, r)
  {
    if forall i :: 0 <= i < |p.xs| ==> RankedBelow(g, p.xs[i], k, r) {
      forall name | name in g && RefersLeft(p, name, k.empty) ensures name in k.rank && k.rank[name] < r {
        var i :| 0 <= i < |p.xs| && RefersLeft(p.xs[i], name, k.empty);
        assert RankedBelow(g, p.xs[i], k, r);
      }
    }
  }

  ghost predicate RanksWell(g: Grammar, p: Parser, k: Ranking, r: nat) {
    WellFormed(g, p, k, r) <==> Steady(p, k.empty) && RankedBelow(g, p, k, r)
  }

  lemma InnerRanks(g: Grammar, p: Parser, k: Ranking, r: nat)
    requires (IsUnary(p) || IsRepeat(p)) && RanksWell(g, p.x, k, r)
    ensures RanksWell(g, p, k, r)
  {
    hide MayBeEmpty;
  }

  lemma OrRanks(g: Grammar, p: Parser, k: Ranking, r: nat)
    requires p.Or? && forall i :: 0 <= i < |p.xs| ==> RanksWell(g, p.xs[i], k, r)
    ensures RanksWell(g, p, k, r)
  {
    OrRanked(g, p, k, r);
    hide RankedBelow;
  }

  lemma AndRanks(g: Grammar, p: Parser, k: Ranking, r: nat)
    requires Limited(g, k) && p.And? && forall i :: 0 <= i < |p.xs| ==> RanksWell(g, p.xs[i], k, LeftBound(p.xs, i, k, r))
    ensures RanksWell(g, p, k, r)
  {
    AndRanked(g, p, k, r);
    hide RankedBelow, LeftBound;
  }

  lemma OtherRanks(g: Grammar, p: Parser, k: Ranking, r: nat)
    requires !IsUnary(p) && !IsRepeat(p) && !p.Or? && !p.And?
    ensures RanksWell(g, p, k, r)
  {
  }

  /** A parser is well-formed if and only if it is steady and the ranks of its leftmost references fall. */
  lemma {:induction false} RankedIsWellFormed(g: Grammar, p: Parser, k: Ranking, r: nat)
    requires Limited(g, k)
    ensures RanksWell(g, p, k, r)
    decreases p
  {
    hide Limited, RanksWell;
    if IsUnary(p) || IsRepeat(p) {
      RankedIsWellFormed(g, p.x, k, r);
      InnerRanks(g, p, k, r);
    } else if p.Or? {
      forall i | 0 <= i < |p.xs| ensures RanksWell(g, p.xs[i], k, r) {
        RankedIsWellFormed(g, p.xs[i], k, r);
      }
      OrRanks(g, p, k, r);
    } else if p.And? {
      forall i | 0 <= i < |p.xs| ensures RanksWell(g, p.xs[i], k, LeftBound(p.xs, i, k, r)) {
        RankedIsWellFormed(g, p.xs[i], k, LeftBound(p.xs, i, k, r));
      }
      AndRanks(g, p, k, r);
    } else {
      OtherRanks(g, p, k, r);
    }
  }

  lemma RanksAreLimited(g: Grammar, empty: set<string>)
    ensures Limited(g, Ranks(g, empty))
  {
    forall a | a in g ensures |Below(g, empty, a)| <= |g| {
      NoMore(Below(g, empty, a), g.Keys);
      assert |g.Keys| == |g|;
    }
  }

  /** A grammar without left recursion, and without repetition of what may be empty, has a ranking. */
  lemma HasRanking(g: Grammar, empty: set<string>)
    requires EmptyRules(g, empty) && AllSteady(g, empty) && NotLeftRecursive(g, empty)
    ensures WellFormedGrammar(g, Ranks(g, empty))
  {
    hide NotLeftRecursive, EmptyRules, Steady, RefersLeft, WellFormed, Below;
    var k := Ranks(g, empty);
    RanksAreLimited(g, empty);
    forall a | a in g ensures WellFormed(g, g[a], k, k.rank[a]) {
      forall c | c in g && RefersLeft(g[a], c, empty) ensures k.rank[c] < k.rank[a] {
        BelowFalls(g, empty, a, c);
      }
      RankedIsWellFormed(g, g[a], k, k.rank[a]);
    }
  }

  lemma {:induction false} RanksFall(g: Grammar, k: Ranking, a: string, b: string, n: nat)
    requires Limited(g, k) && (forall name :: name in g ==> RankedBelow(g, g[name], k, k.rank[name]))
    requires a in g && Leads(g, k.empty, a, b, n)
    ensures b in g && k.rank[b] + n <= k.rank[a]
    decreases n
  {
    hide RefersLeft;
    if n > 0 {
      var c :| c in g && RefersLeft(g[a], c, k.empty) && Leads(g, k.empty, c, b, n - 1);
      RanksFall(g, k, c, b, n - 1);
      assert RankedBelow(g, g[a], k, k.rank[a]);
    }
  }

  /** And only such a grammar has one. */
  lemma RankedIsNotLeftRecursive(g: Grammar, k: Ranking)
    requires WellFormedGrammar(g, k)
    ensures EmptyRules(g, k.empty) && AllSteady(g, k.empty) && NotLeftRecursive(g, k.empty)
  {
    hide EmptyRules, Steady, RankedBelow, WellFormed, Leads;
    forall name | name in g ensures Steady(g[name], k.empty) && RankedBelow(g, g[name], k, k.rank[name]) {
      RankedIsWellFormed(g, g[name], k, k.rank[name]);
    }
    forall a, n: nat | a in g && n > 0 ensures !Leads(g, k.empty, a, a, n) {
      if Leads(g, k.empty, a, a, n) {
        RanksFall(g, k, a, a, n);
      }
    }
  }

  lemma SteadyIsWellFormed(g: Grammar, p: Parser, empty: set<string>)
    requires Steady(p, empty)
    ensures var k := Ranks(g, empty); k.empty == empty && WellFormed(g, p, k, k.limit)
  {
    hide Steady, RefersLeft, WellFormed, Below;
    var k := Ranks(g, empty);
    RanksAreLimited(g, empty);
    RankedIsWellFormed(g, p, k, k.limit);
  }

  /** Without left recursion, and without repetition of what may be empty, every parser terminates on every input. */
  lemma NotLeftRecursiveTerminates(g: Grammar, txt: string, p: Parser, bt: int, w: World, empty: set<string>)
    requires EmptyRules(g, empty) && AllSteady(g, empty) && NotLeftRecursive(g, empty)
    requires Steady(p, empty) && AtText(txt, w.cur)
    ensures Terminates(g, txt, Resolve(g, p), bt, w)
  {
    hide Steady, Ranks, WellFormed, EmptyRules, AllSteady, NotLeftRecursive, WellFormedGrammar, AtText, Terminates;
    HasRanking(g, empty);
    SteadyIsWellFormed(g, p, empty);
    WellFormedTerminates(g, txt, p, bt, w, Ranks(g, empty));
  }
}
