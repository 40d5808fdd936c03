/**
 Compiling a whole selector (`compile`) and running it over a list of elements (the function
 built by `matcherFromGroupMatchers`), when no group needs a positional pseudo.
 */
module SelectorRun {
  import opened Wrappers
  import opened Dom
  import opened Selectors
  import opened SelectorMeaning
  import opened MatcherCache

  type Groups = gs: seq<seq<Token>> | forall i | 0 <= i < |gs| :: gs[i] != [] witness []

  // ---------- compiling all groups ----------

  /** The element matchers `compile` has still to push when it is at index `i`, counting down. */
  function CompileFrom(groups: Groups, i: nat, done: nat): seq<Matcher>
    requires i <= |groups|
  {
    if i == 0 then []
    else
      var (m, next) := MatcherFromTokens(groups[i - 1], done);
      [m] + CompileFrom(groups, i - 1, next)
  }

  function AllWalks(matchers: seq<Matcher>): set<Matcher>
  {
    set i, w | 0 <= i < |matchers| && w in Walks(matchers[i]) :: w
  }

  ghost predicate NamesWithin(ws: set<Matcher>, lo: nat, hi: nat)
  {
    forall w :: w in ws && w.Walk? ==> lo <= w.doneName < hi
  }

  ghost predicate NamesFrom(ws: set<Matcher>, lo: nat)
  {
    forall w :: w in ws && w.Walk? ==> lo <= w.doneName
  }

  /** Fit for the cache: compounds test their combinator last and every name is used once. */
  ghost predicate Cacheable(matchers: seq<Matcher>)
  {
    NamesUnique(AllWalks(matchers)) && forall i | 0 <= i < |matchers| :: CombinatorLast(matchers[i])
  }

  lemma FoundationIsCacheable(tokens: seq<Token>, done: nat)
    requires tokens != []
    ensures var m := Foundation(tokens, done);
            CombinatorLast(m) && NamesUnique(Walks(m)) && NamesWithin(Walks(m), done, done + 2)
  {
    var m := Foundation(tokens, done);
    assert Walks(m.matchContext) == {m.matchContext};
    assert Walks(m.matchAnyContext) == {m.matchAnyContext};
  }

  lemma {:induction false} FoldIsCacheable(tokens: seq<Token>, i: nat, done: nat)
    requires tokens != [] && Start(tokens) <= i <= |tokens|
    ensures var (ms, next) := Fold(tokens, i, done);
            done < next && CombinatorLast(ms[0]) &&
            NamesUnique(Walks(ms[0])) && NamesWithin(Walks(ms[0]), done, next) &&
            forall j | 1 <= j < |ms| :: ms[j].Filter?
    decreases i
  {
    if i == Start(tokens) {
      FoundationIsCacheable(tokens, done);
    } else {
      FoldIsCacheable(tokens, i - 1, done);
      var (ms, next) := Fold(tokens, i - 1, done);
      if tokens[i - 1].Combinator? {
        ElementMatcherIsCacheable(ms);
      }
    }
  }

  lemma ElementMatcherIsCacheable(ms: seq<Matcher>)
    requires ms != [] && CombinatorLast(ms[0]) && forall j | 1 <= j < |ms| :: ms[j].Filter?
    ensures CombinatorLast(ElementMatcher(ms)) && Walks(ElementMatcher(ms)) == Walks(ms[0])
  {
    if |ms| > 1 {
      CompoundWalks(All(ms));
    }
  }

  lemma CompiledIsCacheable(tokens: seq<Token>, done: nat)
    requires tokens != []
    ensures var (m, next) := MatcherFromTokens(tokens, done);
            done < next && CombinatorLast(m) && NamesUnique(Walks(m)) && NamesWithin(Walks(m), done, next)
  {
    FoldIsCacheable(tokens, |tokens|, done);
    ElementMatcherIsCacheable(Fold(tokens, |tokens|, done).0);
  }

  lemma {:induction false} CompileFromIsCacheable(groups: Groups, i: nat, done: nat)
    requires i <= |groups|
    ensures Cacheable(CompileFrom(groups, i, done)) && NamesFrom(AllWalks(CompileFrom(groups, i, done)), done)
  {
    if i > 0 {
      var (m, next) := MatcherFromTokens(groups[i - 1], done);
      CompiledIsCacheable(groups[i - 1], done);
      CompileFromIsCacheable(groups, i - 1, next);
      ConsIsCacheable(m, CompileFrom(groups, i - 1, next), done, next);
    }
  }

  lemma WalksOfCons(m: Matcher, rest: seq<Matcher>)
    ensures AllWalks([m] + rest) <= Walks(m) + AllWalks(rest)
  {
    var all := [m] + rest;
    forall w | w in AllWalks(all)
      ensures w in Walks(m) || w in AllWalks(rest)
    {
      var i :| 0 <= i < |all| && w in Walks(all[i]);
      assert i > 0 ==> all[i] == rest[i - 1];
    }
  }

  lemma UniqueTogether(a: set<Matcher>, b: set<Matcher>, done: nat, next: nat)
    requires NamesUnique(a) && NamesWithin(a, done, next) && NamesUnique(b) && NamesFrom(b, next) && done <= next
    ensures NamesUnique(a + b) && NamesFrom(a + b, done)
  {
  }

  lemma ConsIsCacheable(m: Matcher, rest: seq<Matcher>, done: nat, next: nat)
    requires CombinatorLast(m) && NamesUnique(Walks(m)) && NamesWithin(Walks(m), done, next)
    requires Cacheable(rest) && NamesFrom(AllWalks(rest), next) && done <= next
    ensures Cacheable([m] + rest) && NamesFrom(AllWalks([m] + rest), done)
  {
    WalksOfCons(m, rest);
    UniqueTogether(Walks(m), AllWalks(rest), done, next);
    assert forall i | 0 <= i < |[m] + rest| :: ([m] + rest)[i] == if i == 0 then m else rest[i - 1];
  }

  // ---------- what a run should return ----------

  /** Some group among the first `i` of the selector matches `n`. */
  ghost predicate SelectedUpTo(env: Env, groups: Groups, i: nat, n: Node)
    requires i <= |groups|
  {
    exists g :: 0 <= g < i && Means(env, groups[g], n)
  }

  ghost predicate SelectedBy(env: Env, groups: Groups, n: Node)
  {
    SelectedUpTo(env, groups, |groups|, n)
  }

  /** The elements the selector describes, in the order given. */
  ghost function Selection(env: Env, groups: Groups, elems: seq<Node>): seq<Node>
  {
    if elems == [] then []
    else
      var init := elems[..|elems| - 1];
      var last := elems[|elems| - 1];
      Selection(env, groups, init) + if SelectedBy(env, groups, last) then [last] else []
  }

  predicate AnyAccepts(env: Env, matchers: seq<Matcher>, n: Node)
  {
    exists k :: 0 <= k < |matchers| && Accepts(env, matchers[k], n)
  }

  lemma AnyAcceptsCons(env: Env, m: Matcher, rest: seq<Matcher>, n: Node)
    ensures AnyAccepts(env, [m] + rest, n) <==> Accepts(env, m, n) || AnyAccepts(env, rest, n)
  {
    var all := [m] + rest;
    if AnyAccepts(env, rest, n) {
      var k :| 0 <= k < |rest| && Accepts(env, rest[k], n);
      assert all[k + 1] == rest[k];
    }
    assert all[0] == m;
  }

  lemma {:induction false} CompiledListIsDeclarative(env: Env, groups: Groups, i: nat, done: nat, n: Node)
    requires i <= |groups|
    ensures AnyAccepts(env, CompileFrom(groups, i, done), n) <==> SelectedUpTo(env, groups, i, n)
  {
    if i > 0 {
      var (m, next) := MatcherFromTokens(groups[i - 1], done);
      CompiledMatcherMeans(env, groups[i - 1], done, n);
      CompiledListIsDeclarative(env, groups, i - 1, next, n);
      AnyAcceptsCons(env, m, CompileFrom(groups, i - 1, next), n);
      assert SelectedUpTo(env, groups, i, n) <==>
             SelectedUpTo(env, groups, i - 1, n) || Means(env, groups[i - 1], n);
    }
  }

  // ---------- compile and run ----------

  /** A compiled selector; the pass counter lives in the closure and survives from run to run. */
  class Compiled {
    const matchers: seq<Matcher>
    var matcherCachedRuns: nat
    ghost const groups: Groups
    ghost const done: nat

    ghost predicate Valid()
    {
      matchers == CompileFrom(groups, |groups|, done)
    }

    /** `compile`: the groups are compiled from the last to the first, sharing one name counter. */
    constructor (groups: Groups, done: nat)
      ensures Valid() && this.groups == groups && this.done == done
      ensures matcherCachedRuns == 0
    {
      var elementMatchers := [];
      var next := done;
      var i := |groups|;
      while i > 0
        invariant 0 <= i <= |groups|
        invariant CompileFrom(groups, |groups|, done) == elementMatchers + CompileFrom(groups, i, next)
      {
        i := i - 1;
        var (m, n) := MatcherFromTokens(groups[i], next);
        elementMatchers, next := elementMatchers + [m], n;
      }
      this.matchers := elementMatchers;
      this.matcherCachedRuns := 0;
      this.groups := groups;
      this.done := done;
    }
  }

  /** No node carries a stamp of a later run. */
  ghost predicate NoFutureStamp(cells: Cells, dirruns: nat)
  {
    forall c | c in cells :: cells[c].run <= dirruns
  }

  /**
   The function built by `matcherFromGroupMatchers`, as an outermost call: whatever older runs,
   on whatever tree, have left in the cells, the result is what the selector means.
   */
  method Run(engine: Engine, compiled: Compiled, forest: Forest, test: (nat, Node) -> bool,
             context: Context, document: Node, xml: bool, elems: seq<Node>)
    returns (results: seq<Node>)
    requires compiled.Valid() && NoFutureStamp(engine.cells, engine.dirruns)
    modifies engine, compiled
    ensures NoFutureStamp(engine.cells, engine.dirruns) && engine.dirruns == old(engine.dirruns) + 1
    ensures var env := Env(forest, test, context, xml, if context == Single(document) then None else Some(context));
            results == Selection(env, compiled.groups, elems)
  {
    engine.dirruns := engine.dirruns + 1;
    var env := Env(forest, test, context, xml, if context == Single(document) then None else Some(context));
    engine.cachedruns := compiled.matcherCachedRuns;
    ghost var ws := AllWalks(compiled.matchers);
    CompileFromIsCacheable(compiled.groups, |compiled.groups|, compiled.done);
    results := [];
    var i := 0;
    while i < |elems|
      invariant 0 <= i <= |elems|
      invariant engine.cachedruns == compiled.matcherCachedRuns
      invariant engine.dirruns == old(engine.dirruns) + 1
      invariant NoFutureStamp(engine.cells, engine.dirruns)
      invariant Sound(env, ws, engine.cells, engine.dirruns, engine.cachedruns)
      invariant Closed(env, ws, engine.cells, engine.dirruns, engine.cachedruns)
      invariant results == Selection(env, compiled.groups, elems[..i])
    {
      var matched := MatchAny(engine, env, compiled.matchers, elems[i], ws);
      CompiledListIsDeclarative(env, compiled.groups, |compiled.groups|, compiled.done, elems[i]);
      assert elems[..i + 1][..i] == elems[..i];
      if matched {
        results := results + [elems[i]];
      }
      NextPass(env, ws, engine.cells, engine.dirruns, engine.cachedruns);
      compiled.matcherCachedRuns := compiled.matcherCachedRuns + 1;
      engine.cachedruns := compiled.matcherCachedRuns;
      i := i + 1;
    }
    assert elems[..|elems|] == elems;
  }

  /** The inner loop over the element matchers, which stops at the first that accepts. */
  method MatchAny(engine: Engine, env: Env, matchers: seq<Matcher>, elem: Node, ghost ws: set<Matcher>)
    returns (matched: bool)
    requires Cacheable(matchers) && ws == AllWalks(matchers)
    requires Sound(env, ws, engine.cells, engine.dirruns, engine.cachedruns)
    requires Closed(env, ws, engine.cells, engine.dirruns, engine.cachedruns)
    requires NoFutureStamp(engine.cells, engine.dirruns)
    modifies engine`cells
    ensures matched <==> AnyAccepts(env, matchers, elem)
    ensures Sound(env, ws, engine.cells, engine.dirruns, engine.cachedruns)
    ensures Settled(ws, engine.cells, engine.dirruns)
    ensures NoFutureStamp(engine.cells, engine.dirruns)
  {
    var j := 0;
    while j < |matchers|
      invariant 0 <= j <= |matchers|
      invariant forall k | 0 <= k < j :: !Accepts(env, matchers[k], elem)
      invariant Sound(env, ws, engine.cells, engine.dirruns, engine.cachedruns)
      invariant Closed(env, ws, engine.cells, engine.dirruns, engine.cachedruns)
      invariant NoFutureStamp(engine.cells, engine.dirruns)
    {
      ghost var was := engine.cells;
      assert Walks(matchers[j]) <= ws;
      matched := engine.Test(env, matchers[j], elem, ws);
      ClosedExtends(env, Walks(matchers[j]), ws, was, engine.cells, engine.dirruns, engine.cachedruns, elem);
      if matched {
        return;
      }
      j := j + 1;
    }
    matched := false;
  }

  /** Moving on to the next element makes every "failed just now" stamp an old failure. */
  lemma NextPass(env: Env, ws: set<Matcher>, cells: Cells, run: nat, pass: nat)
    requires Sound(env, ws, cells, run, pass) && Settled(ws, cells, run) && NamesUnique(ws)
    ensures Sound(env, ws, cells, run, pass + 1) && Closed(env, ws, cells, run, pass + 1)
  {
  }
}
