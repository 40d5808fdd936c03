/**
 Sizzle's selector compiler: `addCombinator`, `elementMatcher` and `matcherFromTokens`, for
 token lists without positional pseudos.

 A compiled matcher is a tree of closures; here it is the tree itself (`Matcher`), and
 `Accepts` is what calling the closure answers on the path that uses no cache (the `xml`
 branch of the ancestor/sibling walk).  The main result is that a compiled token list accepts
 an element exactly when there is a chain of nodes that satisfies every simple selector and
 every combinator of the list, back to the context.
 */
module Selectors {
  import opened Wrappers
  import opened Dom

  /** An entry of `Expr.relative`: `>` and `+` have `first`, descendant and `~` do not. */
  datatype Relative = Relative(dir: Dir, first: bool)

  const CHILD := Relative(ParentNode, true)
  const DESCENDANT := Relative(ParentNode, false)
  const ADJACENT := Relative(PreviousSibling, true)
  const FOLLOWING := Relative(PreviousSibling, false)

  /** A token of one comma-separated group; `Simple` names the filter its type and matches build. */
  datatype Token = Combinator(rel: Relative) | Simple(filter: nat)

  datatype Context = Single(node: Node) | Several(nodes: seq<Node>)

  /**
   What a matcher can see during one run: the page, the answer of each filter, the context, the
   `xml` flag and `outermostContext` (None when the context is the document itself).
   */
  datatype Env = Env(
    forest: Forest,
    test: (nat, Node) -> bool,
    context: Context,
    xml: bool,
    outermost: Option<Context>)

  datatype Matcher =
    | Filter(id: nat)
    | IsContext
    | AmongContexts
    | ContextCheck(leading: bool, matchContext: Matcher, matchAnyContext: Matcher)
    | Walk(rel: Relative, base: bool, doneName: nat, inner: Matcher)
    | All(matchers: seq<Matcher>)

  // ---------- compiling ----------

  function ElementMatcher(matchers: seq<Matcher>): Matcher
    requires matchers != []
  {
    if |matchers| > 1 then All(matchers) else matchers[0]
  }

  /** Index of the first token that is not the leading combinator. */
  function Start(tokens: seq<Token>): nat
    requires tokens != []
  {
    if tokens[0].Combinator? then 1 else 0
  }

  function ImplicitRelative(tokens: seq<Token>): Relative
    requires tokens != []
  {
    if tokens[0].Combinator? then tokens[0].rel else DESCENDANT
  }

  function Foundation(tokens: seq<Token>, done: nat): Matcher
    requires tokens != []
  {
    ContextCheck(
      tokens[0].Combinator?,
      Walk(ImplicitRelative(tokens), true, done, IsContext),
      Walk(ImplicitRelative(tokens), true, done + 1, AmongContexts))
  }

  /** The list `matchers` and the counter `done` after tokens `Start..i` have been handled. */
  function Fold(tokens: seq<Token>, i: nat, done: nat): (r: (seq<Matcher>, nat))
    requires tokens != [] && Start(tokens) <= i <= |tokens|
    ensures r.0 != []
  {
    if i == Start(tokens) then ([Foundation(tokens, done)], done + 2)
    else
      var (matchers, next) := Fold(tokens, i - 1, done);
      match tokens[i - 1]
      case Combinator(rel) => ([Walk(rel, false, next, ElementMatcher(matchers))], next + 1)
      case Simple(f) => (matchers + [Filter(f)], next)
  }

  function MatcherFromTokens(tokens: seq<Token>, done: nat): (Matcher, nat)
    requires tokens != []
  {
    var (matchers, next) := Fold(tokens, |tokens|, done);
    (ElementMatcher(matchers), next)
  }

  // ---------- what a compiled matcher answers ----------

  predicate Accepts(env: Env, m: Matcher, n: Node)
    decreases m, 0
  {
    match m
    case Filter(id) => env.test(id, n)
    case IsContext => env.context == Single(n)
    case AmongContexts => env.context.Several? && n in env.context.nodes
    case ContextCheck(leading, matchContext, matchAnyContext) =>
      (!leading && (env.xml || env.outermost != Some(env.context))) ||
      (if env.context.Single? then Accepts(env, matchContext, n) else Accepts(env, matchAnyContext, n))
    case Walk(rel, base, _, inner) => WalkFrom(env, m, Step(rel.dir, n))
    case All(matchers) => forall i | 0 <= i < |matchers| :: Accepts(env, matchers[i], n)
  }

  predicate Eligible(f: Forest, dir: Dir, base: bool, n: Node)
  {
    IsElement(f, n) || (base && dir == ParentNode)
  }

  /** The loop of a combinator's closure, from the node `cur` on. */
  predicate WalkFrom(env: Env, w: Matcher, cur: Option<Node>)
    requires w.Walk?
    decreases w.inner, 1, if cur.Some? then StepsLeft(w.rel.dir, cur.value) + 1 else 0
  {
    cur.Some? &&
    var n := cur.value;
    var rest := Step(w.rel.dir, n);
    if Eligible(env.forest, w.rel.dir, w.base, n) then
      Accepts(env, w.inner, n) || (!w.rel.first && WalkFrom(env, w, rest))
    else
      WalkFrom(env, w, rest)
  }

  // ---------- the declarative meaning ----------

  /** `elem[dir]` taken k times. */
  function Steps(dir: Dir, n: Node, k: nat): Option<Node>
    decreases k
  {
    if k == 0 then Some(n)
    else
      var s := Step(dir, n);
      if s.None? then None else Steps(dir, s.value, k - 1)
  }

  /** `y` is the k-th node from `x` on in the combinator's direction, and one it may stop at. */
  predicate RelatedAt(f: Forest, rel: Relative, base: bool, y: Node, x: Node, k: nat)
  {
    k >= 1 && Steps(rel.dir, x, k) == Some(y) && Eligible(f, rel.dir, base, y) &&
    (rel.first ==>
      forall j | 1 <= j < k && Steps(rel.dir, x, j).Some? ::
        !Eligible(f, rel.dir, base, Steps(rel.dir, x, j).value))
  }

  /** `y` stands to `x` in the relation the combinator names. */
  ghost predicate Related(f: Forest, rel: Relative, base: bool, y: Node, x: Node)
  {
    exists k :: RelatedAt(f, rel, base, y, x, k)
  }

  /**
   How many combinators lie between the start of the list and token `i`: the position, in a
   chain of matched nodes, of the node that token `i` speaks about.
   */
  function Column(tokens: seq<Token>, i: nat): nat
    requires tokens != [] && Start(tokens) <= i <= |tokens|
  {
    if i == Start(tokens) then 0
    else Column(tokens, i - 1) + if tokens[i - 1].Combinator? then 1 else 0
  }

  lemma {:induction false} ColumnMonotone(tokens: seq<Token>, i: nat, j: nat)
    requires tokens != [] && Start(tokens) <= i <= j <= |tokens|
    ensures Column(tokens, i) <= Column(tokens, j)
    ensures i < j && tokens[i].Combinator? ==> Column(tokens, i) < Column(tokens, j)
  {
    if i < j {
      ColumnMonotone(tokens, i, j - 1);
    }
  }

  function ContextNodes(c: Context): seq<Node>
  {
    match c
    case Single(n) => [n]
    case Several(ns) => ns
  }

  /** The first node of a chain hangs off the context, unless the run does not ask for that. */
  ghost predicate Rooted(env: Env, tokens: seq<Token>, n: Node)
    requires tokens != []
  {
    match tokens[0]
    case Combinator(rel) => exists c :: c in ContextNodes(env.context) && Related(env.forest, rel, true, c, n)
    case Simple(_) =>
      env.xml || env.outermost != Some(env.context) ||
      exists c :: c in ContextNodes(env.context) && c.root == n.root && c.path < n.path
  }

  /** What token `i` demands of a chain. */
  ghost predicate Obeys(env: Env, tokens: seq<Token>, i: nat, chain: seq<Node>)
    requires tokens != [] && Start(tokens) <= i < |tokens|
  {
    var c := Column(tokens, i);
    match tokens[i]
    case Simple(f) => c < |chain| && env.test(f, chain[c])
    case Combinator(rel) => c + 1 < |chain| && Related(env.forest, rel, false, chain[c], chain[c + 1])
  }

  ghost predicate IsChain(env: Env, tokens: seq<Token>, hi: nat, chain: seq<Node>)
    requires tokens != [] && Start(tokens) <= hi <= |tokens|
  {
    |chain| == Column(tokens, hi) + 1 &&
    Rooted(env, tokens, chain[0]) &&
    forall i | Start(tokens) <= i < hi :: Obeys(env, tokens, i, chain)
  }

  /** `n` matches the first `hi` tokens, read declaratively. */
  ghost predicate Matches(env: Env, tokens: seq<Token>, hi: nat, n: Node)
    requires tokens != [] && Start(tokens) <= hi <= |tokens|
  {
    exists chain :: IsChain(env, tokens, hi, chain) && chain[|chain| - 1] == n
  }

  // ---------- a walk searches exactly the related nodes ----------

  lemma {:induction false} WalkFindsRelated(env: Env, w: Matcher, x: Node)
    requires w.Walk?
    ensures WalkFrom(env, w, Step(w.rel.dir, x)) <==>
            exists y :: Related(env.forest, w.rel, w.base, y, x) && Accepts(env, w.inner, y)
  {
    if WalkFrom(env, w, Step(w.rel.dir, x)) {
      var y, k := WalkWitness(env, w, x);
      assert Related(env.forest, w.rel, w.base, y, x);
    }
    if exists y :: Related(env.forest, w.rel, w.base, y, x) && Accepts(env, w.inner, y) {
      var y :| Related(env.forest, w.rel, w.base, y, x) && Accepts(env, w.inner, y);
      var k: nat :| RelatedAt(env.forest, w.rel, w.base, y, x, k);
      RelatedIsWalked(env, w, x, y, k);
    }
  }

  lemma {:induction false} WalkWitness(env: Env, w: Matcher, x: Node) returns (y: Node, k: nat)
    requires w.Walk? && WalkFrom(env, w, Step(w.rel.dir, x))
    ensures RelatedAt(env.forest, w.rel, w.base, y, x, k) && Accepts(env, w.inner, y)
    decreases StepsLeft(w.rel.dir, x)
  {
    var n := Step(w.rel.dir, x).value;
    if Eligible(env.forest, w.rel.dir, w.base, n) && Accepts(env, w.inner, n) {
      y, k := n, 1;
      assert Steps(w.rel.dir, x, 1) == Steps(w.rel.dir, n, 0);
    } else {
      var j: nat;
      y, j := WalkWitness(env, w, n);
      k := j + 1;
      forall i | 1 <= i < k
        ensures Steps(w.rel.dir, x, i) == Steps(w.rel.dir, n, i - 1)
      {
      }
    }
  }

  lemma {:induction false} RelatedIsWalked(env: Env, w: Matcher, x: Node, y: Node, k: nat)
    requires w.Walk? && RelatedAt(env.forest, w.rel, w.base, y, x, k) && Accepts(env, w.inner, y)
    ensures WalkFrom(env, w, Step(w.rel.dir, x))
    decreases k
  {
    var n := Step(w.rel.dir, x).value;
    assert Steps(w.rel.dir, x, 1) == Steps(w.rel.dir, n, 0);
    if k > 1 {
      forall i | 1 <= i < k - 1 && Steps(w.rel.dir, n, i).Some?
        ensures w.rel.first ==> !Eligible(env.forest, w.rel.dir, w.base, Steps(w.rel.dir, n, i).value)
      {
        assert Steps(w.rel.dir, x, i + 1) == Steps(w.rel.dir, n, i);
      }
      RelatedIsWalked(env, w, n, y, k - 1);
    }
  }

  // ---------- the compiler is correct ----------

  lemma ElementMatcherIsConjunction(env: Env, matchers: seq<Matcher>, n: Node)
    requires matchers != []
    ensures Accepts(env, ElementMatcher(matchers), n) <==>
            forall i | 0 <= i < |matchers| :: Accepts(env, matchers[i], n)
  {
  }

  lemma FoundationChecksContext(env: Env, tokens: seq<Token>, done: nat, n: Node)
    requires tokens != []
    ensures Accepts(env, Foundation(tokens, done), n) <==> Rooted(env, tokens, n)
  {
    var m := Foundation(tokens, done);
    var w := if env.context.Single? then m.matchContext else m.matchAnyContext;
    WalkFindsRelated(env, w, n);
    if tokens[0].Simple? {
      forall c
        ensures Related(env.forest, w.rel, true, c, n) <==> c.root == n.root && c.path < n.path
      {
        DescendantMeansAbove(env.forest, c, n);
      }
    }
    var nodes := ContextNodes(env.context);
    forall y
      ensures Accepts(env, w.inner, y) <==> y in nodes
    {
      assert env.context.Single? ==> nodes == [env.context.node];
    }
  }

  lemma SimpleToken(env: Env, tokens: seq<Token>, i: nat, n: Node)
    requires tokens != [] && Start(tokens) < i <= |tokens| && tokens[i - 1].Simple?
    ensures Matches(env, tokens, i, n) <==>
            Matches(env, tokens, i - 1, n) && env.test(tokens[i - 1].filter, n)
  {
    if Matches(env, tokens, i, n) {
      var chain :| IsChain(env, tokens, i, chain) && chain[|chain| - 1] == n;
      assert Obeys(env, tokens, i - 1, chain);
      assert IsChain(env, tokens, i - 1, chain);
    }
    if Matches(env, tokens, i - 1, n) && env.test(tokens[i - 1].filter, n) {
      var chain :| IsChain(env, tokens, i - 1, chain) && chain[|chain| - 1] == n;
      assert IsChain(env, tokens, i, chain);
    }
  }

  /** Obeying a token only concerns the chain's nodes up to that token's columns. */
  lemma ObeysPrefix(env: Env, tokens: seq<Token>, i: nat, hi: nat, chain: seq<Node>, longer: seq<Node>)
    requires tokens != [] && Start(tokens) <= i < hi <= |tokens|
    requires |chain| == Column(tokens, hi) + 1 && chain <= longer
    ensures Obeys(env, tokens, i, chain) <==> Obeys(env, tokens, i, longer)
  {
    ColumnMonotone(tokens, i, hi);
  }

  /** A chain through a combinator, without its last node. */
  lemma ChainShrinks(env: Env, tokens: seq<Token>, h: nat, rel: Relative, longer: seq<Node>)
    requires tokens != [] && Start(tokens) <= h < |tokens| && tokens[h] == Combinator(rel)
    requires IsChain(env, tokens, h + 1, longer)
    ensures IsChain(env, tokens, h, longer[..|longer| - 1])
    ensures Related(env.forest, rel, false, longer[|longer| - 2], longer[|longer| - 1])
  {
    var chain := longer[..|longer| - 1];
    assert Obeys(env, tokens, h, longer);
    forall j | Start(tokens) <= j < h
      ensures Obeys(env, tokens, j, chain)
    {
      ObeysPrefix(env, tokens, j, h, chain, longer);
    }
  }

  lemma ChainGrows(env: Env, tokens: seq<Token>, h: nat, rel: Relative, chain: seq<Node>, n: Node)
    requires tokens != [] && Start(tokens) <= h < |tokens| && tokens[h] == Combinator(rel)
    requires IsChain(env, tokens, h, chain) && Related(env.forest, rel, false, chain[|chain| - 1], n)
    ensures IsChain(env, tokens, h + 1, chain + [n])
  {
    forall j | Start(tokens) <= j < h
      ensures Obeys(env, tokens, j, chain + [n])
    {
      ObeysPrefix(env, tokens, j, h, chain, chain + [n]);
    }
    assert Obeys(env, tokens, h, chain + [n]);
  }

  lemma CombinatorToken(env: Env, tokens: seq<Token>, i: nat, h: nat, rel: Relative, n: Node)
    requires tokens != [] && Start(tokens) <= h < |tokens| && i == h + 1 && tokens[h] == Combinator(rel)
    ensures Matches(env, tokens, i, n) <==>
            exists y :: Related(env.forest, rel, false, y, n) && Matches(env, tokens, h, y)
  {
    if Matches(env, tokens, i, n) {
      var longer :| IsChain(env, tokens, i, longer) && longer[|longer| - 1] == n;
      ChainShrinks(env, tokens, h, rel, longer);
      assert Matches(env, tokens, h, longer[|longer| - 2]);
    }
    if y :| Related(env.forest, rel, false, y, n) && Matches(env, tokens, h, y) {
      var chain :| IsChain(env, tokens, h, chain) && chain[|chain| - 1] == y;
      ChainGrows(env, tokens, h, rel, chain, n);
    }
  }

  /** Pushing a filter onto `matchers` adds its condition. */
  lemma PushedFilter(env: Env, matchers: seq<Matcher>, f: nat, n: Node)
    requires matchers != []
    ensures Accepts(env, ElementMatcher(matchers + [Filter(f)]), n) <==>
            Accepts(env, ElementMatcher(matchers), n) && env.test(f, n)
  {
    ElementMatcherIsConjunction(env, matchers, n);
    ElementMatcherIsConjunction(env, matchers + [Filter(f)], n);
    assert (matchers + [Filter(f)])[|matchers|] == Filter(f);
    assert forall j | 0 <= j < |matchers| :: (matchers + [Filter(f)])[j] == matchers[j];
  }

  lemma {:induction false} FoldCorrect(env: Env, tokens: seq<Token>, i: nat, done: nat, n: Node)
    requires tokens != [] && Start(tokens) <= i <= |tokens|
    ensures Accepts(env, ElementMatcher(Fold(tokens, i, done).0), n) <==> Matches(env, tokens, i, n)
    decreases i, 1
  {
    if i == Start(tokens) {
      FoundationChecksContext(env, tokens, done, n);
      if Rooted(env, tokens, n) {
        assert IsChain(env, tokens, i, [n]);
      }
    } else {
      var (matchers, next) := Fold(tokens, i - 1, done);
      if tokens[i - 1].Simple? {
        FoldCorrect(env, tokens, i - 1, done, n);
        SimpleToken(env, tokens, i, n);
        PushedFilter(env, matchers, tokens[i - 1].filter, n);
      } else {
        FoldThroughCombinator(env, tokens, i, done, n);
      }
    }
  }

  lemma {:induction false} FoldThroughCombinator(env: Env, tokens: seq<Token>, i: nat, done: nat, n: Node)
    requires tokens != [] && Start(tokens) < i <= |tokens| && tokens[i - 1].Combinator?
    ensures Accepts(env, ElementMatcher(Fold(tokens, i, done).0), n) <==> Matches(env, tokens, i, n)
    decreases i, 0
  {
    var (matchers, next) := Fold(tokens, i - 1, done);
    var rel := tokens[i - 1].rel;
    var walk := Walk(rel, false, next, ElementMatcher(matchers));
    assert ElementMatcher(Fold(tokens, i, done).0) == walk;
    WalkFindsRelated(env, walk, n);
    var h := i - 1;
    forall y
      ensures Accepts(env, walk.inner, y) <==> Matches(env, tokens, h, y)
    {
      FoldCorrect(env, tokens, h, done, y);
    }
    CombinatorToken(env, tokens, i, h, rel, n);
    assert Accepts(env, walk, n) <==> WalkFrom(env, walk, Step(rel.dir, n));
  }

  /**
   Main result: for every page, context and token list without positional pseudos, the
   compiled matcher accepts an element exactly when some chain of nodes ends in it and
   satisfies every token, from the context on.
   */
  lemma CompiledMatcherIsDeclarative(env: Env, tokens: seq<Token>, done: nat, n: Node)
    requires tokens != []
    ensures Accepts(env, MatcherFromTokens(tokens, done).0, n) <==> Matches(env, tokens, |tokens|, n)
  {
    FoldCorrect(env, tokens, |tokens|, done, n);
  }

  // ---------- the combinators in the terms of section 8 of Selectors Level 3 ----------

  lemma {:induction false} ParentSteps(x: Node, k: nat)
    ensures Steps(ParentNode, x, k) ==
            if k <= |x.path| then Some(Node(x.root, x.path[..|x.path| - k])) else None
    decreases k
  {
    if k == 0 {
      assert x.path[..|x.path|] == x.path;
    } else if x.path != [] {
      var y := Step(ParentNode, x).value;
      ParentSteps(y, k - 1);
      if k <= |x.path| {
        assert y.path[..|y.path| - (k - 1)] == x.path[..|x.path| - k];
      }
    }
  }

  /** The k-th sibling before `x`. */
  function Earlier(x: Node, k: nat): Node
    requires x.path != [] && k <= x.path[|x.path| - 1]
  {
    Node(x.root, x.path[..|x.path| - 1] + [x.path[|x.path| - 1] - k])
  }

  lemma {:induction false} SiblingSteps(x: Node, k: nat)
    requires k > 0
    ensures Steps(PreviousSibling, x, k) ==
            if x.path != [] && k <= x.path[|x.path| - 1] then Some(Earlier(x, k)) else None
    decreases k
  {
    if x.path != [] && x.path[|x.path| - 1] > 0 {
      var y := Step(PreviousSibling, x).value;
      assert y.path[..|y.path| - 1] == x.path[..|x.path| - 1];
      if k == 1 {
        assert Steps(PreviousSibling, x, 1) == Steps(PreviousSibling, y, 0);
      } else {
        SiblingSteps(y, k - 1);
      }
    }
  }

  /** Towards the context it relates a node to whatever is above it. */
  lemma DescendantMeansAbove(f: Forest, y: Node, x: Node)
    ensures Related(f, DESCENDANT, true, y, x) <==> y.root == x.root && y.path < x.path
  {
    if Related(f, DESCENDANT, true, y, x) {
      var k: nat :| RelatedAt(f, DESCENDANT, true, y, x, k);
      ParentSteps(x, k);
    }
    if y.root == x.root && y.path < x.path {
      var k := |x.path| - |y.path|;
      ParentSteps(x, k);
      assert y == Node(x.root, x.path[..|x.path| - k]);
      assert RelatedAt(f, DESCENDANT, true, y, x, k);
    }
  }

  /** A descendant combinator relates an element to every node strictly below it. */
  lemma DescendantMeansAncestor(f: Forest, y: Node, x: Node)
    ensures Related(f, DESCENDANT, false, y, x) <==>
            IsElement(f, y) && y.root == x.root && y.path < x.path
  {
    if Related(f, DESCENDANT, false, y, x) {
      var k: nat :| RelatedAt(f, DESCENDANT, false, y, x, k);
      ParentSteps(x, k);
    }
    if IsElement(f, y) && y.root == x.root && y.path < x.path {
      var k := |x.path| - |y.path|;
      ParentSteps(x, k);
      assert y == Node(x.root, x.path[..|x.path| - k]);
      assert RelatedAt(f, DESCENDANT, false, y, x, k);
    }
  }

  /** Whatever has children is an element, or the document or fragment at the root of its tree. */
  ghost predicate ParentsAreElements(f: Forest)
  {
    forall n: Node :: n.path != [] && IsNode(f, n) && Subtree(f[n.root], n.path).kids != [] ==> IsElement(f, n)
  }

  lemma {:induction false} ParentHasKids(t: Tree, p: seq<nat>)
    requires p != [] && HasPath(t, p)
    ensures HasPath(t, p[..|p| - 1]) && Subtree(t, p[..|p| - 1]).kids != []
  {
    if |p| > 1 {
      ParentHasKids(t.kids[p[0]], p[1..]);
      assert p[..|p| - 1][1..] == p[1..][..|p| - 2];
    }
  }

  /** A child combinator relates an element to its children and nothing else. */
  lemma ChildMeansParent(f: Forest, y: Node, x: Node)
    requires ParentsAreElements(f) && IsNode(f, x)
    ensures Related(f, CHILD, false, y, x) <==> Parent(x) == Some(y) && IsElement(f, y)
  {
    if Parent(x) == Some(y) && IsElement(f, y) {
      ParentSteps(x, 1);
      assert RelatedAt(f, CHILD, false, y, x, 1);
    }
    if Related(f, CHILD, false, y, x) {
      var k: nat :| RelatedAt(f, CHILD, false, y, x, k);
      ParentSteps(x, k);
      ParentSteps(x, 1);
      ParentHasKids(f[x.root], x.path);
      var p := Parent(x).value;
      assert Steps(ParentNode, x, 1) == Some(p);
      assert p.path == [] || IsElement(f, p);
    }
  }

  /** `~` relates an element to every sibling after it. */
  lemma FollowingMeansLaterSibling(f: Forest, y: Node, x: Node)
    ensures Related(f, FOLLOWING, false, y, x) <==>
            IsElement(f, y) && x.path != [] &&
            exists k :: 1 <= k <= x.path[|x.path| - 1] && y == Earlier(x, k)
  {
    if Related(f, FOLLOWING, false, y, x) {
      var k: nat :| RelatedAt(f, FOLLOWING, false, y, x, k);
      SiblingSteps(x, k);
    }
    if IsElement(f, y) && x.path != [] && exists k :: 1 <= k <= x.path[|x.path| - 1] && y == Earlier(x, k) {
      var k :| 1 <= k <= x.path[|x.path| - 1] && y == Earlier(x, k);
      SiblingSteps(x, k);
      assert RelatedAt(f, FOLLOWING, false, y, x, k);
    }
  }

  /** `+` relates an element to the first element sibling after it, text and comments between. */
  lemma AdjacentMeansNextElement(f: Forest, y: Node, x: Node)
    ensures Related(f, ADJACENT, false, y, x) <==>
            IsElement(f, y) && x.path != [] &&
            exists k :: 1 <= k <= x.path[|x.path| - 1] && y == Earlier(x, k) &&
                        forall j :: 1 <= j < k ==> !IsElement(f, Earlier(x, j))
  {
    if Related(f, ADJACENT, false, y, x) {
      var k: nat :| RelatedAt(f, ADJACENT, false, y, x, k);
      SiblingSteps(x, k);
      forall j | 1 <= j < k
        ensures !IsElement(f, Earlier(x, j))
      {
        SiblingSteps(x, j);
      }
    }
    if IsElement(f, y) && x.path != [] {
      if k :| 1 <= k <= x.path[|x.path| - 1] && y == Earlier(x, k) &&
              forall j :: 1 <= j < k ==> !IsElement(f, Earlier(x, j)) {
        SiblingSteps(x, k);
        forall j | 1 <= j < k && Steps(PreviousSibling, x, j).Some?
          ensures !IsElement(f, Steps(PreviousSibling, x, j).value)
        {
          SiblingSteps(x, j);
        }
        assert RelatedAt(f, ADJACENT, false, y, x, k);
      }
    }
  }
}
