/**
 What a selector means, in terms of paths and read from its last token to its first: the
 reference the compiled matchers of `Selectors` are measured by.  It knows nothing of walks,
 of chains or of how `matcherFromTokens` treats the first token.
 */
module SelectorMeaning {
  import opened Wrappers
  import opened Dom
  import opened Selectors

  // ---------- positions in a tree ----------

  predicate Above(y: Node, x: Node)
  {
    y.root == x.root && y.path < x.path
  }

  predicate EarlierSibling(y: Node, x: Node)
  {
    y.root == x.root && |y.path| == |x.path| > 0 &&
    var last := |x.path| - 1;
    y.path[..last] == x.path[..last] && y.path[last] < x.path[last]
  }

  predicate Towards(dir: Dir, y: Node, x: Node)
  {
    match dir
    case ParentNode => Above(y, x)
    case PreviousSibling => EarlierSibling(y, x)
  }

  /** Elements count, and towards the context (`base`) whatever is above. */
  predicate Counts(f: Forest, dir: Dir, base: bool, n: Node)
  {
    match dir
    case ParentNode => base || IsElement(f, n)
    case PreviousSibling => IsElement(f, n)
  }

  /** `y` stands to `x` as the combinator asks: anywhere in its direction, or nearest. */
  ghost predicate Stands(f: Forest, rel: Relative, base: bool, y: Node, x: Node)
  {
    Counts(f, rel.dir, base, y) && Towards(rel.dir, y, x) &&
    (rel.first ==> forall z | Towards(rel.dir, z, x) && Towards(rel.dir, y, z) :: !Counts(f, rel.dir, base, z))
  }

  /** The k-th node from `x` on. */
  predicate Reached(dir: Dir, x: Node, k: nat, y: Node)
  {
    match dir
    case ParentNode => k <= |x.path| && y == Node(x.root, x.path[..|x.path| - k])
    case PreviousSibling => x.path != [] && k <= x.path[|x.path| - 1] && y == Earlier(x, k)
  }

  lemma StepsReach(dir: Dir, x: Node, k: nat, y: Node)
    requires k > 0
    ensures Steps(dir, x, k) == Some(y) <==> Reached(dir, x, k, y)
  {
    match dir
    case ParentNode => ParentSteps(x, k);
    case PreviousSibling => SiblingSteps(x, k);
  }

  /** How far `y` is from `x`. */
  function Distance(dir: Dir, y: Node, x: Node): nat
    requires Towards(dir, y, x)
  {
    match dir
    case ParentNode => |x.path| - |y.path|
    case PreviousSibling => x.path[|x.path| - 1] - y.path[|y.path| - 1]
  }

  lemma TowardsIsReached(dir: Dir, y: Node, x: Node)
    requires Towards(dir, y, x)
    ensures Distance(dir, y, x) > 0 && Reached(dir, x, Distance(dir, y, x), y)
  {
    if dir == PreviousSibling {
      var last := |x.path| - 1;
      assert y.path == x.path[..last] + [y.path[last]];
    }
  }

  lemma ReachedIsTowards(dir: Dir, x: Node, k: nat, y: Node)
    requires k > 0 && Reached(dir, x, k, y)
    ensures Towards(dir, y, x) && Distance(dir, y, x) == k
  {
  }

  lemma BetweenIff(dir: Dir, x: Node, k: nat, y: Node, j: nat, z: Node)
    requires 0 < j && Reached(dir, x, k, y) && Reached(dir, x, j, z)
    ensures Towards(dir, y, z) <==> j < k
  {
  }

  /** What a walk may find is what stands in the combinator's relation. */
  lemma RelatedIffStands(f: Forest, rel: Relative, base: bool, y: Node, x: Node)
    ensures Related(f, rel, base, y, x) <==> Stands(f, rel, base, y, x)
  {
    if Related(f, rel, base, y, x) {
      var k: nat :| RelatedAt(f, rel, base, y, x, k);
      StepsReach(rel.dir, x, k, y);
      ReachedIsTowards(rel.dir, x, k, y);
      forall z | rel.first && Towards(rel.dir, z, x) && Towards(rel.dir, y, z)
        ensures !Counts(f, rel.dir, base, z)
      {
        TowardsIsReached(rel.dir, z, x);
        var j := Distance(rel.dir, z, x);
        StepsReach(rel.dir, x, j, z);
        BetweenIff(rel.dir, x, k, y, j, z);
      }
    }
    if Stands(f, rel, base, y, x) {
      TowardsIsReached(rel.dir, y, x);
      var k := Distance(rel.dir, y, x);
      StepsReach(rel.dir, x, k, y);
      forall j | rel.first && 1 <= j < k && Steps(rel.dir, x, j).Some?
        ensures !Eligible(f, rel.dir, base, Steps(rel.dir, x, j).value)
      {
        var z := Steps(rel.dir, x, j).value;
        StepsReach(rel.dir, x, j, z);
        ReachedIsTowards(rel.dir, x, j, z);
        BetweenIff(rel.dir, x, k, y, j, z);
      }
      assert RelatedAt(f, rel, base, y, x, k);
    }
  }

  // ---------- the meaning ----------

  predicate InContext(env: Env, c: Node)
  {
    match env.context
    case Single(n) => c == n
    case Several(ns) => c in ns
  }

  /** The run asks for descendants of its context only. */
  predicate Anchored(env: Env)
  {
    !env.xml && env.outermost == Some(env.context)
  }

  /**
   `n` matches the tokens: the last one says something about `n` itself, or how it stands to a
   node that matches the tokens before.  Where there are none the context takes that node's place.
   */
  ghost predicate Means(env: Env, tokens: seq<Token>, n: Node)
    decreases |tokens|
  {
    if tokens == [] then Anchored(env) ==> exists c :: InContext(env, c) && Above(c, n)
    else
      var last := |tokens| - 1;
      match tokens[last]
      case Simple(f) => env.test(f, n) && Means(env, tokens[..last], n)
      case Combinator(rel) =>
        if last == 0 then exists c :: InContext(env, c) && Stands(env.forest, rel, true, c, n)
        else exists y :: Stands(env.forest, rel, false, y, n) && Means(env, tokens[..last], y)
  }

  /** The foundation for a list without a leading combinator: an ancestor among the context. */
  lemma FoundationOfSimple(env: Env, tokens: seq<Token>, done: nat, n: Node)
    requires tokens != [] && tokens[0].Simple?
    ensures Accepts(env, Foundation(tokens, done), n) <==>
      (Anchored(env) ==> exists c :: InContext(env, c) && c.root == n.root && c.path < n.path)
  {
    FoundationChecksContext(env, tokens, done, n);
    assert forall c :: c in ContextNodes(env.context) <==> InContext(env, c);
  }

  /** The foundation for a leading combinator, whatever the run asks for. */
  lemma FoundationOfCombinator(env: Env, tokens: seq<Token>, done: nat, n: Node)
    requires tokens != [] && tokens[0].Combinator?
    ensures Accepts(env, Foundation(tokens, done), n) <==>
      exists c :: InContext(env, c) && Stands(env.forest, tokens[0].rel, true, c, n)
  {
    FoundationChecksContext(env, tokens, done, n);
    forall c
      ensures Related(env.forest, tokens[0].rel, true, c, n) <==> Stands(env.forest, tokens[0].rel, true, c, n)
    {
      RelatedIffStands(env.forest, tokens[0].rel, true, c, n);
    }
    assert forall c :: c in ContextNodes(env.context) <==> InContext(env, c);
  }

  /** The four leading combinators: a context node is the parent, above, the nearest element sibling, or an earlier one. */
  lemma LeadingCombinators(f: Forest, c: Node, n: Node)
    ensures Stands(f, CHILD, true, c, n) <==> n.path != [] && c == Node(n.root, n.path[..|n.path| - 1])
    ensures Stands(f, DESCENDANT, true, c, n) <==> c.root == n.root && c.path < n.path
    ensures Stands(f, FOLLOWING, true, c, n) <==> IsElement(f, c) && EarlierSibling(c, n)
    ensures Stands(f, ADJACENT, true, c, n) <==>
      IsElement(f, c) && EarlierSibling(c, n) &&
      forall z | EarlierSibling(z, n) && EarlierSibling(c, z) :: !IsElement(f, z)
  {
    if Stands(f, CHILD, true, c, n) {
      var p := Node(n.root, n.path[..|n.path| - 1]);
      assert Towards(ParentNode, p, n) && Counts(f, ParentNode, true, p);
      assert !Towards(ParentNode, c, p);
      assert c.path == n.path[..|c.path|];
    }
    assert forall z | Towards(PreviousSibling, z, n) && Towards(PreviousSibling, c, z) ::
      EarlierSibling(z, n) && EarlierSibling(c, z) && (Counts(f, PreviousSibling, true, z) <==> IsElement(f, z));
    assert forall z | EarlierSibling(z, n) && EarlierSibling(c, z) ::
      Towards(PreviousSibling, z, n) && Towards(PreviousSibling, c, z) && (Counts(f, PreviousSibling, true, z) <==> IsElement(f, z));
  }

  // ---------- the compiler against the meaning ----------

  /** After the first `i` tokens the matchers folded so far accept what those tokens mean. */
  lemma {:induction false} FoldMeans(env: Env, tokens: seq<Token>, i: nat, done: nat, n: Node)
    requires tokens != [] && Start(tokens) <= i <= |tokens|
    ensures Accepts(env, ElementMatcher(Fold(tokens, i, done).0), n) <==> Means(env, tokens[..i], n)
    decreases i
  {
    if i == Start(tokens) {
      FirstMeans(env, tokens, done, n);
    } else {
      var h := i - 1;
      var (matchers, next) := Fold(tokens, h, done);
      assert tokens[..i][..h] == tokens[..h];
      match tokens[h] {
        case Simple(f) =>
          FoldMeans(env, tokens, h, done, n);
          PushedFilter(env, matchers, f, n);
        case Combinator(rel) =>
          var walk := Walk(rel, false, next, ElementMatcher(matchers));
          forall y
            ensures Accepts(env, walk.inner, y) <==> Means(env, tokens[..h], y)
            ensures Related(env.forest, rel, false, y, n) <==> Stands(env.forest, rel, false, y, n)
          {
            FoldMeans(env, tokens, h, done, y);
            RelatedIffStands(env.forest, rel, false, y, n);
          }
          WalkMeans(env, walk, tokens[..h], n);
          assert ElementMatcher(Fold(tokens, i, done).0) == walk;
      }
    }
  }

  lemma FirstMeans(env: Env, tokens: seq<Token>, done: nat, n: Node)
    requires tokens != []
    ensures Accepts(env, Foundation(tokens, done), n) <==> Means(env, tokens[..Start(tokens)], n)
  {
    if tokens[0].Simple? {
      FoundationOfSimple(env, tokens, done, n);
      assert forall c :: Above(c, n) <==> c.root == n.root && c.path < n.path;
    } else {
      FoundationOfCombinator(env, tokens, done, n);
    }
  }

  lemma WalkMeans(env: Env, walk: Matcher, tokens: seq<Token>, n: Node)
    requires walk.Walk? && !walk.base
    requires forall y :: Accepts(env, walk.inner, y) <==> Means(env, tokens, y)
    requires forall y :: Related(env.forest, walk.rel, false, y, n) <==> Stands(env.forest, walk.rel, false, y, n)
    ensures Accepts(env, walk, n) <==> exists y :: Stands(env.forest, walk.rel, false, y, n) && Means(env, tokens, y)
  {
    WalkFindsRelated(env, walk, n);
    assert Accepts(env, walk, n) <==> WalkFrom(env, walk, Step(walk.rel.dir, n));
  }

  /** Main result: a compiled token list accepts exactly the nodes that match the list. */
  lemma CompiledMatcherMeans(env: Env, tokens: seq<Token>, done: nat, n: Node)
    requires tokens != []
    ensures Accepts(env, MatcherFromTokens(tokens, done).0, n) <==> Means(env, tokens, n)
  {
    FoldMeans(env, tokens, |tokens|, done, n);
    assert tokens[..|tokens|] == tokens;
  }

  /** In particular a compound tests every one of its tokens, from the first on. */
  lemma {:induction false} CompoundMeans(env: Env, tokens: seq<Token>, n: Node)
    requires forall i | 0 <= i < |tokens| :: tokens[i].Simple?
    ensures Means(env, tokens, n) <==>
      (forall i | 0 <= i < |tokens| :: env.test(tokens[i].filter, n)) &&
      (Anchored(env) ==> exists c :: InContext(env, c) && c.root == n.root && c.path < n.path)
    decreases |tokens|
  {
    if tokens == [] {
      assert forall c :: Above(c, n) <==> c.root == n.root && c.path < n.path;
    } else {
      var init := tokens[..|tokens| - 1];
      CompoundMeans(env, init, n);
      assert forall i | 0 <= i < |init| :: init[i] == tokens[i];
    }
  }
}
