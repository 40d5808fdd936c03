/**
 What `select` stands for: the elements its outcome leads to are those the selector means, whatever
 shortcut and seed were taken on the way.
 */
module SelectMeaning {
  import opened Wrappers
  import opened Dom
  import Tokenizer
  import Select
  import S = Selectors
  import opened SelectorMeaning

  type Element = nat

  /** The page: where elements and contexts are, what tokens say, and whether a text has a sibling combinator. */
  datatype Page = Page(
    forest: Forest,
    document: Node,
    place: Element -> Node,
    read: Tokenizer.Token -> S.Token,
    test: (nat, Node) -> bool,
    siblings: string -> bool)

  function Tokens(page: Page, tokens: Tokenizer.Group): seq<S.Token>
  {
    seq(|tokens|, i requires 0 <= i < |tokens| => page.read(tokens[i]))
  }

  /** What a compiled selector sees when it is run in context `c`. */
  function EnvAt(page: Page, c: Element): S.Env
  {
    var context := S.Single(page.place(c));
    S.Env(page.forest, page.test, context, false, if page.place(c) == page.document then None else Some(context))
  }

  predicate LeadingSibling(page: Page, tokens: Tokenizer.Group)
  {
    tokens != [] && page.read(tokens[0]).Combinator? && page.read(tokens[0]).rel.dir == PreviousSibling
  }

  /** `context.parentNode || context` */
  function Expanded(c: Node): Node
  {
    if Parent(c).Some? then Parent(c).value else c
  }

  /** The elements looked through from `c`, or from its parent if siblings are asked for. */
  predicate Within(page: Page, wide: bool, c: Element, n: Node)
  {
    IsElement(page.forest, n) && Above(if wide then Expanded(page.place(c)) else page.place(c), n)
  }

  /** The elements the tokens mean in context `c`. */
  ghost predicate Meant(page: Page, tokens: Tokenizer.Group, c: Element, e: Element)
  {
    Within(page, LeadingSibling(page, tokens), c, page.place(e)) && Means(EnvAt(page, c), Tokens(page, tokens), page.place(e))
  }

  /**
   The elements the outcome stands for: results pushed at once, or those of the seed, or else of
   the elements looked through, that the compiled selector accepts.
   */
  ghost predicate StandsFor(page: Page, o: Select.Outcome, e: Element)
  {
    match o
    case SyntaxError => false
    case Done(results) => e in results
    case Filter(text, groups, c, seed) =>
      (if seed.Some? then e in seed.value else Within(page, page.siblings(text), c, page.place(e))) &&
      exists g :: 0 <= g < |groups| && Means(EnvAt(page, c), Tokens(page, groups[g]), page.place(e))
  }

  /** Finders find, of the elements looked through, those their token describes. */
  ghost predicate FindersAgree(page: Page, env: Select.Env)
  {
    forall tokens: Tokenizer.Group, k, c |
      0 <= k < |tokens| && page.read(tokens[k]).Simple? && Select.Finds(env, tokens, k, c).Some? ::
      FoundBy(page, tokens, k, c, Select.Finds(env, tokens, k, c).value)
  }

  ghost predicate FoundBy(page: Page, tokens: Tokenizer.Group, k: nat, c: Element, seed: seq<Element>)
    requires k < |tokens| && page.read(tokens[k]).Simple?
  {
    forall e :: e in seed <==>
      Within(page, LeadingSibling(page, tokens), c, page.place(e)) &&
      page.test(page.read(tokens[k]).filter, page.place(e))
  }

  ghost predicate Agree(page: Page, env: Select.Env)
  {
    FindersAgree(page, env) && page.document.path == [] &&
    (forall t: Tokenizer.Token :: env.relative(t.kind) <==> page.read(t).Combinator?) &&
    forall tokens: Tokenizer.Group :: LeadingSibling(page, tokens) ==> page.siblings(Tokenizer.ToSelector(tokens))
  }

  // ---------- a token of the last compound may be asked first ----------

  lemma {:induction false} AskedFirst(env: S.Env, tokens: seq<S.Token>, k: nat, n: Node)
    requires k < |tokens| && forall j | k <= j < |tokens| :: tokens[j].Simple?
    ensures Means(env, tokens, n) <==>
      env.test(tokens[k].filter, n) && Means(env, tokens[..k] + tokens[k + 1..], n)
    decreases |tokens|
  {
    var last := |tokens| - 1;
    var rest := tokens[..k] + tokens[k + 1..];
    if k < last {
      AskedFirst(env, tokens[..last], k, n);
      assert rest[|rest| - 1] == tokens[last];
      assert rest[..|rest| - 1] == tokens[..last][..k] + tokens[..last][k + 1..];
    } else {
      assert rest == tokens[..last];
    }
  }

  lemma RestRead(page: Page, tokens: Tokenizer.Group, k: nat, rest: Tokenizer.Group)
    requires k < |tokens| && Select.AllBut(tokens, k, rest)
    ensures Tokens(page, rest) == Tokens(page, tokens)[..k] + Tokens(page, tokens)[k + 1..]
  {
    var all, less := Tokens(page, tokens), Tokens(page, rest);
    forall i | 0 <= i < |less|
      ensures less[i] == (all[..k] + all[k + 1..])[i]
    {
      assert i >= k ==> rest[(i + 1) - 1] == tokens[i + 1];
    }
  }

  // ---------- where matching elements are ----------

  lemma SiblingBelow(c: Node, y: Node, n: Node)
    requires Above(c, y) && EarlierSibling(y, n)
    ensures Above(c, n)
  {
    var last := |n.path| - 1;
    assert c.path == y.path[..|c.path|] == y.path[..last][..|c.path|] == n.path[..last][..|c.path|];
  }

  /** What matches is found below the context, or below its parent behind a leading sibling combinator. */
  lemma {:induction false} MatchIsBelow(page: Page, c: Element, tokens: seq<S.Token>, n: Node, wide: bool)
    requires Means(EnvAt(page, c), tokens, n)
    requires if tokens != [] && tokens[0].Combinator? then wide == (tokens[0].rel.dir == PreviousSibling)
             else !wide && page.place(c) != page.document
    ensures Above(if wide then Expanded(page.place(c)) else page.place(c), n)
    decreases |tokens|
  {
    if tokens != [] {
      var last := |tokens| - 1;
      match tokens[last] {
        case Simple(_) => MatchIsBelow(page, c, tokens[..last], n, wide);
        case Combinator(rel) =>
          if last == 0 {
            ContextIsBefore(page, c, rel, n);
          } else {
            var y :| Stands(page.forest, rel, false, y, n) && Means(EnvAt(page, c), tokens[..last], y);
            MatchIsBelow(page, c, tokens[..last], y, wide);
            if rel.dir == PreviousSibling {
              SiblingBelow(if wide then Expanded(page.place(c)) else page.place(c), y, n);
            }
          }
      }
    }
  }

  lemma ContextIsBefore(page: Page, c: Element, rel: S.Relative, n: Node)
    requires exists x :: InContext(EnvAt(page, c), x) && Stands(page.forest, rel, true, x, n)
    ensures Above(if rel.dir == PreviousSibling then Expanded(page.place(c)) else page.place(c), n)
  {
    if rel.dir == PreviousSibling {
      var last := |n.path| - 1;
      assert EarlierSibling(page.place(c), n);
      assert Expanded(page.place(c)).path == n.path[..last];
    }
  }

  // ---------- the seed ----------

  /** Where `select` takes a seed, or none, the outcome stands for what the tokens mean. */
  lemma ReducedStandsForMeant(page: Page, env: Select.Env, tokens: Tokenizer.Group, c: Element, o: Select.Outcome, e: Element)
    requires Agree(page, env) && Select.IsReduced(env, tokens, c, o) && tokens != []
    requires forall j | 0 <= j < |tokens| :: tokens[j].value != ""
    ensures StandsFor(page, o, e) <==> Meant(page, tokens, c, e)
  {
    if !env.needsContext(Tokenizer.ToSelector(tokens)) && exists k: nat :: Select.IsSeed(env, tokens, c, k) {
      var k: nat :| Select.IsSeed(env, tokens, c, k) &&
        Select.IsSeeded(tokens, c, k, Select.Finds(env, tokens, k, c).value, o);
      SeedStandsForMeant(page, env, tokens, c, k, o, e);
    } else {
      WholeStandsForMeant(page, env, tokens, c, o, e);
    }
  }

  lemma AnotherToken(tokens: Tokenizer.Group, k: nat)
    requires k < |tokens| && |tokens| > 1 && forall j | 0 <= j < |tokens| :: tokens[j].value != ""
    ensures exists j :: 0 <= j < |tokens| && j != k && tokens[j].value != ""
  {
    assert tokens[if k == 0 then 1 else 0].value != "";
  }

  lemma SeedStandsForMeant(page: Page, env: Select.Env, tokens: Tokenizer.Group, c: Element, k: nat, o: Select.Outcome, e: Element)
    requires Agree(page, env) && Select.IsSeed(env, tokens, c, k)
    requires Select.IsSeeded(tokens, c, k, Select.Finds(env, tokens, k, c).value, o)
    requires forall j | 0 <= j < |tokens| :: tokens[j].value != ""
    ensures StandsFor(page, o, e) <==> Meant(page, tokens, c, e)
  {
    var seed := Select.Finds(env, tokens, k, c).value;
    var all := Tokens(page, tokens);
    var n := page.place(e);
    var rest := all[..k] + all[k + 1..];
    assert forall j | k <= j < |all| :: all[j].Simple?;
    AskedFirst(EnvAt(page, c), all, k, n);
    assert FoundBy(page, tokens, k, c, seed);
    match o {
      case SyntaxError =>
      case Done(results) =>
        if seed != [] {
          if |tokens| > 1 {
            AnotherToken(tokens, k);
          }
          assert rest == [];
          assert !LeadingSibling(page, tokens);
          assert e in seed ==> Above(page.place(c), n);
          assert e in seed ==> InContext(EnvAt(page, c), page.place(c));
        }
      case Filter(text, groups, c', s) =>
        RestRead(page, tokens, k, groups[0]);
        assert (exists g :: 0 <= g < |groups| && Means(EnvAt(page, c), Tokens(page, groups[g]), n)) <==>
          Means(EnvAt(page, c), rest, n);
    }
  }

  lemma WholeStandsForMeant(page: Page, env: Select.Env, tokens: Tokenizer.Group, c: Element, o: Select.Outcome, e: Element)
    requires Agree(page, env) && tokens != []
    requires o == Select.Filter(Tokenizer.ToSelector(tokens), [tokens], c, None)
    ensures StandsFor(page, o, e) <==> Meant(page, tokens, c, e)
  {
    var n := page.place(e);
    var all := Tokens(page, tokens);
    assert o.groups[0] == tokens;
    if Means(EnvAt(page, c), all, n) {
      if all[0].Combinator? || page.place(c) != page.document {
        MatchIsBelow(page, c, all, n, LeadingSibling(page, tokens));
      }
    }
  }

  // ---------- the shortcut through an id ----------

  /** Looking up an id in the document gives the one node that has it, as HTML demands. */
  ghost predicate IdsAgree(page: Page, env: Select.Env)
  {
    (forall c :: env.idContext(c) ==> page.place(c) == page.document) &&
    forall t: Tokenizer.Token, c | t.kind == "ID" && env.idContext(c) ::
      page.read(t).Simple? && IdFound(page, page.read(t).filter, env.findId(t.first, c))
  }

  ghost predicate IdFound(page: Page, id: nat, found: Option<Element>)
  {
    match found
    case None => forall m: Node | m.root == page.document.root :: !page.test(id, m)
    case Some(f) => IsElement(page.forest, page.place(f)) && IsOnly(page, id, page.place(f))
  }

  ghost predicate IsOnly(page: Page, id: nat, n: Node)
  {
    n.root == page.document.root && n != page.document &&
    forall m: Node | m.root == page.document.root :: page.test(id, m) <==> m == n
  }

  lemma {:induction false} PrefixHasKids(t: Tree, p: seq<nat>, q: seq<nat>)
    requires HasPath(t, p) && q < p
    ensures HasPath(t, q) && Subtree(t, q).kids != []
  {
    if q != [] {
      PrefixHasKids(t.kids[p[0]], p[1..], q[1..]);
    }
  }

  /** From an element it does not matter whether other nodes count. */
  lemma BaseDoesNotMatter(f: Forest, rel: S.Relative, y: Node, n: Node)
    requires S.ParentsAreElements(f) && IsElement(f, y) && IsNode(f, n)
    ensures Stands(f, rel, false, y, n) <==> Stands(f, rel, true, y, n)
  {
    forall z | Towards(rel.dir, z, n) && Towards(rel.dir, y, z)
      ensures Counts(f, rel.dir, false, z) == Counts(f, rel.dir, true, z)
    {
      if rel.dir == ParentNode {
        PrefixHasKids(f[n.root], n.path, z.path);
      }
    }
  }

  lemma {:induction false} IdIsContext(page: Page, c: Element, f: Element, tokens: seq<S.Token>, n: Node)
    requires S.ParentsAreElements(page.forest) && page.place(c) == page.document
    requires |tokens| >= 2 && tokens[0].Simple? && tokens[1].Combinator?
    requires IsElement(page.forest, page.place(f)) && IsOnly(page, tokens[0].filter, page.place(f))
    requires IsNode(page.forest, n) && n.root == page.document.root
    ensures Means(EnvAt(page, c), tokens, n) <==> Means(EnvAt(page, f), tokens[1..], n)
    decreases |tokens|
  {
    var last := |tokens| - 1;
    assert tokens[1..][..last - 1] == tokens[..last][1..];
    if last == 1 {
      IdIsFirstContext(page, c, f, tokens, n);
    } else {
      match tokens[last] {
        case Simple(_) => IdIsContext(page, c, f, tokens[..last], n);
        case Combinator(rel) =>
          forall y | Stands(page.forest, rel, false, y, n)
            ensures Means(EnvAt(page, c), tokens[..last], y) <==> Means(EnvAt(page, f), tokens[1..][..last - 1], y)
          {
            IdIsContext(page, c, f, tokens[..last], y);
          }
      }
    }
  }

  lemma IdIsFirstContext(page: Page, c: Element, f: Element, tokens: seq<S.Token>, n: Node)
    requires S.ParentsAreElements(page.forest) && page.place(c) == page.document
    requires |tokens| == 2 && tokens[0].Simple? && tokens[1].Combinator?
    requires IsElement(page.forest, page.place(f)) && IsOnly(page, tokens[0].filter, page.place(f))
    requires IsNode(page.forest, n) && n.root == page.document.root
    ensures Means(EnvAt(page, c), tokens, n) <==> Means(EnvAt(page, f), tokens[1..], n)
  {
    var rel := tokens[1].rel;
    assert tokens[..1][..0] == [];
    forall y | Stands(page.forest, rel, false, y, n)
      ensures Means(EnvAt(page, c), tokens[..1], y) <==> y == page.place(f)
    {
    }
    BaseDoesNotMatter(page.forest, rel, page.place(f), n);
    assert forall x :: InContext(EnvAt(page, f), x) <==> x == page.place(f);
  }

  lemma {:induction false} IdIsNeeded(page: Page, c: Element, tokens: seq<S.Token>, n: Node)
    requires tokens != [] && tokens[0].Simple? && n.root == page.document.root && Means(EnvAt(page, c), tokens, n)
    ensures exists m: Node :: m.root == page.document.root && page.test(tokens[0].filter, m)
    decreases |tokens|
  {
    var last := |tokens| - 1;
    match tokens[last]
    case Simple(_) =>
      if last > 0 {
        IdIsNeeded(page, c, tokens[..last], n);
      }
    case Combinator(rel) =>
      var y :| Stands(page.forest, rel, false, y, n) && Means(EnvAt(page, c), tokens[..last], y);
      IdIsNeeded(page, c, tokens[..last], y);
  }

  /** Through the id or not, the outcome stands for what the tokens mean. */
  lemma ShortcutStandsForMeant(page: Page, env: Select.Env, tokens: Tokenizer.Group, c: Element, o: Select.Outcome, e: Element)
    requires Agree(page, env) && IdsAgree(page, env) && S.ParentsAreElements(page.forest)
    requires Select.IsShortcut(env, tokens, c, o) && tokens != []
    requires forall j | 0 <= j < |tokens| :: tokens[j].value != ""
    ensures StandsFor(page, o, e) <==> Meant(page, tokens, c, e)
  {
    if Select.IdLed(env, tokens, c) {
      var t, n := tokens[0], page.place(e);
      var all := Tokens(page, tokens);
      assert IdFound(page, page.read(t).filter, env.findId(t.first, c));
      match env.findId(t.first, c) {
        case None =>
          if Meant(page, tokens, c, e) {
            IdIsNeeded(page, c, all, n);
          }
        case Some(f) =>
          ReducedStandsForMeant(page, env, tokens[1..], f, o, e);
          IdStandsForMeant(page, env, tokens, c, f, e);
      }
    } else {
      ReducedStandsForMeant(page, env, tokens, c, o, e);
    }
  }

  lemma IdStandsForMeant(page: Page, env: Select.Env, tokens: Tokenizer.Group, c: Element, f: Element, e: Element)
    requires Agree(page, env) && S.ParentsAreElements(page.forest) && page.place(c) == page.document
    requires |tokens| > 2 && page.read(tokens[0]).Simple? && page.read(tokens[1]).Combinator?
    requires IdFound(page, page.read(tokens[0]).filter, Some(f))
    ensures Meant(page, tokens[1..], f, e) <==> Meant(page, tokens, c, e)
  {
    var n := page.place(e);
    var all := Tokens(page, tokens);
    assert Tokens(page, tokens[1..]) == all[1..];
    if IsElement(page.forest, n) && n.root == page.document.root {
      IdIsContext(page, c, f, all, n);
      if Means(EnvAt(page, f), all[1..], n) {
        MatchIsBelow(page, f, all[1..], n, LeadingSibling(page, tokens[1..]));
      }
    }
  }

  // ---------- the main result ----------

  /**
   Main result: for a selector of one group, `select` without a seed leads exactly to the elements
   the selector means, through whatever shortcut and seed.
   */
  lemma SelectStandsForMeant(page: Page, env: Select.Env, sc: Tokenizer.Scanners, selector: string, c: Element,
                             o: Select.Outcome, e: Element)
    requires Agree(page, env) && IdsAgree(page, env) && S.ParentsAreElements(page.forest)
    requires Tokenizer.Sound(sc) && Tokenizer.Groups(sc, selector).Some? && |Tokenizer.Groups(sc, selector).value| == 1
    requires Select.IsShortcut(env, Tokenizer.Groups(sc, selector).value[0], c, o)
    ensures StandsFor(page, o, e) <==> Meant(page, Tokenizer.Groups(sc, selector).value[0], c, e)
  {
    var groups := Tokenizer.Groups(sc, selector).value;
    var pieces, soFar := Tokenizer.TokensAreWhatIsRead(sc, selector);
    Tokenizer.TokensHaveText(sc, pieces, selector, soFar);
    var commas := Tokenizer.TokensSpellTheSelector(sc, selector);
    ShortcutStandsForMeant(page, env, groups[0], c, o, e);
  }
}
