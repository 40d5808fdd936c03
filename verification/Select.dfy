/**
 `tokenize` with its cache and `select`, on the heap: the arrays the cache holds are shared with
 whoever asked for them, and no call changes one of them.
 */
module Select {
  import opened Wrappers
  import opened BoundedCache
  import opened Tokenizer

  /** An array of tokens. */
  class TokenList {
    var tokens: Group

    constructor (tokens: Group)
      ensures this.tokens == tokens
    {
      this.tokens := tokens;
    }
  }

  /** An array of such arrays. */
  class GroupList {
    var lists: seq<TokenList>

    constructor (lists: seq<TokenList>)
      ensures this.lists == lists
    {
      this.lists := lists;
    }
  }

  ghost predicate Holds(lists: seq<TokenList>, groups: seq<Group>)
    reads lists
  {
    |lists| == |groups| && forall i | 0 <= i < |lists| :: lists[i].tokens == groups[i]
  }

  type Context = nat

  /**
   What the rest of the program answers: whether the context is one to look up ids in, which
   token types are combinators, `Expr.find` (None where there is no finder or it gives nothing;
   its third argument is the type of the first token), and the test for selectors that need
   their context.
   */
  datatype Env = Env(
    idContext: Context -> bool,
    relative: string -> bool,
    findId: (string, Context) -> Option<Context>,
    find: (string, string, string, Context) -> Option<seq<nat>>,
    needsContext: string -> bool)

  /** An error, results pushed at once, or what is compiled and run on the seed. */
  datatype Outcome =
    | SyntaxError
    | Done(results: seq<nat>)
    | Filter(selector: string, groups: seq<Group>, context: Context, seed: Option<seq<nat>>)

  // ---------- what `select` decides for a single group ----------

  predicate IdLed(env: Env, tokens: Group, context: Context)
  {
    |tokens| > 2 && tokens[0].kind == "ID" && env.idContext(context) && env.relative(tokens[1].kind)
  }

  /** Place `k` is behind the last combinator. */
  predicate InLastCompound(env: Env, tokens: Group, k: nat)
  {
    k < |tokens| && forall j | k <= j < |tokens| :: !env.relative(tokens[j].kind)
  }

  function Finds(env: Env, tokens: Group, k: nat, context: Context): Option<seq<nat>>
    requires k < |tokens|
  {
    env.find(tokens[k].kind, tokens[k].first, tokens[0].kind, context)
  }

  /** The seed is what the last token of the last compound finds that finds anything. */
  predicate IsSeed(env: Env, tokens: Group, context: Context, k: nat)
  {
    InLastCompound(env, tokens, k) && Finds(env, tokens, k, context).Some? &&
    forall j | k < j < |tokens| :: Finds(env, tokens, j, context).None?
  }

  /** `rest` are the tokens other than token `k`, in order. */
  predicate AllBut(tokens: Group, k: nat, rest: Group)
    requires k < |tokens|
  {
    |rest| == |tokens| - 1 &&
    (forall j | 0 <= j < k :: rest[j] == tokens[j]) &&
    forall j | k < j < |tokens| :: rest[j - 1] == tokens[j]
  }

  /**
   With the seed from token `k` there is nothing more to do if it is empty or the other tokens
   spell nothing; else exactly those are left to be matched, on that seed and in that context.
   */
  predicate IsSeeded(tokens: Group, context: Context, k: nat, seed: seq<nat>, o: Outcome)
    requires k < |tokens|
  {
    match o
    case SyntaxError => false
    case Done(results) => results == seed && (seed == [] || forall j | 0 <= j < |tokens| && j != k :: tokens[j].value == "")
    case Filter(selector, groups, c, s) =>
      seed != [] && (exists j :: 0 <= j < |tokens| && j != k && tokens[j].value != "") &&
      c == context && s == Some(seed) && |groups| == 1 && AllBut(tokens, k, groups[0]) && selector == ToSelector(groups[0])
  }

  ghost predicate IsReduced(env: Env, tokens: Group, context: Context, o: Outcome)
  {
    if !env.needsContext(ToSelector(tokens)) && exists k: nat :: IsSeed(env, tokens, context, k) then
      exists k: nat ::
        IsSeed(env, tokens, context, k) && IsSeeded(tokens, context, k, Finds(env, tokens, k, context).value, o)
    else o == Filter(ToSelector(tokens), [tokens], context, None)
  }

  lemma {:induction false} SpellsNothingIff(tokens: Group)
    ensures ToSelector(tokens) == "" <==> forall j | 0 <= j < |tokens| :: tokens[j].value == ""
  {
    if tokens != [] {
      SpellsNothingIff(tokens[1..]);
      assert forall j | 0 < j < |tokens| :: tokens[1..][j - 1] == tokens[j];
    }
  }

  lemma Spliced(tokens: Group, k: nat)
    requires k < |tokens|
    ensures var rest := tokens[..k] + tokens[k + 1..];
      AllBut(tokens, k, rest) && (ToSelector(rest) == "" <==> forall j | 0 <= j < |tokens| && j != k :: tokens[j].value == "")
  {
    var rest := tokens[..k] + tokens[k + 1..];
    SpellsNothingIff(rest);
    forall j | 0 <= j < |tokens| && j != k
      ensures tokens[j] == rest[if j < k then j else j - 1]
    {
    }
  }

  ghost predicate IsShortcut(env: Env, tokens: Group, context: Context, o: Outcome)
  {
    if IdLed(env, tokens, context) then
      match env.findId(tokens[0].first, context)
      case None => o == Done([])
      case Some(found) => IsReduced(env, tokens[1..], found, o)
    else IsReduced(env, tokens, context, o)
  }

  /** Whatever is handed to `compile`, the text it is cached under is spelled by the tokens. */
  lemma CompiledTextIsSpelled(env: Env, tokens: Group, context: Context, o: Outcome)
    requires IsShortcut(env, tokens, context, o) && o.Filter?
    ensures |o.groups| == 1 && ToSelector(o.groups[0]) == o.selector
  {
  }

  // ---------- the objects ----------

  /** The arrays `g` consists of are among `shared` and hold what tokenizing `key` gives. */
  ghost predicate IsFresh(sc: Scanners, key: string, g: GroupList, shared: set<object>)
    requires Sound(sc)
    reads shared
  {
    g in shared && (forall l | l in g.lists :: l in shared) &&
    Groups(sc, key).Some? && Holds(g.lists, Groups(sc, key).value)
  }

  lemma FreshAmongMore(sc: Scanners, key: string, g: GroupList, shared: set<object>, more: set<object>)
    requires Sound(sc) && IsFresh(sc, key, g, shared) && shared <= more
    ensures IsFresh(sc, key, g, more)
  {
  }

  class Sizzle {
    const sc: Scanners
    const tokenCache: Cache<GroupList>
    /** The arrays reachable from the cache, now or earlier. */
    ghost var shared: set<object>

    ghost predicate Valid()
      reads this, tokenCache, shared
    {
      Sound(sc) && tokenCache.Valid() && this !in shared && tokenCache !in shared && Agrees()
    }

    /** A hit agrees with tokenizing afresh. */
    ghost predicate Agrees()
      requires Sound(sc)
      reads this, tokenCache, shared
    {
      forall key | key in tokenCache.entries :: IsFresh(sc, key, tokenCache.entries[key], shared)
    }

    constructor (sc: Scanners, cacheLength: nat)
      requires Sound(sc)
      ensures Valid() && this.sc == sc && fresh(tokenCache) && shared == {}
    {
      this.sc := sc;
      tokenCache := new Cache<GroupList>(cacheLength);
      shared := {};
      new;
      assert forall key :: !Present(tokenCache.stores, cacheLength, key);
    }

    /** The loop, on values. */
    method Read(selector: string) returns (groups: seq<Group>, soFar: string)
      requires Sound(sc)
      ensures var s := Scanned(sc, Scan([], selector, false)); s.groups == groups && s.soFar == soFar
    {
      groups, soFar := [], selector;
      var matched := false;
      var going := true;
      ghost var all := Scanned(sc, Scan([], selector, false));
      while going && soFar != ""
        invariant matched ==> groups != []
        invariant going ==> Scanned(sc, Scan(groups, soFar, matched)) == all
        invariant !going ==> groups == all.groups && soFar == all.soFar
        decreases going, |soFar|
      {
        ghost var before := Scan(groups, soFar, matched);
        var comma := if matched then sc.comma(soFar) else 0;
        if !matched || comma > 0 {
          if 0 < comma < |soFar| {
            soFar := soFar[comma..];
          }
          groups := groups + [[]];
        }
        matched := false;
        assert Scan(groups, soFar, matched) == TakeComma(sc, before);
        groups, soFar, matched := TakeOne(sc.combinator(soFar), groups, soFar, matched);
        groups, soFar, matched := ReadFilters(groups, soFar, matched);
        assert Scan(groups, soFar, matched) == Pass(sc, before);
        if !matched {
          going := false;
        }
      }
    }

    /** `for ( type in Expr.filter )` */
    method ReadFilters(groups: seq<Group>, soFar: string, matched: bool)
      returns (groups': seq<Group>, soFar': string, matched': bool)
      requires Sound(sc) && groups != []
      ensures Scan(groups', soFar', matched') == TakeFilters(sc, Scan(groups, soFar, matched), 0)
    {
      groups', soFar', matched' := groups, soFar, matched;
      var i := 0;
      while i < |sc.filters|
        invariant 0 <= i <= |sc.filters| && groups' != []
        invariant TakeFilters(sc, Scan(groups', soFar', matched'), i) ==
          TakeFilters(sc, Scan(groups, soFar, matched), 0)
      {
        groups', soFar', matched' := TakeOne(sc.filters[i](soFar'), groups', soFar', matched');
        i := i + 1;
      }
    }

    static method TakeOne(hit: Option<Hit>, groups: seq<Group>, soFar: string, matched: bool)
      returns (groups': seq<Group>, soFar': string, matched': bool)
      requires groups != [] && Matches(hit, soFar)
      ensures Scan(groups', soFar', matched') == Take(Scan(groups, soFar, matched), hit)
    {
      groups', soFar', matched' := groups, soFar, matched;
      if hit.Some? {
        groups' := Push(groups, Token(soFar[..hit.value.len], hit.value.kind, hit.value.first));
        soFar' := soFar[hit.value.len..];
        matched' := true;
      }
    }

    static method Arrays(groups: seq<Group>) returns (lists: seq<TokenList>)
      ensures Holds(lists, groups) && fresh(lists)
    {
      lists := [];
      while |lists| < |groups|
        invariant |lists| <= |groups| && Holds(lists, groups[..|lists|]) && fresh(lists)
      {
        var l := new TokenList(groups[|lists|]);
        lists := lists + [l];
      }
      assert groups[..|lists|] == groups;
    }

    /** The caller gets an outer array of its own; the inner ones are the cache's. */
    method Tokenize(selector: string) returns (r: Option<GroupList>)
      requires Valid()
      modifies this, tokenCache
      ensures Valid() && old(shared) <= shared && fresh(shared - old(shared))
      ensures r.Some? <==> Groups(sc, selector).Some?
      ensures r.Some? ==> fresh(r.value) && r.value !in shared && Holds(r.value.lists, Groups(sc, selector).value)
    {
      if selector in tokenCache.entries {
        var cached := tokenCache.entries[selector];
        assert IsFresh(sc, selector, cached, shared);
        var copy := new GroupList(cached.lists);
        r := Some(copy);
      } else {
        var groups, soFar := Read(selector);
        if soFar != "" {
          r := None;
        } else {
          var lists := Keep(selector, groups);
          var copy := new GroupList(lists);
          r := Some(copy);
        }
      }
    }

    method Keep(selector: string, groups: seq<Group>) returns (lists: seq<TokenList>)
      requires Valid() && Groups(sc, selector) == Some(groups)
      modifies this, tokenCache
      ensures Valid() && old(shared) <= shared && fresh(shared - old(shared))
      ensures Holds(lists, groups) && forall l | l in lists :: l in shared
    {
      var cached, arrays := Build(groups);
      Share(selector, cached, arrays);
      Store(selector, cached);
      lists := cached.lists;
    }

    static method Build(groups: seq<Group>) returns (g: GroupList, ghost arrays: set<object>)
      ensures fresh(arrays) && g in arrays && (forall l | l in g.lists :: l in arrays) && Holds(g.lists, groups)
    {
      var lists := Arrays(groups);
      g := new GroupList(lists);
      ghost var inner: set<object> := set l: TokenList | l in lists;
      arrays := inner + {g};
    }

    ghost method Share(key: string, g: GroupList, arrays: set<object>)
      requires Valid() && IsFresh(sc, key, g, arrays) && this !in arrays && tokenCache !in arrays
      modifies this`shared
      ensures Valid() && shared == old(shared) + arrays && IsFresh(sc, key, g, shared)
    {
      ghost var entries := tokenCache.entries;
      forall k | k in entries ensures IsFresh(sc, k, entries[k], shared + arrays) {
        FreshAmongMore(sc, k, entries[k], shared, shared + arrays);
      }
      shared := shared + arrays;
    }

    /** `tokenCache( selector, groups )` */
    method Store(selector: string, groups: GroupList)
      requires Valid() && IsFresh(sc, selector, groups, shared)
      modifies tokenCache
      ensures Valid()
    {
      ghost var entries := tokenCache.entries;
      tokenCache.Put(selector, groups);
      forall key | key in tokenCache.entries ensures IsFresh(sc, key, tokenCache.entries[key], shared) {
        assert key != selector ==> tokenCache.entries[key] == entries[key];
      }
    }

    method Select(env: Env, selector: string, context: Context, seed: Option<seq<nat>>) returns (o: Outcome)
      requires Valid()
      modifies this, tokenCache
      ensures Valid() && old(shared) <= shared && fresh(shared - old(shared))
      ensures Groups(sc, selector).None? ==> o == SyntaxError
      ensures Groups(sc, selector).Some? ==>
        var groups := Groups(sc, selector).value;
        if seed.None? && |groups| == 1 then IsShortcut(env, groups[0], context, o)
        else o == Filter(selector, groups, context, seed)
    {
      var found := Tokenize(selector);
      if found.None? {
        o := SyntaxError;
      } else {
        if |found.value.lists| == 1 {
          Spelled1(sc, selector);
        }
        o := Proceed(env, selector, found.value, Groups(sc, selector).value, context, seed);
      }
    }

    /** The rest of `select`; both arrays it changes are its own copies. */
    static method Proceed(env: Env, selector: string, found: GroupList, ghost groups: seq<Group>, context: Context,
                          seed: Option<seq<nat>>) returns (o: Outcome)
      requires Holds(found.lists, groups) && (|groups| == 1 ==> ToSelector(groups[0]) == selector)
      modifies found
      ensures
        if seed.None? && |groups| == 1 then IsShortcut(env, groups[0], context, o)
        else o == Filter(selector, groups, context, seed)
    {
      if seed.None? && |found.lists| == 1 {
        var tokens := new TokenList(found.lists[0].tokens);
        found.lists := [tokens];
        o := Shorten(env, selector, tokens, context);
      } else {
        var values := Values(found.lists);
        o := Filter(selector, values, context, seed);
      }
    }

    static lemma Spelled1(sc: Scanners, selector: string)
      requires Sound(sc) && Groups(sc, selector).Some? && |Groups(sc, selector).value| == 1
      ensures ToSelector(Groups(sc, selector).value[0]) == selector
    {
      var _ := TokensSpellTheSelector(sc, selector);
    }

    static method Values(lists: seq<TokenList>) returns (groups: seq<Group>)
      ensures Holds(lists, groups)
    {
      groups := [];
      while |groups| < |lists|
        invariant |groups| <= |lists| && Holds(lists[..|groups|], groups)
      {
        groups := groups + [lists[|groups|].tokens];
      }
      assert lists[..|groups|] == lists;
    }

    /** The part of `select` for a single group, which shifts and splices `tokens`. */
    static method Shorten(env: Env, selector: string, tokens: TokenList, context: Context) returns (o: Outcome)
      requires ToSelector(tokens.tokens) == selector
      modifies tokens
      ensures IsShortcut(env, old(tokens.tokens), context, o)
    {
      var context', selector' := context, selector;
      if IdLed(env, tokens.tokens, context) {
        var found := env.findId(tokens.tokens[0].first, context);
        if found.None? {
          return Done([]);
        }
        context' := found.value;
        selector' := selector[|tokens.tokens[0].value|..];
        tokens.tokens := tokens.tokens[1..];
      }
      assert ToSelector(tokens.tokens) == selector';
      o := Reduce(env, selector', tokens, context');
    }

    static method Reduce(env: Env, selector: string, tokens: TokenList, context: Context) returns (o: Outcome)
      requires ToSelector(tokens.tokens) == selector
      modifies tokens
      ensures IsReduced(env, old(tokens.tokens), context, o)
    {
      var i := if env.needsContext(selector) then 0 else |tokens.tokens|;
      while i > 0
        invariant 0 <= i <= |tokens.tokens| && tokens.tokens == old(tokens.tokens)
        invariant !env.needsContext(selector) ==> forall k: nat :: IsSeed(env, tokens.tokens, context, k) ==> k < i
        invariant !env.needsContext(selector) ==>
          forall j | i <= j < |tokens.tokens| ::
            !env.relative(tokens.tokens[j].kind) && Finds(env, tokens.tokens, j, context).None?
      {
        i := i - 1;
        var token := tokens.tokens[i];
        if env.relative(token.kind) {
          break;
        }
        var seed := env.find(token.kind, token.first, tokens.tokens[0].kind, context);
        if seed.Some? {
          assert IsSeed(env, tokens.tokens, context, i);
          Spliced(tokens.tokens, i);
          tokens.tokens := tokens.tokens[..i] + tokens.tokens[i + 1..];
          var selector' := if seed.value == [] then "" else ToSelector(tokens.tokens);
          if selector' == "" {
            return Done(seed.value);
          }
          return Filter(selector', [tokens.tokens], context, seed);
        }
      }
      o := Filter(selector, [tokens.tokens], context, None);
    }
  }
}
