/**
 The cache of Sizzle's ancestor and sibling walks, and the run that uses it.

 Every node has one cell per direction, shared by all combinators of that direction.  A walk
 stamps the cell of each node it visits with the run (`dirruns`), its own name (`doneName`)
 and its answer there: `true`, or the number of the element being matched (`cachedruns`).
 Finding its own stamp it stops: on `true` it answers true, and on the current element's
 number it answers false without looking further, although the stamp only says that this one
 node failed.  That is right only because a walk that succeeds ends the matching of its
 element, which in turn holds because a compound's combinator is tested last.
 */
module MatcherCache {
  import opened Wrappers
  import opened Dom
  import opened Selectors

  datatype Cell = Cell(node: Node, dir: Dir)

  datatype Answer = Unset | Hit | Miss(pass: nat)

  datatype Stamp = Stamp(run: nat, doneName: nat, answer: Answer)

  type Cells = map<Cell, Stamp>

  // ---------- the shape of compiled matchers ----------

  function Walks(m: Matcher): set<Matcher>
  {
    match m
    case Filter(_) => {}
    case IsContext => {}
    case AmongContexts => {}
    case ContextCheck(_, a, b) => Walks(a) + Walks(b)
    case Walk(_, _, _, inner) => {m} + Walks(inner)
    case All(ms) => set i, w | 0 <= i < |ms| && w in Walks(ms[i]) :: w
  }

  predicate Named(ws: set<Matcher>, name: nat)
  {
    exists w :: w in ws && w.Walk? && w.doneName == name
  }

  /** A `doneName` belongs to one combinator. */
  ghost predicate NamesUnique(ws: set<Matcher>)
  {
    forall v, w :: v in ws && w in ws && v.Walk? && w.Walk? && v.doneName == w.doneName ==> v == w
  }

  /** Within a compound only the matcher tested last (index 0) walks. */
  ghost predicate CombinatorLast(m: Matcher)
  {
    match m
    case Filter(_) => true
    case IsContext => true
    case AmongContexts => true
    case ContextCheck(_, a, b) => CombinatorLast(a) && CombinatorLast(b)
    case Walk(_, _, name, inner) => CombinatorLast(inner) && !Named(Walks(inner), name)
    case All(ms) =>
      ms != [] &&
      (forall i | 0 <= i < |ms| :: CombinatorLast(ms[i])) &&
      (forall i | 1 <= i < |ms| :: Walks(ms[i]) == {})
  }

  // ---------- what the cells may say ----------

  predicate StampedBy(s: Stamp, w: Matcher, run: nat)
  {
    w.Walk? && s.run == run && s.doneName == w.doneName
  }

  /** Stamps of the current run tell the truth about the node they sit on. */
  ghost predicate Truthful(env: Env, w: Matcher, cell: Cell, answer: Answer, pass: nat)
    requires w.Walk?
  {
    w.rel.dir == cell.dir && !w.rel.first &&
    match answer
    case Unset => true
    case Hit => Eligible(env.forest, cell.dir, w.base, cell.node) && Accepts(env, w.inner, cell.node)
    case Miss(p) => p <= pass && !Accepts(env, w.inner, cell.node)
  }

  ghost predicate Sound(env: Env, ws: set<Matcher>, cells: Cells, run: nat, pass: nat)
  {
    forall c | c in cells && cells[c].run == run ::
      exists w :: w in ws && StampedBy(cells[c], w, run) && Truthful(env, w, c, cells[c].answer, pass)
  }

  /**
   No walk of `ws` is under way: every stamp has its answer, and where the answer is the
   current element's number, the rest of that walk fails too.
   */
  ghost predicate Closed(env: Env, ws: set<Matcher>, cells: Cells, run: nat, pass: nat)
  {
    forall c, w | c in cells && w in ws && StampedBy(cells[c], w, run) ::
      cells[c].answer != Unset &&
      (cells[c].answer == Miss(pass) ==> !WalkFrom(env, w, Step(w.rel.dir, c.node)))
  }

  /** No stamp of `ws` lacks its answer. */
  ghost predicate Settled(ws: set<Matcher>, cells: Cells, run: nat)
  {
    forall c, w | c in cells && w in ws && StampedBy(cells[c], w, run) :: cells[c].answer != Unset
  }

  /** All that changed from `before` to `now` are stamps of `ws`, on nodes strictly before `n`. */
  ghost predicate OnlyStamped(before: Cells, now: Cells, ws: set<Matcher>, run: nat, n: Node)
  {
    before.Keys <= now.Keys &&
    forall c | c in now ::
      (c in before && now[c] == before[c]) ||
      (Before(c.node, n) && now[c].run == run && Named(ws, now[c].doneName))
  }

  lemma OnlyStampedTrans(a: Cells, b: Cells, c: Cells, v: set<Matcher>, w: set<Matcher>, run: nat, m: Node, n: Node)
    requires OnlyStamped(a, b, v, run, m) && v <= w && (m == n || Before(m, n))
    requires OnlyStamped(b, c, w, run, n)
    ensures OnlyStamped(a, c, w, run, n)
  {
    forall k | k in c && !(k in a && c[k] == a[k])
      ensures Before(k.node, n) && c[k].run == run && Named(w, c[k].doneName)
    {
      if k in b && c[k] == b[k] && m != n {
        BeforeTransitive(k.node, m, n);
      }
    }
  }

  lemma ClosedExtends(env: Env, v: set<Matcher>, w: set<Matcher>, before: Cells, now: Cells, run: nat, pass: nat, n: Node)
    requires v <= w && NamesUnique(w)
    requires OnlyStamped(before, now, v, run, n)
    requires Closed(env, w, before, run, pass)
    ensures Closed(env, v, now, run, pass) ==> Closed(env, w, now, run, pass)
    ensures Settled(v, now, run) ==> Settled(w, now, run)
  {
  }

  /** What a walk's inner matcher stamps before `x`, the walk may count as its own before `n`. */
  lemma Widen(before: Cells, now: Cells, v: set<Matcher>, w: set<Matcher>, run: nat, x: Node, n: Node)
    requires OnlyStamped(before, now, v, run, x) && v <= w && Before(x, n)
    ensures OnlyStamped(before, now, v, run, n) && OnlyStamped(before, now, w, run, n)
  {
    forall c | c in now && !(c in before && now[c] == before[c])
      ensures Before(c.node, n) && Named(w, now[c].doneName)
    {
      BeforeTransitive(c.node, x, n);
    }
  }

  /**
   The state of the stamps of walk `m` while it stands on `elem`: complete, and where one
   carries the current element's number, either the walk fails from there on, or the node was
   passed by this very walk, which is then no better off than at `elem`.
   */
  ghost predicate VisitedUpTo(env: Env, m: Matcher, cells: Cells, run: nat, pass: nat, elem: Node)
    requires m.Walk?
  {
    forall c | c in cells && StampedBy(cells[c], m, run) ::
      cells[c].answer != Unset &&
      (cells[c].answer == Miss(pass) && WalkFrom(env, m, Step(m.rel.dir, c.node)) ==>
         !Before(c.node, elem) && WalkFrom(env, m, Step(m.rel.dir, elem)))
  }

  /** The stamps of walk `m` are as before, save perhaps one with `answer` on `elem`. */
  ghost predicate OwnStampsOnly(before: Cells, now: Cells, m: Matcher, run: nat, elem: Node, answer: Answer)
  {
    forall c | c in now && StampedBy(now[c], m, run) ::
      (c in before && now[c] == before[c]) || (c.node == elem && now[c].answer == answer)
  }

  /** Testing a walk's inner matcher touches neither the walk's own stamps nor the node's cells. */
  lemma InnerLeavesOwn(m: Matcher, before: Cells, now: Cells, run: nat, elem: Node, n: Node)
    requires m.Walk? && CombinatorLast(m) && Before(elem, n)
    requires OnlyStamped(before, now, Walks(m.inner), run, elem)
    ensures OnlyStamped(before, now, Walks(m), run, n)
    ensures forall c | c in now && StampedBy(now[c], m, run) :: c in before && now[c] == before[c]
    ensures forall answer :: OwnStampsOnly(before, now, m, run, elem, answer)
    ensures forall c | c in before && c.node == elem :: now[c] == before[c]
  {
    Widen(before, now, Walks(m.inner), Walks(m), run, elem, n);
    BeforeIrreflexive(elem);
  }

  /** The walk steps from `prev` to `elem`, which failed; its only new stamp is on `elem`. */
  lemma Advance(env: Env, m: Matcher, before: Cells, now: Cells, run: nat, pass: nat, prev: Node, elem: Node)
    requires m.Walk? && !m.rel.first && Step(m.rel.dir, prev) == Some(elem)
    requires VisitedUpTo(env, m, before, run, pass, prev)
    requires !(Eligible(env.forest, m.rel.dir, m.base, elem) && Accepts(env, m.inner, elem))
    requires OwnStampsOnly(before, now, m, run, elem, Miss(pass))
    ensures VisitedUpTo(env, m, now, run, pass, elem)
  {
    StepIsBefore(m.rel.dir, prev);
    BeforeIrreflexive(elem);
    forall c | c in now && StampedBy(now[c], m, run) && Before(c.node, elem)
      ensures Before(c.node, prev)
    {
      BeforeTransitive(c.node, elem, prev);
    }
  }

  /** A compound's walks are those of the matcher tested last. */
  lemma CompoundWalks(m: Matcher)
    requires m.All? && CombinatorLast(m)
    ensures Walks(m) == Walks(m.matchers[0])
  {
    forall w | w in Walks(m)
      ensures w in Walks(m.matchers[0])
    {
      var i :| 0 <= i < |m.matchers| && w in Walks(m.matchers[i]);
    }
  }

  lemma NothingStamped(before: Cells, now: Cells, run: nat, n: Node)
    requires OnlyStamped(before, now, {}, run, n)
    ensures before == now
  {
  }

  /** Writing a walk's truthful answer into a cell keeps all stamps sound and disturbs no inner walk. */
  lemma OwnStamp(env: Env, m: Matcher, c: Cell, before: Cells, now: Cells, ws: set<Matcher>, run: nat, pass: nat)
    requires m.Walk? && m in ws && CombinatorLast(m)
    requires c in now && StampedBy(now[c], m, run) && Truthful(env, m, c, now[c].answer, pass)
    requires now == before[c := now[c]]
    requires Sound(env, ws, before, run, pass)
    ensures Sound(env, ws, now, run, pass)
    ensures Closed(env, Walks(m.inner), before, run, pass) ==> Closed(env, Walks(m.inner), now, run, pass)
    ensures Settled(Walks(m.inner), before, run) ==> Settled(Walks(m.inner), now, run)
  {
  }

  lemma OwnStampIsTrue(env: Env, m: Matcher, c: Cell, cells: Cells, ws: set<Matcher>, run: nat, pass: nat)
    requires m in ws && NamesUnique(ws) && Sound(env, ws, cells, run, pass)
    requires c in cells && StampedBy(cells[c], m, run)
    ensures Truthful(env, m, c, cells[c].answer, pass)
  {
  }

  /** All stamps being complete, a walk may start at `n`. */
  lemma WalkStarts(env: Env, m: Matcher, cells: Cells, run: nat, pass: nat, n: Node)
    requires m.Walk? && Closed(env, Walks(m), cells, run, pass)
    ensures VisitedUpTo(env, m, cells, run, pass, n) && Closed(env, Walks(m.inner), cells, run, pass)
    ensures OnlyStamped(cells, cells, Walks(m), run, n)
  {
    assert m in Walks(m);
  }

  /** The node after `prev`, on a walk from `n`, lies strictly before `n`. */
  lemma NextIsBefore(dir: Dir, n: Node, prev: Node)
    requires (prev == n || Before(prev, n)) && Step(dir, prev).Some?
    ensures Before(Step(dir, prev).value, n)
  {
    StepIsBefore(dir, prev);
    if prev != n {
      BeforeTransitive(Step(dir, prev).value, prev, n);
    }
  }

  /** A walk that fails from `elem` on leaves no stamp that would mislead a later walk. */
  lemma WalkEnds(env: Env, m: Matcher, cells: Cells, run: nat, pass: nat, elem: Node)
    requires m.Walk?
    requires VisitedUpTo(env, m, cells, run, pass, elem) && !WalkFrom(env, m, Step(m.rel.dir, elem))
    requires Closed(env, Walks(m.inner), cells, run, pass)
    ensures Closed(env, Walks(m), cells, run, pass) && Settled(Walks(m), cells, run)
  {
  }

  /** Finding the current element's number on the next node, a walk is right to give up. */
  lemma FoundOwnStamp(env: Env, m: Matcher, cells: Cells, run: nat, pass: nat, prev: Node, elem: Node)
    requires m.Walk? && !m.rel.first && Step(m.rel.dir, prev) == Some(elem)
    requires VisitedUpTo(env, m, cells, run, pass, prev)
    requires Closed(env, Walks(m.inner), cells, run, pass)
    requires var c := Cell(elem, m.rel.dir); c in cells && StampedBy(cells[c], m, run) && Truthful(env, m, c, cells[c].answer, pass)
    ensures Settled(Walks(m), cells, run)
    ensures cells[Cell(elem, m.rel.dir)].answer == Hit ==> WalkFrom(env, m, Step(m.rel.dir, prev))
    ensures cells[Cell(elem, m.rel.dir)].answer == Miss(pass) ==>
              !WalkFrom(env, m, Step(m.rel.dir, prev)) && Closed(env, Walks(m), cells, run, pass)
  {
    StepIsBefore(m.rel.dir, prev);
    if cells[Cell(elem, m.rel.dir)].answer == Miss(pass) {
      WalkEnds(env, m, cells, run, pass, prev);
    }
  }

  /** A walk that succeeds leaves all its stamps complete. */
  lemma HitEnds(env: Env, m: Matcher, before: Cells, now: Cells, run: nat, pass: nat, prev: Node, elem: Node)
    requires m.Walk? && VisitedUpTo(env, m, before, run, pass, prev)
    requires OwnStampsOnly(before, now, m, run, elem, Hit) && Settled(Walks(m.inner), now, run)
    ensures Settled(Walks(m), now, run)
  {
  }

  /** Stamp, test the inner matcher, stamp again: the net effect on the cells. */
  lemma StampedTwice(m: Matcher, c: Cell, a: Cells, b: Cells, tested: Cells, d: Cells,
                     run: nat, elem: Node, n: Node, answer: Answer)
    requires m.Walk? && Before(elem, n) && c == Cell(elem, m.rel.dir)
    requires b == a[c := Stamp(run, m.doneName, Unset)]
    requires OnlyStamped(b, tested, Walks(m), run, n)
    requires forall k | k in tested && StampedBy(tested[k], m, run) :: k in b && tested[k] == b[k]
    requires d == tested[c := Stamp(run, m.doneName, answer)]
    ensures OwnStampsOnly(a, d, m, run, elem, answer) && OnlyStamped(a, d, Walks(m), run, n)
  {
    assert m in Walks(m);
  }

  class Engine {
    var cells: Cells
    var dirruns: nat
    var cachedruns: nat

    constructor ()
      ensures cells == map[] && dirruns == 0 && cachedruns == 0
    {
      cells, dirruns, cachedruns := map[], 0, 0;
    }

    /** Calling a compiled matcher on a node. */
    method Test(env: Env, m: Matcher, n: Node, ghost ws: set<Matcher>) returns (b: bool)
      requires CombinatorLast(m) && Walks(m) <= ws && NamesUnique(ws)
      requires Sound(env, ws, cells, dirruns, cachedruns)
      requires Closed(env, Walks(m), cells, dirruns, cachedruns)
      modifies this`cells
      ensures b == Accepts(env, m, n)
      ensures Sound(env, ws, cells, dirruns, cachedruns)
      ensures !b ==> Closed(env, Walks(m), cells, dirruns, cachedruns)
      ensures Settled(Walks(m), cells, dirruns)
      ensures OnlyStamped(old(cells), cells, Walks(m), dirruns, n)
      decreases m, 1
    {
      match m
      case Filter(id) => b := env.test(id, n);
      case IsContext => b := env.context == Single(n);
      case AmongContexts => b := env.context.Several? && n in env.context.nodes;
      case ContextCheck(leading, matchContext, matchAnyContext) =>
        if !leading && (env.xml || env.outermost != Some(env.context)) {
          b := true;
        } else {
          var check := if env.context.Single? then matchContext else matchAnyContext;
          b := Test(env, check, n, ws);
          ClosedExtends(env, Walks(check), Walks(m), old(cells), cells, dirruns, cachedruns, n);
        }
      case Walk(rel, _, _, _) =>
        if rel.first {
          b := TestFirst(env, m, n, ws);
        } else {
          b := TestAll(env, m, n, ws);
        }
      case All(ms) =>
        b := TestCompound(env, m, n, ws);
    }

    /** The loop of `elementMatcher`: from the last matcher down to the first. */
    method TestCompound(env: Env, m: Matcher, n: Node, ghost ws: set<Matcher>) returns (b: bool)
      requires m.All?
      requires CombinatorLast(m) && Walks(m) <= ws && NamesUnique(ws)
      requires Sound(env, ws, cells, dirruns, cachedruns)
      requires Closed(env, Walks(m), cells, dirruns, cachedruns)
      modifies this`cells
      ensures b == Accepts(env, m, n)
      ensures Sound(env, ws, cells, dirruns, cachedruns)
      ensures !b ==> Closed(env, Walks(m), cells, dirruns, cachedruns)
      ensures Settled(Walks(m), cells, dirruns)
      ensures OnlyStamped(old(cells), cells, Walks(m), dirruns, n)
      decreases m, 0
    {
      var ms := m.matchers;
      var i := |ms|;
      CompoundWalks(m);
      while i > 0
        invariant 0 <= i <= |ms|
        invariant forall j | i <= j < |ms| :: Accepts(env, ms[j], n)
        invariant i > 0 ==> cells == old(cells)
        invariant Sound(env, ws, cells, dirruns, cachedruns)
        invariant Settled(Walks(ms[0]), cells, dirruns)
        invariant OnlyStamped(old(cells), cells, Walks(ms[0]), dirruns, n)
      {
        i := i - 1;
        b := Test(env, ms[i], n, ws);
        if i > 0 {
          NothingStamped(old(cells), cells, dirruns, n);
        }
        if !b {
          return;
        }
      }
      b := true;
    }

    /** `>` and `+`: only the nearest node counts, and nothing is cached. */
    method TestFirst(env: Env, m: Matcher, n: Node, ghost ws: set<Matcher>) returns (b: bool)
      requires m.Walk? && m.rel.first
      requires CombinatorLast(m) && Walks(m) <= ws && NamesUnique(ws)
      requires Sound(env, ws, cells, dirruns, cachedruns)
      requires Closed(env, Walks(m), cells, dirruns, cachedruns)
      modifies this`cells
      ensures b == WalkFrom(env, m, Step(m.rel.dir, n))
      ensures Sound(env, ws, cells, dirruns, cachedruns)
      ensures !b ==> Closed(env, Walks(m), cells, dirruns, cachedruns)
      ensures Settled(Walks(m), cells, dirruns)
      ensures OnlyStamped(old(cells), cells, Walks(m), dirruns, n)
      decreases m, 0
    {
      var elem := Step(m.rel.dir, n);
      if elem.Some? {
        StepIsBefore(m.rel.dir, n);
      }
      while elem.Some?
        invariant elem.Some? ==> Before(elem.value, n)
        invariant cells == old(cells)
        invariant WalkFrom(env, m, Step(m.rel.dir, n)) == WalkFrom(env, m, elem)
        decreases if elem.Some? then 1 + StepsLeft(m.rel.dir, elem.value) else 0
      {
        if Eligible(env.forest, m.rel.dir, m.base, elem.value) {
          b := Test(env, m.inner, elem.value, ws);
          Widen(old(cells), cells, Walks(m.inner), Walks(m), dirruns, elem.value, n);
          ClosedExtends(env, Walks(m.inner), Walks(m), old(cells), cells, dirruns, cachedruns, n);
          return;
        }
        if Step(m.rel.dir, elem.value).Some? {
          StepIsBefore(m.rel.dir, elem.value);
          BeforeTransitive(Step(m.rel.dir, elem.value).value, elem.value, n);
        }
        elem := Step(m.rel.dir, elem.value);
      }
      b := false;
    }
 

    /** One node of a caching walk: test it, and leave the answer in its cell unless in XML. */
    method Probe(env: Env, m: Matcher, elem: Node, ghost n: Node, ghost ws: set<Matcher>) returns (r: bool)
      requires m.Walk? && !m.rel.first && Before(elem, n) && Eligible(env.forest, m.rel.dir, m.base, elem)
      requires CombinatorLast(m) && Walks(m) <= ws && NamesUnique(ws)
      requires Sound(env, ws, cells, dirruns, cachedruns)
      requires Closed(env, Walks(m.inner), cells, dirruns, cachedruns)
      modifies this`cells
      ensures r == Accepts(env, m.inner, elem)
      ensures Sound(env, ws, cells, dirruns, cachedruns)
      ensures !r ==> Closed(env, Walks(m.inner), cells, dirruns, cachedruns)
      ensures Settled(Walks(m.inner), cells, dirruns)
      ensures OnlyStamped(old(cells), cells, Walks(m), dirruns, n)
      ensures OwnStampsOnly(old(cells), cells, m, dirruns, elem, if r then Hit else Miss(cachedruns))
      decreases m, 0, 0
    {
      if env.xml {
        r := Test(env, m.inner, elem, ws);
        InnerLeavesOwn(m, old(cells), cells, dirruns, elem, n);
      } else {
        var c := Cell(elem, m.rel.dir);
        var stamp := Stamp(dirruns, m.doneName, Unset);
        cells := cells[c := stamp];
        ghost var was := cells;
        OwnStamp(env, m, c, old(cells), cells, ws, dirruns, cachedruns);
        r := Test(env, m.inner, elem, ws);
        InnerLeavesOwn(m, was, cells, dirruns, elem, n);
        // the inner walks have left this cell alone, so the answer lands in it
        assert cells[c] == stamp;
        ghost var tested := cells;
        cells := cells[c := stamp.(answer := if r then Hit else Miss(cachedruns))];
        OwnStamp(env, m, c, tested, cells, ws, dirruns, cachedruns);
        StampedTwice(m, c, old(cells), was, tested, cells, dirruns, elem, n, cells[c].answer);
      }
    }

    /** One node of a caching walk; Some(b) when the walk ends there with answer b. */
    method Visit(env: Env, m: Matcher, ghost prev: Node, elem: Node, ghost n: Node, ghost ws: set<Matcher>,
                 ghost start: Cells)
      returns (verdict: Option<bool>)
      requires m.Walk? && !m.rel.first && Step(m.rel.dir, prev) == Some(elem) && Before(elem, n)
      requires CombinatorLast(m) && Walks(m) <= ws && NamesUnique(ws)
      requires Sound(env, ws, cells, dirruns, cachedruns)
      requires Closed(env, Walks(m.inner), cells, dirruns, cachedruns)
      requires VisitedUpTo(env, m, cells, dirruns, cachedruns, prev)
      requires OnlyStamped(start, cells, Walks(m), dirruns, n)
      modifies this`cells
      ensures Sound(env, ws, cells, dirruns, cachedruns)
      ensures OnlyStamped(start, cells, Walks(m), dirruns, n)
      ensures verdict.Some? ==>
        verdict.value == WalkFrom(env, m, Some(elem)) &&
        Settled(Walks(m), cells, dirruns) &&
        (!verdict.value ==> Closed(env, Walks(m), cells, dirruns, cachedruns))
      ensures verdict.None? ==>
        WalkFrom(env, m, Some(elem)) == WalkFrom(env, m, Step(m.rel.dir, elem)) &&
        Closed(env, Walks(m.inner), cells, dirruns, cachedruns) &&
        VisitedUpTo(env, m, cells, dirruns, cachedruns, elem)
      decreases m, 0, 1
    {
      var c := Cell(elem, m.rel.dir);
      if Eligible(env.forest, m.rel.dir, m.base, elem) {
        if !env.xml && c in cells && cells[c].run == dirruns && cells[c].doneName == m.doneName {
          OwnStampIsTrue(env, m, c, cells, ws, dirruns, cachedruns);
          if cells[c].answer == Hit || cells[c].answer == Miss(cachedruns) {
            FoundOwnStamp(env, m, cells, dirruns, cachedruns, prev, elem);
            return Some(cells[c].answer == Hit);
          }
        } else {
          var b := Probe(env, m, elem, n, ws);
          OnlyStampedTrans(start, old(cells), cells, Walks(m), Walks(m), dirruns, n, n);
          if b {
            HitEnds(env, m, old(cells), cells, dirruns, cachedruns, prev, elem);
            return Some(true);
          }
        }
      }
      Advance(env, m, old(cells), cells, dirruns, cachedruns, prev, elem);
      verdict := None;
    }

    /** Descendant and `~`: every node in the direction counts, and the cells are used. */
    method TestAll(env: Env, m: Matcher, n: Node, ghost ws: set<Matcher>) returns (b: bool)
      requires m.Walk? && !m.rel.first
      requires CombinatorLast(m) && Walks(m) <= ws && NamesUnique(ws)
      requires Sound(env, ws, cells, dirruns, cachedruns)
      requires Closed(env, Walks(m), cells, dirruns, cachedruns)
      modifies this`cells
      ensures b == WalkFrom(env, m, Step(m.rel.dir, n))
      ensures Sound(env, ws, cells, dirruns, cachedruns)
      ensures !b ==> Closed(env, Walks(m), cells, dirruns, cachedruns)
      ensures Settled(Walks(m), cells, dirruns)
      ensures OnlyStamped(old(cells), cells, Walks(m), dirruns, n)
      decreases m, 0, 2
    {
      var elem := n;
      WalkStarts(env, m, cells, dirruns, cachedruns, n);
      while Step(m.rel.dir, elem).Some?
        invariant elem == n || Before(elem, n)
        invariant WalkFrom(env, m, Step(m.rel.dir, n)) == WalkFrom(env, m, Step(m.rel.dir, elem))
        invariant Sound(env, ws, cells, dirruns, cachedruns)
        invariant Closed(env, Walks(m.inner), cells, dirruns, cachedruns)
        invariant VisitedUpTo(env, m, cells, dirruns, cachedruns, elem)
        invariant OnlyStamped(old(cells), cells, Walks(m), dirruns, n)
        decreases StepsLeft(m.rel.dir, elem)
      {
        ghost var prev := elem;
        NextIsBefore(m.rel.dir, n, prev);
        elem := Step(m.rel.dir, elem).value;
        var verdict := Visit(env, m, prev, elem, n, ws, old(cells));
        if verdict.Some? {
          return verdict.value;
        }
      }
      WalkEnds(env, m, cells, dirruns, cachedruns, elem);
      b := false;
    }
  }
}
