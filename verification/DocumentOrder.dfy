/**
 Sizzle's fallback comparator (`sortOrder` with `siblingCheck`, for browsers without
 `compareDocumentPosition`) and `uniqueSort`.

 The comparator walks sibling and parent pointers.  What it must decide is the order in which
 a preorder traversal meets two nodes.
 */
module DocumentOrder {
  import opened Wrappers
  import opened Dom

  /** The forest, the index of the current document's tree and that of the window's document. */
  datatype Page = Page(forest: Forest, doc: nat, preferredDoc: nat)

  // ---------- the reference: preorder ----------

  /** The nodes of tree `t`, whose root is named by path `at`, as a traversal meets them. */
  function Preorder(t: Tree, root: nat, at: seq<nat>): seq<Node>
    decreases t, |t.kids| + 1
  {
    [Node(root, at)] + PreorderOfKids(t, root, at, 0)
  }

  function PreorderOfKids(t: Tree, root: nat, at: seq<nat>, k: nat): seq<Node>
    requires k <= |t.kids|
    decreases t, |t.kids| - k
  {
    if k == |t.kids| then []
    else Preorder(t.kids[k], root, at + [k]) + PreorderOfKids(t, root, at, k + 1)
  }

  /** `a` comes before `b` when the tree they live in is traversed. */
  ghost predicate Precedes(f: Forest, a: Node, b: Node)
    requires a.root == b.root < |f|
  {
    var order := Preorder(f[a.root], a.root, []);
    exists i, j :: 0 <= i < j < |order| && order[i] == a && order[j] == b
  }

  ghost predicate Increasing(s: seq<Node>)
  {
    forall i, j | 0 <= i < j < |s| :: Before(s[i], s[j])
  }

  /** All of `s` lies in tree `root`, at or below path `at`. */
  ghost predicate AllBelow(s: seq<Node>, root: nat, at: seq<nat>)
  {
    forall i | 0 <= i < |s| :: s[i].root == root && at <= s[i].path
  }

  /** All of `s` lies below child `k` or a later child of the node at `at`. */
  ghost predicate AllFromKid(s: seq<Node>, root: nat, at: seq<nat>, k: nat)
  {
    forall i | 0 <= i < |s| :: s[i].root == root && at < s[i].path && s[i].path[|at|] >= k
  }

  lemma EarlierKidFirst(at: seq<nat>, p: seq<nat>, q: seq<nat>)
    requires at < p && at < q && p[|at|] < q[|at|]
    ensures LexLess(p, q)
  {
    assert p == at + p[|at|..] && q == at + q[|at|..];
    LexPrefix(at, p[|at|..], q[|at|..]);
  }

  lemma AncestorFirst(at: seq<nat>, q: seq<nat>)
    requires at < q
    ensures LexLess(at, q)
  {
    assert q == at + q[|at|..] && at == at + [];
    LexPrefix(at, [], q[|at|..]);
  }

  lemma {:induction false} PreorderIncreases(t: Tree, root: nat, at: seq<nat>)
    ensures Increasing(Preorder(t, root, at)) && AllBelow(Preorder(t, root, at), root, at)
    decreases t, |t.kids| + 1
  {
    PreorderOfKidsIncreases(t, root, at, 0);
    var kids := PreorderOfKids(t, root, at, 0);
    forall i | 0 <= i < |kids|
      ensures Before(Node(root, at), kids[i])
    {
      AncestorFirst(at, kids[i].path);
    }
  }

  lemma {:induction false} PreorderOfKidsIncreases(t: Tree, root: nat, at: seq<nat>, k: nat)
    requires k <= |t.kids|
    ensures Increasing(PreorderOfKids(t, root, at, k)) && AllFromKid(PreorderOfKids(t, root, at, k), root, at, k)
    decreases t, |t.kids| - k
  {
    if k < |t.kids| {
      PreorderIncreases(t.kids[k], root, at + [k]);
      PreorderOfKidsIncreases(t, root, at, k + 1);
      var first, rest := Preorder(t.kids[k], root, at + [k]), PreorderOfKids(t, root, at, k + 1);
      forall i, j | 0 <= i < |first| && 0 <= j < |rest|
        ensures Before(first[i], rest[j])
      {
        assert first[i].path[|at|] == k;
        EarlierKidFirst(at, first[i].path, rest[j].path);
      }
    }
  }

  lemma {:induction false} PreorderMeets(t: Tree, root: nat, at: seq<nat>, p: seq<nat>)
    requires HasPath(t, p)
    ensures Node(root, at + p) in Preorder(t, root, at)
    decreases t, |t.kids| + 1
  {
    if p == [] {
      assert at + p == at;
    } else {
      PreorderOfKidsMeets(t, root, at, 0, p);
    }
  }

  lemma {:induction false} PreorderOfKidsMeets(t: Tree, root: nat, at: seq<nat>, k: nat, p: seq<nat>)
    requires p != [] && HasPath(t, p) && k <= p[0]
    ensures Node(root, at + p) in PreorderOfKids(t, root, at, k)
    decreases t, |t.kids| - k
  {
    if p[0] == k {
      PreorderMeets(t.kids[k], root, at + [k], p[1..]);
      assert at + p == at + [k] + p[1..];
    } else {
      PreorderOfKidsMeets(t, root, at, k + 1, p);
    }
  }

  /** Preorder is the lexicographic order of the paths. */
  lemma PrecedesMeansBefore(f: Forest, a: Node, b: Node)
    requires IsNode(f, a) && IsNode(f, b) && a.root == b.root
    ensures Precedes(f, a, b) <==> Before(a, b)
  {
    var order := Preorder(f[a.root], a.root, []);
    PreorderIncreases(f[a.root], a.root, []);
    PreorderMeets(f[a.root], a.root, [], a.path);
    PreorderMeets(f[a.root], a.root, [], b.path);
    assert [] + a.path == a.path && [] + b.path == b.path;
    var i :| 0 <= i < |order| && order[i] == a;
    var j :| 0 <= j < |order| && order[j] == b;
    if Before(a, b) {
      BeforeIrreflexive(a);
      if j < i {
        BeforeTransitive(a, b, a);
      }
    }
  }

  // ---------- the comparator ----------

  function IndexOf(nodes: seq<Node>, n: Node): int
  {
    if nodes == [] then -1
    else if nodes[0] == n then 0
    else
      var i := IndexOf(nodes[1..], n);
      if i < 0 then -1 else i + 1
  }

  function InputOrder(sortInput: Option<seq<Node>>, a: Node, b: Node): int
  {
    if sortInput.Some? then IndexOf(sortInput.value, a) - IndexOf(sortInput.value, b) else 0
  }

  function RootOf(r: nat): Node
  {
    Node(r, [])
  }

  /** What the comparator is to answer, in terms of the order of the traversal. */
  function SortOrder(page: Page, sortInput: Option<seq<Node>>, a: Node, b: Node): int
  {
    if a == b then 0
    else if a.path == [] || b.path == [] then
      if a == RootOf(page.doc) then -1
      else if b == RootOf(page.doc) then 1
      else if a.path != [] then -1
      else if b.path != [] then 1
      else InputOrder(sortInput, a, b)
    else if a.root == b.root then
      if Before(a, b) then -1 else 1
    else if a.root == page.preferredDoc then -1
    else if b.root == page.preferredDoc then 1
    else 0
  }

  /** `siblingCheck`, with the source's `undefined` as None. */
  method SiblingCheck(f: Forest, a: Option<Node>, b: Option<Node>) returns (r: int)
    requires a.Some? && b.Some? ==>
      IsNode(f, a.value) && IsNode(f, b.value) && a.value != b.value &&
      Siblings(a.value, b.value)
    ensures a.Some? && b.Some? ==> r == if Before(a.value, b.value) then -1 else 1
    ensures a.None? ==> r == -1
    ensures a.Some? && b.None? ==> r == 1
  {
    if a.Some? && b.Some? {
      var follows := IsLaterSibling(f, a.value, b.value);
      if follows {
        return -1;
      }
    }
    r := if a.Some? then 1 else -1;
  }

  /** The loop of `siblingCheck`: does following `nextSibling` from `a` lead to `b`? */
  method IsLaterSibling(f: Forest, a: Node, b: Node) returns (follows: bool)
    requires IsNode(f, a) && IsNode(f, b) && a != b && Siblings(a, b)
    ensures follows == Before(a, b)
  {
    SiblingOrder(a, b);
    var cur := a;
    while Next(f, cur).Some?
      invariant IsNode(f, cur) && Siblings(a, cur) && Place(a) <= Place(cur)
      invariant Place(a) < Place(b) ==> Place(cur) < Place(b)
      decreases KidCount(f, Parent(a).value) - Place(cur)
    {
      NextIsSibling(f, cur);
      cur := Next(f, cur).value;
      if cur == b {
        return true;
      }
      SiblingsDiffer(cur, b);
    }
    LastSibling(f, cur, b);
    follows := false;
  }

  predicate Siblings(a: Node, b: Node)
  {
    Parent(a).Some? && Parent(a) == Parent(b)
  }

  /** Index of a node among its parent's children. */
  function Place(n: Node): nat
    requires Parent(n).Some?
  {
    n.path[|n.path| - 1]
  }

  function KidCount(f: Forest, n: Node): nat
  {
    if IsNode(f, n) then |Subtree(f[n.root], n.path).kids| else 0
  }

  lemma SiblingOrder(a: Node, b: Node)
    requires Siblings(a, b)
    ensures Before(a, b) <==> Place(a) < Place(b)
  {
    var m := |a.path| - 1;
    assert a.path == a.path[..m] + [a.path[m]];
    assert b.path == b.path[..m] + [b.path[m]];
    LexPrefix(a.path[..m], [a.path[m]], [b.path[m]]);
  }

  lemma SiblingsDiffer(a: Node, b: Node)
    requires Siblings(a, b) && a != b
    ensures Place(a) != Place(b)
  {
    var m := |a.path| - 1;
    assert a.path == a.path[..m] + [a.path[m]];
    assert b.path == b.path[..m] + [b.path[m]];
  }

  lemma NextIsSibling(f: Forest, cur: Node)
    requires IsNode(f, cur) && Next(f, cur).Some?
    ensures var n := Next(f, cur).value;
            IsNode(f, n) && Siblings(cur, n) && Place(n) == Place(cur) + 1 < KidCount(f, Parent(cur).value)
  {
    var n := Next(f, cur).value;
    assert n.path[..|n.path| - 1] == cur.path[..|cur.path| - 1];
    KidInRange(f[n.root], n.path);
  }

  lemma {:induction false} KidInRange(t: Tree, p: seq<nat>)
    requires p != [] && HasPath(t, p)
    ensures HasPath(t, p[..|p| - 1]) && p[|p| - 1] < |Subtree(t, p[..|p| - 1]).kids|
  {
    if |p| > 1 {
      KidInRange(t.kids[p[0]], p[1..]);
      assert p[..|p| - 1][1..] == p[1..][..|p| - 2];
    }
  }

  lemma {:induction false} SiblingExists(t: Tree, up: seq<nat>, k: nat, later: seq<nat>)
    requires |later| == |up| + 1 && later[..|up|] == up && HasPath(t, later) && k <= later[|up|]
    ensures HasPath(t, up + [k])
  {
    if up != [] {
      assert later[1..][..|up| - 1] == up[1..];
      SiblingExists(t.kids[up[0]], up[1..], k, later[1..]);
      assert (up + [k])[1..] == up[1..] + [k];
    }
  }

  lemma LastSibling(f: Forest, cur: Node, b: Node)
    requires IsNode(f, cur) && IsNode(f, b) && Siblings(cur, b) && Next(f, cur).None?
    ensures Place(b) <= Place(cur)
  {
    if Place(cur) + 1 <= Place(b) {
      SiblingExists(f[cur.root], cur.path[..|cur.path| - 1], Place(cur) + 1, b.path);
    }
  }

  /** `elem` and its ancestors, outermost first. */
  method AncestorList(elem: Node) returns (up: seq<Node>)
    ensures |up| == |elem.path| + 1
    ensures forall i | 0 <= i < |up| :: up[i] == Node(elem.root, elem.path[..i])
  {
    up := [elem];
    var cur := elem;
    assert elem.path == elem.path[..|elem.path|];
    while Parent(cur).Some?
      invariant |cur.path| <= |elem.path| && cur == Node(elem.root, elem.path[..|cur.path|])
      invariant |up| == |elem.path| - |cur.path| + 1
      invariant forall i | 0 <= i < |up| :: up[i] == Node(elem.root, elem.path[..|cur.path| + i])
      decreases |cur.path|
    {
      assert cur.path[..|cur.path| - 1] == elem.path[..|cur.path| - 1];
      cur := Parent(cur).value;
      up := [cur] + up;
    }
  }

  function At(s: seq<Node>, i: nat): Option<Node>
  {
    if i < |s| then Some(s[i]) else None
  }

  lemma {:induction false} HasPathPrefix(t: Tree, p: seq<nat>, i: nat)
    requires HasPath(t, p) && i <= |p|
    ensures HasPath(t, p[..i])
  {
    if i > 0 {
      HasPathPrefix(t.kids[p[0]], p[1..], i - 1);
      assert p[..i][1..] == p[1..][..i - 1];
    }
  }

  /**
   Where two ancestor lists part, at position `i`: the order there is the order of the nodes,
   and a list that has ended belongs to an ancestor of the other node.
   */
  lemma OrderWhereListsPart(a: Node, b: Node, i: nat)
    requires a.root == b.root && a != b && 0 < i <= |a.path| + 1 && i <= |b.path| + 1
    requires a.path[..i - 1] == b.path[..i - 1]
    requires i <= |a.path| && i <= |b.path| ==> a.path[i - 1] != b.path[i - 1]
    ensures i > |a.path| ==> Before(a, b)
    ensures i > |b.path| ==> Before(b, a) && !Before(a, b)
    ensures i <= |a.path| && i <= |b.path| ==> (Before(a, b) <==> a.path[i - 1] < b.path[i - 1])
  {
    var c := a.path[..i - 1];
    assert a.path == c + a.path[i - 1..] && b.path == c + b.path[i - 1..];
    LexPrefix(c, a.path[i - 1..], b.path[i - 1..]);
    LexPrefix(c, b.path[i - 1..], a.path[i - 1..]);
  }

  // ---------- what the comparator means ----------

  /** Within the document the comparator answers exactly with the order of the traversal. */
  lemma DocumentIsSortedByPreorder(page: Page, sortInput: Option<seq<Node>>, a: Node, b: Node)
    requires IsNode(page.forest, a) && IsNode(page.forest, b) && a.root == b.root == page.doc
    ensures SortOrder(page, sortInput, a, b) < 0 <==> Precedes(page.forest, a, b)
    ensures SortOrder(page, sortInput, a, b) > 0 <==> Precedes(page.forest, b, a)
    ensures SortOrder(page, sortInput, a, b) == 0 <==> a == b
  {
    PrecedesMeansBefore(page.forest, a, b);
    PrecedesMeansBefore(page.forest, b, a);
    OneTreeOrder(page, sortInput, page.doc, a, b);
    BeforeIrreflexive(a);
  }

  /** Hence it is a strict total order there. */
  lemma DocumentOrderIsTransitive(page: Page, sortInput: Option<seq<Node>>, a: Node, b: Node, c: Node)
    requires IsNode(page.forest, a) && IsNode(page.forest, b) && IsNode(page.forest, c)
    requires a.root == b.root == c.root == page.doc
    requires SortOrder(page, sortInput, a, b) < 0 && SortOrder(page, sortInput, b, c) < 0
    ensures SortOrder(page, sortInput, a, c) < 0
  {
    OneTreeOrder(page, sortInput, page.doc, a, b);
    OneTreeOrder(page, sortInput, page.doc, b, c);
    BeforeTransitive(a, b, c);
    BeforeIrreflexive(a);
    OneTreeOrder(page, sortInput, page.doc, a, c);
  }

  /**
   In a tree that is not the document the comparator puts the root last, so there it agrees
   with the traversal exactly on the pairs that leave the root out.
   */
  lemma AgreesWithPreorderIff(page: Page, sortInput: Option<seq<Node>>, a: Node, b: Node)
    requires IsNode(page.forest, a) && IsNode(page.forest, b) && a.root == b.root && a != b
    ensures (SortOrder(page, sortInput, a, b) < 0 <==> Precedes(page.forest, a, b)) <==>
            (a.root == page.doc || (a.path != [] && b.path != []))
  {
    PrecedesMeansBefore(page.forest, a, b);
  }

  /** One such pair: the root of a detached fragment and its only child. */
  lemma DetachedRootSortsLast()
    ensures
      var page := Page([Tree(9, []), Tree(1, [Tree(1, [])])], 0, 0);
      var root, kid := Node(1, []), Node(1, [0]);
      IsNode(page.forest, root) && IsNode(page.forest, kid) &&
      Precedes(page.forest, root, kid) && SortOrder(page, None, root, kid) > 0
  {
    var page := Page([Tree(9, []), Tree(1, [Tree(1, [])])], 0, 0);
    assert HasPath(page.forest[1].kids[0], []);
    PrecedesMeansBefore(page.forest, Node(1, []), Node(1, [0]));
  }

  /** `s` lies in tree `r`, and the root of `r` is the document or is not among `s`. */
  ghost predicate OneTree(page: Page, s: seq<Node>, r: nat)
  {
    forall n | n in s :: IsNode(page.forest, n) && n.root == r && (r == page.doc || n.path != [])
  }

  lemma OneTreeOrder(page: Page, sortInput: Option<seq<Node>>, r: nat, a: Node, b: Node)
    requires OneTree(page, [a, b], r)
    ensures SortOrder(page, sortInput, a, b) == if a == b then 0 else if Before(a, b) then -1 else 1
    ensures a == b || Before(a, b) || Before(b, a)
    ensures !(Before(a, b) && Before(b, a))
  {
    assert a in [a, b] && b in [a, b];
    LexTotal(a.path, b.path);
    BeforeIrreflexive(a);
    if Before(a, b) && Before(b, a) {
      BeforeTransitive(a, b, a);
    }
  }

  ghost predicate NonDecreasing(s: seq<Node>)
  {
    forall i, j | 0 <= i < j < |s| :: s[i] == s[j] || Before(s[i], s[j])
  }

  ghost predicate NoRepeats(s: seq<Node>)
  {
    forall i, j | 0 <= i < j < |s| :: s[i] != s[j]
  }

  // ---------- nodes of several trees ----------

  /** What the comparator looks at besides the two nodes. */
  datatype Order = Order(page: Page, sortInput: Option<seq<Node>>)

  predicate Lt(o: Order, a: Node, b: Node)
  {
    SortOrder(o.page, o.sortInput, a, b) < 0
  }

  /** The comparator never answers 0 for two different nodes of the list. */
  ghost predicate Comparable(o: Order, s: seq<Node>)
  {
    forall a, b | a in s && b in s && a != b :: SortOrder(o.page, o.sortInput, a, b) != 0
  }

  ghost predicate Ordered(o: Order, s: seq<Node>)
  {
    forall i, j | 0 <= i < j < |s| :: s[i] == s[j] || Lt(o, s[i], s[j])
  }

  ghost predicate Strict(o: Order, s: seq<Node>)
  {
    forall i, j | 0 <= i < j < |s| :: Lt(o, s[i], s[j])
  }

  /** What any sort that compares neighbours leaves behind. */
  ghost predicate NeighboursInOrder(o: Order, s: seq<Node>)
  {
    forall i | 0 <= i < |s| - 1 :: SortOrder(o.page, o.sortInput, s[i], s[i + 1]) <= 0
  }

  /** Across trees too the comparator is a strict order, though a partial one. */
  lemma LtIsAsymmetric(o: Order, a: Node, b: Node)
    ensures SortOrder(o.page, o.sortInput, a, b) > 0 <==> Lt(o, b, a)
    ensures SortOrder(o.page, o.sortInput, a, b) == 0 <==> SortOrder(o.page, o.sortInput, b, a) == 0
    ensures Lt(o, a, b) ==> a != b && !Lt(o, b, a)
  {
    LexTotal(a.path, b.path);
    if a.root == b.root && Before(a, b) && Before(b, a) {
      BeforeTransitive(a, b, a);
      BeforeIrreflexive(a);
    }
  }

  lemma LtIsTransitive(o: Order, a: Node, b: Node, c: Node)
    requires Lt(o, a, b) && Lt(o, b, c)
    ensures Lt(o, a, c)
  {
    LtIsAsymmetric(o, a, b);
    LtIsAsymmetric(o, b, c);
    if a.root == b.root == c.root && a.path != [] && b.path != [] && c.path != [] {
      BeforeTransitive(a, b, c);
      BeforeIrreflexive(a);
    }
  }

  /**
   Two nodes cannot be told apart exactly if both hang in trees of their own, neither of them the
   preferred document, or both are roots of such trees that the input does not tell apart.
   */
  lemma IncomparableIff(o: Order, a: Node, b: Node)
    requires a != b
    ensures SortOrder(o.page, o.sortInput, a, b) == 0 <==>
      if a.path != [] && b.path != [] then
        a.root != b.root && a.root != o.page.preferredDoc && b.root != o.page.preferredDoc
      else
        a.path == b.path == [] && a.root != o.page.doc && b.root != o.page.doc && InputOrder(o.sortInput, a, b) == 0
  {
  }

  /** Nodes below the root of the preferred document come before those of all other trees. */
  lemma PreferredComesFirst(o: Order, a: Node, b: Node)
    requires a.path != [] && b.path != [] && a.root == o.page.preferredDoc && b.root != o.page.preferredDoc
    ensures SortOrder(o.page, o.sortInput, a, b) < 0 < SortOrder(o.page, o.sortInput, b, a)
  {
  }

  /** The document comes before everything, and what hangs in a tree before all other roots. */
  lemma RootsComeLast(o: Order, a: Node, b: Node)
    requires a != b
    ensures a == Node(o.page.doc, []) ==> SortOrder(o.page, o.sortInput, a, b) < 0 < SortOrder(o.page, o.sortInput, b, a)
    ensures a.path != [] && b.path == [] && b.root != o.page.doc ==>
      SortOrder(o.page, o.sortInput, a, b) < 0 < SortOrder(o.page, o.sortInput, b, a)
  {
  }

  lemma {:induction false} IndexIsFirst(nodes: seq<Node>, n: Node)
    ensures n !in nodes ==> IndexOf(nodes, n) == -1
    ensures n in nodes ==>
      0 <= IndexOf(nodes, n) < |nodes| && nodes[IndexOf(nodes, n)] == n &&
      forall i | 0 <= i < IndexOf(nodes, n) :: nodes[i] != n
  {
    if nodes != [] {
      IndexIsFirst(nodes[1..], n);
    }
  }

  /** Other roots stay in the order in which they first occur in the input. */
  lemma RootsKeepInputOrder(o: Order, a: Node, b: Node, i: nat, j: nat)
    requires a.path == b.path == [] && a != b && a.root != o.page.doc && b.root != o.page.doc && o.sortInput.Some?
    requires i < |o.sortInput.value| && o.sortInput.value[i] == a && forall k | 0 <= k < i :: o.sortInput.value[k] != a
    requires j < |o.sortInput.value| && o.sortInput.value[j] == b && forall k | 0 <= k < j :: o.sortInput.value[k] != b
    ensures i < j <==> SortOrder(o.page, o.sortInput, a, b) < 0
    ensures i > j <==> SortOrder(o.page, o.sortInput, a, b) > 0
  {
    FirstIsIndex(o.sortInput.value, a, i);
    FirstIsIndex(o.sortInput.value, b, j);
  }

  lemma FirstIsIndex(nodes: seq<Node>, n: Node, i: nat)
    requires i < |nodes| && nodes[i] == n && forall k | 0 <= k < i :: nodes[k] != n
    ensures IndexOf(nodes, n) == i
  {
    IndexIsFirst(nodes, n);
  }

  lemma NeighboursAreOrdered(o: Order, s: seq<Node>)
    requires Comparable(o, s) && NeighboursInOrder(o, s)
    ensures Ordered(o, s)
  {
    forall i, j | 0 <= i < j < |s| ensures s[i] == s[j] || Lt(o, s[i], s[j]) {
      OrderedAt(o, s, i, j);
    }
  }

  lemma {:induction false} OrderedAt(o: Order, s: seq<Node>, i: nat, j: nat)
    requires Comparable(o, s) && NeighboursInOrder(o, s) && i < j < |s|
    ensures s[i] == s[j] || Lt(o, s[i], s[j])
    decreases j
  {
    assert s[j - 1] in s && s[j] in s;
    assert s[j - 1] == s[j] || Lt(o, s[j - 1], s[j]);
    if i < j - 1 {
      OrderedAt(o, s, i, j - 1);
      if s[i] != s[j - 1] && s[j - 1] != s[j] {
        LtIsTransitive(o, s[i], s[j - 1], s[j]);
      }
    }
  }

  /**
   Whatever sort by comparing neighbours the host uses, removing neighbouring repeats removes all
   repeats from every list over some nodes exactly if the comparator tells those nodes apart.
   */
  lemma AllRepeatsGoIff(o: Order, nodes: seq<Node>)
    ensures (forall s: seq<Node> | (forall n | n in s :: n in nodes) && NeighboursInOrder(o, s) :: NoRepeats(Kept(s, 0)))
      <==> Comparable(o, nodes)
  {
    if Comparable(o, nodes) {
      forall s: seq<Node> | (forall n | n in s :: n in nodes) && NeighboursInOrder(o, s) ensures NoRepeats(Kept(s, 0)) {
        NeighboursAreOrdered(o, s);
        KeptIsStrict(o, s);
        assert forall i, j | 0 <= i < j < |Kept(s, 0)| :: Lt(o, Kept(s, 0)[i], Kept(s, 0)[j]);
      }
    } else {
      var a, b :| a in nodes && b in nodes && a != b && SortOrder(o.page, o.sortInput, a, b) == 0;
      LtIsAsymmetric(o, a, b);
      var s := [a, b, a];
      assert NeighboursInOrder(o, s) && forall n | n in s :: n in nodes;
      KeptRun(s, 0, 3);
      assert Kept(s, 0) == s;
      assert s[0] == s[2];
    }
  }

  /** In one tree the comparator's order is that of the traversal. */
  lemma OneTreeOrders(o: Order, s: seq<Node>, r: nat)
    requires OneTree(o.page, s, r)
    ensures Comparable(o, s)
    ensures forall a, b | a in s && b in s :: Lt(o, a, b) <==> Before(a, b)
  {
    forall a, b | a in s && b in s
      ensures a != b ==> SortOrder(o.page, o.sortInput, a, b) != 0
      ensures Lt(o, a, b) <==> Before(a, b)
    {
      assert OneTree(o.page, [a, b], r);
      OneTreeOrder(o.page, o.sortInput, r, a, b);
      BeforeIrreflexive(a);
    }
  }

  // ---------- removing repeats ----------

  predicate Repeats(s: seq<Node>, k: nat)
    requires k < |s|
  {
    k > 0 && s[k] == s[k - 1]
  }

  /** The nodes from index `k` on that differ from their predecessor. */
  function Kept(s: seq<Node>, k: nat): seq<Node>
    requires k <= |s|
    decreases |s| - k
  {
    if k == |s| then []
    else (if Repeats(s, k) then [] else [s[k]]) + Kept(s, k + 1)
  }

  lemma {:induction false} KeptRun(s: seq<Node>, lo: nat, hi: nat)
    requires lo <= hi <= |s| && forall k | lo <= k < hi :: !Repeats(s, k)
    ensures Kept(s, lo) == s[lo..hi] + Kept(s, hi)
    decreases hi - lo
  {
    if lo < hi {
      KeptRun(s, lo + 1, hi);
      var tail := Kept(s, hi);
      assert Kept(s, lo) == [s[lo]] + Kept(s, lo + 1);
      assert s[lo..hi] == [s[lo]] + s[lo + 1..hi];
      assert [s[lo]] + (s[lo + 1..hi] + tail) == ([s[lo]] + s[lo + 1..hi]) + tail;
    }
  }

  lemma {:induction false} KeptSameSet(s: seq<Node>, k: nat, n: Node)
    requires k <= |s|
    ensures n in Kept(s, k) ==> n in s[k..]
    ensures n in s[k..] ==> n in Kept(s, k) || (k > 0 && n == s[k - 1])
    decreases |s| - k
  {
    if k < |s| {
      KeptSameSet(s, k + 1, n);
      assert s[k..] == [s[k]] + s[k + 1..];
    }
  }

  ghost predicate Ascends(less: (Node, Node) -> bool, s: seq<Node>)
  {
    forall i, j | 0 <= i < j < |s| :: less(s[i], s[j])
  }

  /** Without the repeats a list that is sorted by a transitive relation is strictly sorted. */
  lemma {:induction false} KeptAscends(less: (Node, Node) -> bool, s: seq<Node>, k: nat)
    requires k <= |s| && forall i, j | 0 <= i < j < |s| :: s[i] == s[j] || less(s[i], s[j])
    requires forall x, y, z | less(x, y) && less(y, z) :: less(x, z)
    ensures Ascends(less, Kept(s, k))
    ensures k > 0 ==> forall i | 0 <= i < |Kept(s, k)| :: less(s[k - 1], Kept(s, k)[i])
    decreases |s| - k
  {
    if k < |s| {
      KeptAscends(less, s, k + 1);
      var rest := Kept(s, k + 1);
      if Repeats(s, k) {
        assert Kept(s, k) == [] + rest == rest;
      } else {
        assert Kept(s, k) == [s[k]] + rest;
      }
    }
  }

  lemma KeptIncreases(s: seq<Node>, k: nat)
    requires k <= |s| && NonDecreasing(s)
    ensures Increasing(Kept(s, k))
  {
    forall x, y, z | Before(x, y) && Before(y, z) ensures Before(x, z) {
      BeforeTransitive(x, y, z);
    }
    KeptAscends(Before, s, k);
  }

  lemma KeptIsStrict(o: Order, s: seq<Node>)
    requires Ordered(o, s)
    ensures Strict(o, Kept(s, 0)) && NoRepeats(Kept(s, 0))
  {
    var less := (a: Node, b: Node) => Lt(o, a, b);
    forall x, y, z | less(x, y) && less(y, z) ensures less(x, z) {
      LtIsTransitive(o, x, y, z);
    }
    KeptAscends(less, s, 0);
    var kept := Kept(s, 0);
    forall i, j | 0 <= i < j < |kept| ensures Lt(o, kept[i], kept[j]) && kept[i] != kept[j] {
      assert less(kept[i], kept[j]);
      LtIsAsymmetric(o, kept[i], kept[j]);
    }
  }

  /** The comparator and the list being sorted, with the flag the comparator raises. */
  class Sorter {
    const page: Page
    const detectDuplicates: bool
    const sortStable: bool
    var sortInput: Option<seq<Node>>
    var hasDuplicate: bool
    var results: seq<Node>

    constructor (page: Page, detectDuplicates: bool, sortStable: bool, results: seq<Node>)
      ensures this.page == page && this.results == results
      ensures this.detectDuplicates == detectDuplicates && this.sortStable == sortStable
    {
      this.page, this.detectDuplicates, this.sortStable := page, detectDuplicates, sortStable;
      this.sortInput, this.hasDuplicate, this.results := None, false, results;
    }

    method Compare(a: Node, b: Node) returns (r: int)
      requires IsNode(page.forest, a) && IsNode(page.forest, b)
      modifies this`hasDuplicate
      ensures r == SortOrder(page, sortInput, a, b)
      ensures hasDuplicate == (old(hasDuplicate) || a == b)
    {
      var aup, bup := Parent(a), Parent(b);
      if a == b {
        hasDuplicate := true;
        return 0;
      } else if aup.None? || bup.None? {
        return if a == RootOf(page.doc) then -1
               else if b == RootOf(page.doc) then 1
               else if aup.Some? then -1
               else if bup.Some? then 1
               else InputOrder(sortInput, a, b);
      } else if aup == bup {
        r := SiblingCheck(page.forest, Some(a), Some(b));
        return;
      }
      var ap := AncestorList(a);
      var bp := AncestorList(b);
      var i := 0;
      while At(ap, i) == At(bp, i)
        invariant i <= |ap| && i <= |bp|
        invariant i > 0 ==> a.root == b.root && a.path[..i - 1] == b.path[..i - 1]
        decreases |ap| - i
      {
        assert a.path[..|a.path|] == a.path && b.path[..|b.path|] == b.path;
        assert i < |ap| && i < |bp|;
        i := i + 1;
      }
      if i > 0 {
        r := CompareAt(a, b, ap, bp, i);
      } else {
        assert ap[0] == RootOf(a.root) && bp[0] == RootOf(b.root);
        r := if At(ap, i) == Some(RootOf(page.preferredDoc)) then -1
             else if At(bp, i) == Some(RootOf(page.preferredDoc)) then 1
             else 0;
      }
    }

    /** The sibling check below the last common ancestor. */
    method CompareAt(a: Node, b: Node, ap: seq<Node>, bp: seq<Node>, i: nat) returns (r: int)
      requires IsNode(page.forest, a) && IsNode(page.forest, b) && a != b && a.root == b.root
      requires |ap| == |a.path| + 1 && forall k | 0 <= k < |ap| :: ap[k] == Node(a.root, a.path[..k])
      requires |bp| == |b.path| + 1 && forall k | 0 <= k < |bp| :: bp[k] == Node(b.root, b.path[..k])
      requires 0 < i <= |ap| && i <= |bp| && a.path[..i - 1] == b.path[..i - 1]
      requires At(ap, i) != At(bp, i)
      ensures r == if Before(a, b) then -1 else 1
    {
      if i < |ap| {
        HasPathPrefix(page.forest[a.root], a.path, i);
        assert a.path[..i] == a.path[..i - 1] + [a.path[i - 1]];
      }
      if i < |bp| {
        HasPathPrefix(page.forest[b.root], b.path, i);
        assert b.path[..i] == b.path[..i - 1] + [b.path[i - 1]];
      }
      if i < |ap| && i < |bp| {
        assert a.path[..i][..i - 1] == a.path[..i - 1] && b.path[..i][..i - 1] == b.path[..i - 1];
        SiblingOrder(ap[i], bp[i]);
      }
      OrderWhereListsPart(a, b, i);
      r := SiblingCheck(page.forest, At(ap, i), At(bp, i));
    }

    ghost function O(): Order
      reads this`sortInput
    {
      Order(page, sortInput)
    }

    /**
     `Sizzle.uniqueSort`, in place.  Over several trees repeats are sure to go where the comparator
     tells the nodes apart.
     */
    method UniqueSort()
      requires forall n | n in results :: IsNode(page.forest, n)
      modifies this`results, this`hasDuplicate, this`sortInput
      ensures sortInput == if sortStable then None else Some(old(results))
      ensures forall n :: n in results <==> n in old(results)
      ensures Comparable(O(), old(results)) ==> Strict(O(), results) && NoRepeats(results)
      ensures forall r :: OneTree(page, old(results), r) ==> Increasing(results)
    {
      hasDuplicate := !detectDuplicates;
      sortInput := if sortStable then None else Some(results);
      ghost var was := results;
      results := Sort(results);
      SameMembers(results, was);
      if hasDuplicate {
        RemoveRepeats();
      }
      assert Comparable(O(), was) ==> Strict(O(), results) && NoRepeats(results) by {
        StrictIfNoRepeats(O(), results);
      }
      forall r | OneTree(page, was, r) ensures Increasing(results) {
        OneTreeOrders(O(), was, r);
        assert forall i | 0 <= i < |results| :: results[i] in results;
      }
    }

    /** The two loops after the sort: collect the indices of repeats, then splice them out. */
    method RemoveRepeats()
      modifies this`results
      ensures forall n :: n in results <==> n in old(results)
      ensures NonDecreasing(old(results)) ==> Increasing(results)
      ensures Ordered(O(), old(results)) ==> Strict(O(), results) && NoRepeats(results)
    {
      ghost var s := results;
      var duplicates := CollectRepeats();
      SpliceOut(duplicates);
      forall n
        ensures n in results <==> n in s
      {
        KeptSameSet(s, 0, n);
      }
      if NonDecreasing(s) {
        KeptIncreases(s, 0);
      }
      if Ordered(O(), s) {
        KeptIsStrict(O(), s);
      }
    }

    method CollectRepeats() returns (duplicates: seq<nat>)
      ensures AreRepeats(results, duplicates, |results|)
    {
      duplicates := [];
      var i := 0;
      while i < |results|
        invariant 0 <= i <= |results|
        invariant AreRepeats(results, duplicates, i + 1)
      {
        var elem := results[i];
        i := i + 1;
        if i < |results| && elem == results[i] {
          duplicates := duplicates + [i];
        }
      }
    }

    /** From the back, so that the indices still to come stay right. */
    method SpliceOut(duplicates: seq<nat>)
      requires AreRepeats(results, duplicates, |results|)
      modifies this`results
      ensures results == Kept(old(results), 0)
    {
      ghost var s := results;
      var j := |duplicates|;
      ghost var hi := |s|;
      assert s[..|s|] == s;
      while j > 0
        invariant 0 <= j <= |duplicates|
        invariant hi == if j == |duplicates| then |s| else duplicates[j]
        invariant hi <= |s| && results == s[..hi] + Kept(s, hi)
      {
        j := j - 1;
        var d := duplicates[j];
        KeptRun(s, d + 1, hi);
        Spliced(s, d, hi);
        results := results[..d] + results[d + 1..];
        hi := d;
      }
      KeptRun(s, 0, hi);
    }

    /**
     Stands in for `Array.prototype.sort` with the comparator above: an insertion sort.  Its
     promises are what any sort that compares neighbours keeps.
     */
    method Sort(input: seq<Node>) returns (sorted: seq<Node>)
      requires forall n | n in input :: IsNode(page.forest, n)
      modifies this`hasDuplicate
      ensures multiset(sorted) == multiset(input) && NeighboursInOrder(O(), sorted)
      ensures old(hasDuplicate) ==> hasDuplicate
      ensures Comparable(O(), input) ==> Ordered(O(), sorted) && (hasDuplicate || NoRepeats(sorted))
    {
      sorted := [];
      var i := 0;
      while i < |input|
        invariant 0 <= i <= |input|
        invariant multiset(sorted) == multiset(input[..i]) && NeighboursInOrder(O(), sorted)
        invariant old(hasDuplicate) ==> hasDuplicate
        invariant Comparable(O(), input) ==> hasDuplicate || NoRepeats(sorted)
      {
        assert input[..i + 1] == input[..i] + [input[i]];
        SameMembers(sorted, input[..i]);
        assert forall n | n in sorted + [input[i]] :: n in input;
        sorted := Insert(sorted, input[i]);
        i := i + 1;
      }
      assert input[..|input|] == input;
      SameMembers(sorted, input);
      if Comparable(O(), input) {
        NeighboursAreOrdered(O(), sorted);
      }
    }

    method Insert(sorted: seq<Node>, x: Node) returns (longer: seq<Node>)
      requires IsNode(page.forest, x) && forall n | n in sorted :: IsNode(page.forest, n)
      requires NeighboursInOrder(O(), sorted)
      modifies this`hasDuplicate
      ensures multiset(longer) == multiset(sorted) + multiset{x} && NeighboursInOrder(O(), longer)
      ensures old(hasDuplicate) ==> hasDuplicate
      ensures Comparable(O(), sorted + [x]) && (old(hasDuplicate) || NoRepeats(sorted)) ==>
        hasDuplicate || NoRepeats(longer)
    {
      var pos := PlaceFor(sorted, x);
      Inserted(O(), sorted, x, pos);
      longer := sorted[..pos] + [x] + sorted[pos..];
    }

    /** Behind the last node that is not to come after `x`. */
    method PlaceFor(sorted: seq<Node>, x: Node) returns (pos: nat)
      requires IsNode(page.forest, x) && forall n | n in sorted :: IsNode(page.forest, n)
      modifies this`hasDuplicate
      ensures pos <= |sorted| && (pos > 0 ==> SortOrder(page, sortInput, sorted[pos - 1], x) <= 0)
      ensures forall k | pos <= k < |sorted| :: SortOrder(page, sortInput, sorted[k], x) > 0
      ensures old(hasDuplicate) || (pos > 0 && sorted[pos - 1] == x) ==> hasDuplicate
    {
      pos := |sorted|;
      while pos > 0
        invariant 0 <= pos <= |sorted|
        invariant old(hasDuplicate) ==> hasDuplicate
        invariant forall k | pos <= k < |sorted| :: SortOrder(page, sortInput, sorted[k], x) > 0
      {
        var r := Compare(sorted[pos - 1], x);
        if r <= 0 {
          return;
        }
        pos := pos - 1;
      }
    }
  }

  lemma Inserted(o: Order, sorted: seq<Node>, x: Node, pos: nat)
    requires NeighboursInOrder(o, sorted) && pos <= |sorted|
    requires pos > 0 ==> SortOrder(o.page, o.sortInput, sorted[pos - 1], x) <= 0
    requires forall k | pos <= k < |sorted| :: SortOrder(o.page, o.sortInput, sorted[k], x) > 0
    ensures
      var longer := sorted[..pos] + [x] + sorted[pos..];
      multiset(longer) == multiset(sorted) + multiset{x} && NeighboursInOrder(o, longer) &&
      (Comparable(o, sorted + [x]) && NoRepeats(sorted) && (pos == 0 || sorted[pos - 1] != x) ==> NoRepeats(longer))
  {
    InsertedCounts(sorted, x, pos);
    InsertedInOrder(o, sorted, x, pos);
    if Comparable(o, sorted + [x]) && NoRepeats(sorted) && (pos == 0 || sorted[pos - 1] != x) {
      InsertedOnce(o, sorted, x, pos);
    }
  }

  lemma InsertedCounts(sorted: seq<Node>, x: Node, pos: nat)
    requires pos <= |sorted|
    ensures multiset(sorted[..pos] + [x] + sorted[pos..]) == multiset(sorted) + multiset{x}
  {
    assert sorted == sorted[..pos] + sorted[pos..];
  }

  lemma InsertedInOrder(o: Order, sorted: seq<Node>, x: Node, pos: nat)
    requires NeighboursInOrder(o, sorted) && pos <= |sorted|
    requires pos > 0 ==> SortOrder(o.page, o.sortInput, sorted[pos - 1], x) <= 0
    requires pos < |sorted| ==> SortOrder(o.page, o.sortInput, sorted[pos], x) > 0
    ensures NeighboursInOrder(o, sorted[..pos] + [x] + sorted[pos..])
  {
    var longer := sorted[..pos] + [x] + sorted[pos..];
    if pos < |sorted| {
      LtIsAsymmetric(o, sorted[pos], x);
    }
    forall i | 0 <= i < |longer| - 1 ensures SortOrder(o.page, o.sortInput, longer[i], longer[i + 1]) <= 0 {
      assert longer[i] == if i < pos then sorted[i] else if i == pos then x else sorted[i - 1];
      assert longer[i + 1] == if i + 1 < pos then sorted[i + 1] else if i + 1 == pos then x else sorted[i];
    }
  }

  /** If the nodes before and behind the place differ from `x`, so do all others. */
  lemma InsertedOnce(o: Order, sorted: seq<Node>, x: Node, pos: nat)
    requires Comparable(o, sorted + [x]) && NeighboursInOrder(o, sorted) && NoRepeats(sorted) && pos <= |sorted|
    requires pos > 0 ==> sorted[pos - 1] != x && SortOrder(o.page, o.sortInput, sorted[pos - 1], x) <= 0
    requires forall k | pos <= k < |sorted| :: SortOrder(o.page, o.sortInput, sorted[k], x) > 0
    ensures NoRepeats(sorted[..pos] + [x] + sorted[pos..])
  {
    assert forall n | n in sorted :: n in sorted + [x];
    NeighboursAreOrdered(o, sorted);
    forall k | 0 <= k < |sorted| ensures sorted[k] != x {
      assert sorted[k] in sorted + [x] && x in sorted + [x];
      if k < pos {
        assert sorted[pos - 1] in sorted + [x];
        LtIsAsymmetric(o, sorted[k], sorted[pos - 1]);
        LtIsAsymmetric(o, sorted[pos - 1], x);
      }
    }
    NoRepeatsBetween(sorted, x, pos);
  }

  lemma NoRepeatsBetween(sorted: seq<Node>, x: Node, pos: nat)
    requires NoRepeats(sorted) && x !in sorted && pos <= |sorted|
    ensures NoRepeats(sorted[..pos] + [x] + sorted[pos..])
  {
    var longer := sorted[..pos] + [x] + sorted[pos..];
    forall i | 0 <= i < |longer| ensures longer[i] == if i < pos then sorted[i] else if i == pos then x else sorted[i - 1] {
    }
  }

  /** A sorted list without repeats is strictly sorted. */
  lemma StrictIfNoRepeats(o: Order, s: seq<Node>)
    ensures Ordered(o, s) && NoRepeats(s) ==> Strict(o, s)
  {
  }

  /** Splicing out the repeat at `d` when everything from `hi` on is done. */
  lemma Spliced(s: seq<Node>, d: nat, hi: nat)
    requires d < hi <= |s| && Repeats(s, d)
    requires Kept(s, d + 1) == s[d + 1..hi] + Kept(s, hi)
    ensures var now := s[..hi] + Kept(s, hi); now[..d] + now[d + 1..] == s[..d] + Kept(s, d)
  {
    var tail := Kept(s, hi);
    var now := s[..hi] + tail;
    assert now[..d] == s[..d];
    assert now[d + 1..] == s[d + 1..hi] + tail;
    assert Kept(s, d) == [] + Kept(s, d + 1);
  }

  /** The indices below `k` of nodes equal to their predecessor. */
  ghost predicate AreRepeats(s: seq<Node>, duplicates: seq<nat>, k: nat)
  {
    (forall d | 0 <= d < |duplicates| :: 0 < duplicates[d] < k && duplicates[d] < |s| && Repeats(s, duplicates[d])) &&
    (forall d, e | 0 <= d < e < |duplicates| :: duplicates[d] < duplicates[e]) &&
    (forall t | 0 <= t < k && t < |s| && Repeats(s, t) :: t in duplicates)
  }

  lemma SameMembers(s: seq<Node>, t: seq<Node>)
    requires multiset(s) == multiset(t)
    ensures forall n :: n in s <==> n in t
  {
    forall n
      ensures n in s <==> n in t
    {
      assert n in s <==> n in multiset(s);
      assert n in t <==> n in multiset(t);
    }
  }
}
