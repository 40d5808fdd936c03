/**
 The document tree as Sizzle sees it.

 A page is a forest: the document and any number of detached fragments.  A node is named by
 the tree it lives in and by the child indices that lead to it from the root of that tree, so
 two nodes are identical (`===`) exactly when their names are equal, and the pointers Sizzle
 follows (`parentNode`, `previousSibling`, `nextSibling`) are functions of the name.
 */
module Dom {
  import opened Wrappers

  datatype Tree = Tree(nodeType: nat, kids: seq<Tree>)

  type Forest = seq<Tree>

  datatype Node = Node(root: nat, path: seq<nat>)

  datatype Dir = ParentNode | PreviousSibling

  const ELEMENT_NODE := 1

  predicate HasPath(t: Tree, p: seq<nat>)
  {
    p == [] || (p[0] < |t.kids| && HasPath(t.kids[p[0]], p[1..]))
  }

  function Subtree(t: Tree, p: seq<nat>): Tree
    requires HasPath(t, p)
    decreases |p|
  {
    if p == [] then t else Subtree(t.kids[p[0]], p[1..])
  }

  predicate IsNode(f: Forest, n: Node)
  {
    n.root < |f| && HasPath(f[n.root], n.path)
  }

  predicate IsElement(f: Forest, n: Node)
  {
    IsNode(f, n) && Subtree(f[n.root], n.path).nodeType == ELEMENT_NODE
  }

  function Parent(n: Node): Option<Node>
  {
    if n.path == [] then None else Some(Node(n.root, n.path[..|n.path| - 1]))
  }

  function Previous(n: Node): Option<Node>
  {
    if n.path == [] || n.path[|n.path| - 1] == 0 then None
    else Some(Node(n.root, n.path[..|n.path| - 1] + [n.path[|n.path| - 1] - 1]))
  }

  function Next(f: Forest, n: Node): Option<Node>
  {
    if n.path == [] then None
    else
      var sibling := Node(n.root, n.path[..|n.path| - 1] + [n.path[|n.path| - 1] + 1]);
      if IsNode(f, sibling) then Some(sibling) else None
  }

  /** `elem[dir]` */
  function Step(dir: Dir, n: Node): Option<Node>
  {
    match dir
    case ParentNode => Parent(n)
    case PreviousSibling => Previous(n)
  }

  /** How many steps in direction `dir` are left; every walk terminates because it goes down. */
  function StepsLeft(dir: Dir, n: Node): nat
  {
    if n.path == [] then 0
    else
      match dir
      case ParentNode => |n.path|
      case PreviousSibling => n.path[|n.path| - 1]
  }

  /** Lexicographic order on paths: a proper prefix comes first. */
  predicate LexLess(p: seq<nat>, q: seq<nat>)
  {
    q != [] && (p == [] || p[0] < q[0] || (p[0] == q[0] && LexLess(p[1..], q[1..])))
  }

  /** `y` lies in the same tree as `x`, strictly before it. */
  predicate Before(y: Node, x: Node)
  {
    y.root == x.root && LexLess(y.path, x.path)
  }

  lemma {:induction false} LexTransitive(p: seq<nat>, q: seq<nat>, r: seq<nat>)
    requires LexLess(p, q) && LexLess(q, r)
    ensures LexLess(p, r)
  {
    if p != [] && p[0] == q[0] == r[0] {
      LexTransitive(p[1..], q[1..], r[1..]);
    }
  }

  lemma {:induction false} LexIrreflexive(p: seq<nat>)
    ensures !LexLess(p, p)
  {
    if p != [] {
      LexIrreflexive(p[1..]);
    }
  }

  lemma {:induction false} LexTotal(p: seq<nat>, q: seq<nat>)
    ensures p == q || LexLess(p, q) || LexLess(q, p)
  {
    if p != [] && q != [] && p[0] == q[0] {
      LexTotal(p[1..], q[1..]);
      assert p == [p[0]] + p[1..] && q == [q[0]] + q[1..];
    }
  }

  /** A common prefix does not matter. */
  lemma {:induction false} LexPrefix(c: seq<nat>, p: seq<nat>, q: seq<nat>)
    ensures LexLess(c + p, c + q) <==> LexLess(p, q)
  {
    if c == [] {
      assert c + p == p && c + q == q;
    } else {
      LexPrefix(c[1..], p, q);
      assert (c + p)[1..] == c[1..] + p && (c + q)[1..] == c[1..] + q;
    }
  }

  /** Every pointer Sizzle's walks follow leads strictly backwards in the tree. */
  lemma StepIsBefore(dir: Dir, n: Node)
    requires Step(dir, n).Some?
    ensures Before(Step(dir, n).value, n)
  {
    var m := |n.path| - 1;
    var c := n.path[..m];
    assert n.path == c + [n.path[m]];
    match dir
    case ParentNode =>
      LexPrefix(c, [], [n.path[m]]);
      assert c + [] == c;
    case PreviousSibling =>
      LexPrefix(c, [n.path[m] - 1], [n.path[m]]);
  }

  lemma BeforeTransitive(x: Node, y: Node, z: Node)
    requires Before(x, y) && Before(y, z)
    ensures Before(x, z)
  {
    LexTransitive(x.path, y.path, z.path);
  }

  lemma BeforeIrreflexive(x: Node)
    ensures !Before(x, x)
  {
    LexIrreflexive(x.path);
  }
}
