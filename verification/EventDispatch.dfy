/**
 `event.handlers`: which handlers an event runs, and in what order.

 The walk from the target up to the element, with its memo of selectors already tried, is
 proved to list exactly the delegated registrations whose selector matches a node on that
 path, deepest node first, then the direct ones, each in the order they were registered.
 */
module EventDispatch {
  import opened Wrappers
  import opened Dom
  import opened EventHandlers

  /** What the page answers: `disabled === true`, and whether a selector, looked up under the element, finds a node. */
  datatype Page = Page(forest: Forest, disabled: Node -> bool, finds: (string, Node) -> bool)

  datatype Event = Event(target: Node, button: nat, click: bool)

  datatype Group = Group(elem: Node, handlers: seq<HandleObj>)

  // ---------- what is promised ----------

  /** `n` lies on the way from the target to the element, which does not count itself. */
  predicate OnPath(n: Node, target: Node, elem: Node)
  {
    n.root == target.root && n.path <= target.path &&
    !(elem.root == target.root && elem.path <= target.path && n.path <= elem.path)
  }

  /** Delegated handlers are looked at only for events from a real node, and not for clicks of other buttons. */
  predicate Delegates(page: Page, ev: Event)
    requires IsNode(page.forest, ev.target)
  {
    Subtree(page.forest[ev.target.root], ev.target.path).nodeType != 0 && (ev.button == 0 || !ev.click)
  }

  /** Elements only, and no clicks on disabled ones. */
  predicate Eligible(page: Page, ev: Event, n: Node)
  {
    IsElement(page.forest, n) && !(page.disabled(n) && ev.click)
  }

  function Matching(page: Page, n: Node): HandleObj -> bool
  {
    (h: HandleObj) => page.finds(h.selector, n)
  }

  // ---------- the walk ----------

  /** `for ( ; cur != this; cur = cur.parentNode || this )` */
  function Ascent(cur: Node, elem: Node): seq<Node>
    decreases |cur.path|
  {
    if cur == elem then []
    else [cur] + if Parent(cur).Some? then Ascent(Parent(cur).value, elem) else []
  }

  function GroupAt(page: Page, ev: Event, delegated: seq<HandleObj>, n: Node): seq<Group>
  {
    var matches := Filter(Matching(page, n), delegated);
    if Eligible(page, ev, n) && matches != [] then [Group(n, matches)] else []
  }

  function GroupsAlong(page: Page, ev: Event, delegated: seq<HandleObj>, nodes: seq<Node>): seq<Group>
  {
    if nodes == [] then []
    else GroupAt(page, ev, delegated, nodes[0]) + GroupsAlong(page, ev, delegated, nodes[1..])
  }

  /** The groups of delegated handlers, which come first. */
  function Bubbling(page: Page, ev: Event, elem: Node, delegated: seq<HandleObj>): seq<Group>
    requires IsNode(page.forest, ev.target)
  {
    if Delegates(page, ev) then GroupsAlong(page, ev, delegated, Ascent(ev.target, elem)) else []
  }

  function Queue(page: Page, ev: Event, elem: Node, delegated: seq<HandleObj>, direct: seq<HandleObj>): seq<Group>
    requires IsNode(page.forest, ev.target)
  {
    Bubbling(page, ev, elem, delegated) + if direct != [] then [Group(elem, direct)] else []
  }

  lemma {:induction false} AscentIsThePath(cur: Node, elem: Node)
    ensures forall n :: n in Ascent(cur, elem) <==> OnPath(n, cur, elem)
    ensures forall i, j | 0 <= i < j < |Ascent(cur, elem)| :: |Ascent(cur, elem)[i].path| > |Ascent(cur, elem)[j].path|
    decreases |cur.path|
  {
    if cur != elem && Parent(cur).Some? {
      var up := Parent(cur).value;
      AscentIsThePath(up, elem);
      forall n ensures OnPath(n, cur, elem) <==> n == cur || OnPath(n, up, elem) {
        OneUp(n, cur, up, elem);
      }
      forall n | n in Ascent(up, elem) ensures |n.path| < |cur.path| {
        assert OnPath(n, up, elem);
      }
    } else if cur == elem {
      forall n ensures !OnPath(n, cur, elem) {
        assert cur.path <= cur.path;
      }
    } else {
      forall n ensures OnPath(n, cur, elem) <==> n == cur {
        assert cur.path == [];
      }
    }
  }

  lemma OneUp(n: Node, cur: Node, up: Node, elem: Node)
    requires cur != elem && Parent(cur) == Some(up)
    ensures OnPath(n, cur, elem) <==> n == cur || OnPath(n, up, elem)
  {
    var last := |cur.path| - 1;
    assert cur.path == up.path + [cur.path[last]];
    if elem.root == cur.root && elem.path <= up.path {
      assert |elem.path| < |cur.path|;
    }
  }

  // ---------- the main result ----------

  predicate Runs(groups: seq<Group>, m: Node, h: HandleObj)
  {
    exists k :: 0 <= k < |groups| && groups[k].elem == m && h in groups[k].handlers
  }

  /** A group of the matching registrations in the order they were made. */
  predicate IsGroup(page: Page, ev: Event, delegated: seq<HandleObj>, g: Group)
  {
    Eligible(page, ev, g.elem) && g.handlers != [] && g.handlers == Filter(Matching(page, g.elem), delegated)
  }

  predicate DeepestFirst(nodes: seq<Node>)
  {
    forall j, k | 0 <= j < k < |nodes| :: |nodes[j].path| > |nodes[k].path|
  }

  function Elems(groups: seq<Group>): seq<Node>
  {
    seq(|groups|, k requires 0 <= k < |groups| => groups[k].elem)
  }

  /** A delegated handler runs for exactly the eligible nodes on the path that its selector finds. */
  lemma DelegatedRunIff(page: Page, ev: Event, elem: Node, delegated: seq<HandleObj>, m: Node, h: HandleObj)
    requires IsNode(page.forest, ev.target)
    ensures Runs(Bubbling(page, ev, elem, delegated), m, h) <==>
      Delegates(page, ev) && OnPath(m, ev.target, elem) && Eligible(page, ev, m) &&
      h in delegated && page.finds(h.selector, m)
  {
    AscentIsThePath(ev.target, elem);
    FilterMembers(Matching(page, m), delegated);
    if Delegates(page, ev) {
      RunsAlong(page, ev, delegated, Ascent(ev.target, elem), m, h);
    }
  }

  /** Deeper nodes come first, each at most once, and at each node the order is that of registration. */
  lemma BubblingGoesUp(page: Page, ev: Event, elem: Node, delegated: seq<HandleObj>)
    requires IsNode(page.forest, ev.target)
    ensures DeepestFirst(Elems(Bubbling(page, ev, elem, delegated)))
    ensures forall g | g in Bubbling(page, ev, elem, delegated) :: IsGroup(page, ev, delegated, g)
  {
    AscentIsThePath(ev.target, elem);
    if Delegates(page, ev) {
      GroupsDescend(page, ev, delegated, Ascent(ev.target, elem));
      GroupsAreGroups(page, ev, delegated, Ascent(ev.target, elem));
    }
  }

  /** The groups without the one of the direct handlers, which is last if there are any. */
  function BeforeDirect(direct: seq<HandleObj>, queue: seq<Group>): seq<Group>
    requires direct != [] ==> queue != []
  {
    if direct == [] then queue else queue[..|queue| - 1]
  }

  /**
   The groups of delegated handlers: they go up from the target; each holds, in order, those whose
   selector finds its node, an element on the path from the target up to below the element, unless
   it is disabled and the event a click.  There are none for clicks with another button than the
   left one or from no real node, and none for the element.
   */
  ghost predicate AreGroups(page: Page, ev: Event, elem: Node, delegated: seq<HandleObj>, groups: seq<Group>)
    requires IsNode(page.forest, ev.target)
  {
    (forall g | g in groups :: g.elem != elem && g.handlers != [] && InOrder(g.handlers, delegated)) &&
    DeepestFirst(Elems(groups)) &&
    forall m, h :: Runs(groups, m, h) <==>
      h in delegated && page.finds(h.selector, m) &&
      m.root == ev.target.root && m.path <= ev.target.path &&
      !(elem.root == m.root && elem.path <= ev.target.path && m.path <= elem.path) &&
      IsElement(page.forest, m) && !(page.disabled(m) && ev.click) &&
      Subtree(page.forest[ev.target.root], ev.target.path).nodeType != 0 && !(ev.click && ev.button != 0)
  }

  /**
   The whole promise: direct handlers, if any, are the last group, at the element and in the order
   they were made; all other groups are those of delegated ones.
   */
  ghost predicate IsQueue(page: Page, ev: Event, elem: Node, delegated: seq<HandleObj>, direct: seq<HandleObj>,
                          queue: seq<Group>)
    requires IsNode(page.forest, ev.target)
  {
    (direct != [] ==> queue != [] && queue[|queue| - 1] == Group(elem, direct)) &&
    AreGroups(page, ev, elem, delegated, BeforeDirect(direct, queue))
  }

  /** `part` is what is left of `whole` when some entries are taken out. */
  predicate InOrder(part: seq<HandleObj>, whole: seq<HandleObj>)
    decreases |whole|
  {
    if whole == [] then part == []
    else
      var last := |whole| - 1;
      InOrder(part, whole[..last]) ||
      (part != [] && part[|part| - 1] == whole[last] && InOrder(part[..|part| - 1], whole[..last]))
  }

  lemma {:induction false} FilterInOrder(p: HandleObj -> bool, log: seq<HandleObj>)
    ensures InOrder(Filter(p, log), log)
  {
    if log != [] {
      var last := |log| - 1;
      var init := Filter(p, log[..last]);
      assert log[..last + 1] == log;
      FilterUpTo(p, log, last);
      FilterInOrder(p, log[..last]);
      if p(log[last]) {
        assert Filter(p, log) == init + [log[last]];
        assert Filter(p, log)[..|Filter(p, log)| - 1] == init;
      } else {
        assert Filter(p, log) == init;
      }
    }
  }

  /** The queue the loops build keeps it. */
  lemma QueueIsQueue(page: Page, ev: Event, elem: Node, delegated: seq<HandleObj>, direct: seq<HandleObj>)
    requires IsNode(page.forest, ev.target)
    ensures IsQueue(page, ev, elem, delegated, direct, Queue(page, ev, elem, delegated, direct))
  {
    assert BeforeDirect(direct, Queue(page, ev, elem, delegated, direct)) == Bubbling(page, ev, elem, delegated);
    BubblingAreGroups(page, ev, elem, delegated, Bubbling(page, ev, elem, delegated));
  }

  lemma BubblingAreGroups(page: Page, ev: Event, elem: Node, delegated: seq<HandleObj>, groups: seq<Group>)
    requires IsNode(page.forest, ev.target) && groups == Bubbling(page, ev, elem, delegated)
    ensures AreGroups(page, ev, elem, delegated, groups)
  {
    BubblingGoesUp(page, ev, elem, delegated);
    forall m, h
      ensures Runs(groups, m, h) <==>
        Delegates(page, ev) && OnPath(m, ev.target, elem) && Eligible(page, ev, m) &&
        h in delegated && page.finds(h.selector, m)
    {
      DelegatedRunIff(page, ev, elem, delegated, m, h);
    }
    GroupsAreBelow(page, ev, elem, delegated, groups);
  }

  lemma GroupsAreBelow(page: Page, ev: Event, elem: Node, delegated: seq<HandleObj>, groups: seq<Group>)
    requires forall g | g in groups :: IsGroup(page, ev, delegated, g)
    requires forall m, h | Runs(groups, m, h) :: OnPath(m, ev.target, elem)
    ensures forall g | g in groups :: g.elem != elem && InOrder(g.handlers, delegated)
  {
    forall g | g in groups
      ensures g.elem != elem && InOrder(g.handlers, delegated)
    {
      FilterInOrder(Matching(page, g.elem), delegated);
      var k :| 0 <= k < |groups| && groups[k] == g;
      assert Runs(groups, g.elem, g.handlers[0]);
    }
  }

  lemma {:induction false} GroupsDescend(page: Page, ev: Event, delegated: seq<HandleObj>, nodes: seq<Node>)
    requires DeepestFirst(nodes)
    ensures DeepestFirst(Elems(GroupsAlong(page, ev, delegated, nodes)))
  {
    if nodes != [] {
      GroupsDescend(page, ev, delegated, nodes[1..]);
      var head := GroupAt(page, ev, delegated, nodes[0]);
      var tail := GroupsAlong(page, ev, delegated, nodes[1..]);
      if head == [] {
        assert head + tail == tail;
      } else {
        GroupsAreGroups(page, ev, delegated, nodes[1..]);
        forall k | 0 <= k < |tail| ensures |Elems(tail)[k].path| < |nodes[0].path| {
          assert tail[k] in tail;
        }
        ElemsCons(head[0], tail);
        assert head + tail == [head[0]] + tail;
      }
    }
  }

  lemma ElemsCons(g: Group, tail: seq<Group>)
    requires DeepestFirst(Elems(tail)) && forall k | 0 <= k < |tail| :: |Elems(tail)[k].path| < |g.elem.path|
    ensures DeepestFirst(Elems([g] + tail))
  {
    assert Elems([g] + tail) == [g.elem] + Elems(tail);
  }

  lemma {:induction false} GroupsAreGroups(page: Page, ev: Event, delegated: seq<HandleObj>, nodes: seq<Node>)
    ensures forall g | g in GroupsAlong(page, ev, delegated, nodes) :: g.elem in nodes && IsGroup(page, ev, delegated, g)
  {
    if nodes != [] {
      GroupsAreGroups(page, ev, delegated, nodes[1..]);
    }
  }

  lemma {:induction false} RunsAlong(page: Page, ev: Event, delegated: seq<HandleObj>, nodes: seq<Node>,
                                     m: Node, h: HandleObj)
    ensures Runs(GroupsAlong(page, ev, delegated, nodes), m, h) <==>
      m in nodes && Eligible(page, ev, m) && h in Filter(Matching(page, m), delegated)
  {
    if nodes != [] {
      RunsAlong(page, ev, delegated, nodes[1..], m, h);
      var head := GroupAt(page, ev, delegated, nodes[0]);
      RunsConcat(head, GroupsAlong(page, ev, delegated, nodes[1..]), m, h);
      if m == nodes[0] && head != [] {
        assert head[0].elem == m;
      }
      assert m in nodes <==> m == nodes[0] || m in nodes[1..];
    }
  }

  lemma RunsConcat(a: seq<Group>, b: seq<Group>, m: Node, h: HandleObj)
    ensures Runs(a + b, m, h) <==> Runs(a, m, h) || Runs(b, m, h)
  {
    if Runs(a, m, h) {
      var k :| 0 <= k < |a| && a[k].elem == m && h in a[k].handlers;
      assert (a + b)[k] == a[k];
    }
    if Runs(b, m, h) {
      var k :| 0 <= k < |b| && b[k].elem == m && h in b[k].handlers;
      assert (a + b)[|a| + k] == b[k];
    }
  }

  // ---------- the loops ----------

  predicate Remembers(tried: map<string, bool>, page: Page, cur: Node)
  {
    forall sel | sel in tried :: tried[sel] == page.finds(sel, cur)
  }

  /** `matches[ sel ]`: a selector is tried once per node. */
  method MatchesAt(page: Page, list: HandlerList, cur: Node) returns (matches: seq<HandleObj>)
    requires 0 <= list.delegateCount <= |list.handlers|
    ensures matches == Filter(Matching(page, cur), list.handlers[..list.delegateCount])
  {
    matches := [];
    var tried: map<string, bool> := map[];
    var i := 0;
    while i < list.delegateCount
      invariant 0 <= i <= list.delegateCount && Remembers(tried, page, cur)
      invariant matches == Filter(Matching(page, cur), list.handlers[..i])
    {
      var handleObj := list.handlers[i];
      tried := Try(tried, page, cur, handleObj.selector);
      FilterUpTo(Matching(page, cur), list.handlers, i);
      if tried[handleObj.selector] {
        matches := matches + [handleObj];
      }
      i := i + 1;
    }
  }

  function Try(tried: map<string, bool>, page: Page, cur: Node, sel: string): (after: map<string, bool>)
    requires Remembers(tried, page, cur)
    ensures Remembers(after, page, cur) && sel in after
  {
    if sel in tried then tried else tried[sel := page.finds(sel, cur)]
  }

  method Handlers(page: Page, ev: Event, elem: Node, list: HandlerList) returns (handlerQueue: seq<Group>)
    requires IsNode(page.forest, ev.target)
    requires 0 <= list.delegateCount <= |list.handlers|
    ensures handlerQueue ==
      Queue(page, ev, elem, list.handlers[..list.delegateCount], list.handlers[list.delegateCount..])
    ensures IsQueue(page, ev, elem, list.handlers[..list.delegateCount], list.handlers[list.delegateCount..], handlerQueue)
  {
    QueueIsQueue(page, ev, elem, list.handlers[..list.delegateCount], list.handlers[list.delegateCount..]);
    handlerQueue := [];
    var cur := ev.target;
    if list.delegateCount != 0 && Subtree(page.forest[cur.root], cur.path).nodeType != 0
       && (ev.button == 0 || !ev.click) {
      handlerQueue := Climb(page, ev, elem, list);
    } else {
      NothingDelegated(page, ev, list.handlers[..list.delegateCount], Ascent(ev.target, elem));
    }
    if list.delegateCount < |list.handlers| {
      handlerQueue := handlerQueue + [Group(elem, list.handlers[list.delegateCount..])];
    }
  }

  method Climb(page: Page, ev: Event, elem: Node, list: HandlerList) returns (handlerQueue: seq<Group>)
    requires IsNode(page.forest, ev.target)
    requires 0 <= list.delegateCount <= |list.handlers|
    ensures handlerQueue ==
      GroupsAlong(page, ev, list.handlers[..list.delegateCount], Ascent(ev.target, elem))
  {
    handlerQueue := [];
    ghost var delegated := list.handlers[..list.delegateCount];
    var cur := Some(ev.target);
    while cur.Some? && cur.value != elem
      invariant handlerQueue + GroupsAlong(page, ev, delegated, AscentFrom(cur, elem)) ==
        GroupsAlong(page, ev, delegated, Ascent(ev.target, elem))
      decreases if cur.Some? then |cur.value.path| + 1 else 0
    {
      GroupsFrom(page, ev, delegated, cur.value, elem);
      var here := GroupHere(page, ev, list, cur.value);
      handlerQueue := handlerQueue + here;
      cur := Parent(cur.value);
    }
  }

  method GroupHere(page: Page, ev: Event, list: HandlerList, cur: Node) returns (groups: seq<Group>)
    requires 0 <= list.delegateCount <= |list.handlers|
    ensures groups == GroupAt(page, ev, list.handlers[..list.delegateCount], cur)
  {
    groups := [];
    if IsElement(page.forest, cur) && !(page.disabled(cur) && ev.click) {
      var matches := MatchesAt(page, list, cur);
      if matches != [] {
        groups := [Group(cur, matches)];
      }
    }
  }

  /** `cur.parentNode || this`: where there is no parent the walk is over. */
  function AscentFrom(cur: Option<Node>, elem: Node): seq<Node>
  {
    if cur.Some? then Ascent(cur.value, elem) else []
  }

  lemma GroupsFrom(page: Page, ev: Event, delegated: seq<HandleObj>, cur: Node, elem: Node)
    requires cur != elem
    ensures GroupsAlong(page, ev, delegated, Ascent(cur, elem)) ==
      GroupAt(page, ev, delegated, cur) + GroupsAlong(page, ev, delegated, AscentFrom(Parent(cur), elem))
  {
    assert Ascent(cur, elem)[1..] == AscentFrom(Parent(cur), elem);
  }

  lemma {:induction false} NothingDelegated(page: Page, ev: Event, delegated: seq<HandleObj>, nodes: seq<Node>)
    ensures delegated == [] ==> GroupsAlong(page, ev, delegated, nodes) == []
  {
    if nodes != [] {
      NothingDelegated(page, ev, delegated, nodes[1..]);
    }
  }

  /** The queue in terms of the registrations themselves. */
  lemma QueueFollowsTheLog(page: Page, ev: Event, elem: Node, table: map<string, HandlerList>, log: seq<HandleObj>, t: string)
    requires IsNode(page.forest, ev.target) && Represents(table, log) && t in table
    ensures 0 <= table[t].delegateCount <= |table[t].handlers|
    ensures
      var queue :=
        Queue(page, ev, elem, table[t].handlers[..table[t].delegateCount], table[t].handlers[table[t].delegateCount..]);
      queue == Queue(page, ev, elem, Delegated(log, t), Direct(log, t)) &&
      IsQueue(page, ev, elem, Delegated(log, t), Direct(log, t), queue)
  {
    QueueIsQueue(page, ev, elem, Delegated(log, t), Direct(log, t));
    assert Keeps(table, log, t);
    assert table[t].handlers[..table[t].delegateCount] == Delegated(log, t);
    assert table[t].handlers[table[t].delegateCount..] == Direct(log, t);
  }
}
