/**
 The handler lists of one element: `event.add` and `event.remove`.

 For every event type the element keeps one array, delegated handlers (those with a selector)
 in front, `delegateCount` of them.  The reference this is proved against is one flat log of
 registrations in the order they were made: adding appends to it, removing drops the entries
 that match and nothing else.
 */
module EventHandlers {
  import opened Wrappers

  /** A name of a namespace, standing for its place in the order the host sorts names in. */
  type Name = nat

  /** A `handleObj`; the empty selector stands for every false one. */
  datatype HandleObj = HandleObj(
    eventType: string, origType: string, handler: nat, guid: nat, selector: string, namespaces: seq<Name>)

  /** A word of the `types` argument, taken apart; the type may be missing, the namespaces are sorted. */
  datatype Request = Request(origType: string, namespaces: seq<Name>)

  /** `jQuery.event.special`: the type a handler is kept under, the given one where none is set. */
  datatype Special = Special(bindType: string -> string, delegateType: string -> string)

  datatype HandlerList = HandlerList(handlers: seq<HandleObj>, delegateCount: int)

  // ---------- filtering a log ----------

  function Filter<T>(p: T -> bool, s: seq<T>): seq<T>
  {
    if s == [] then [] else (if p(s[0]) then [s[0]] else []) + Filter(p, s[1..])
  }

  lemma {:induction false} FilterConcat<T>(p: T -> bool, s: seq<T>, t: seq<T>)
    ensures Filter(p, s + t) == Filter(p, s) + Filter(p, t)
  {
    if s == [] {
      assert s + t == t;
    } else {
      FilterConcat(p, s[1..], t);
      var head := if p(s[0]) then [s[0]] else [];
      assert Filter(p, s + t) == head + Filter(p, s[1..] + t) by {
        assert (s + t)[0] == s[0] && (s + t)[1..] == s[1..] + t;
      }
      assert head + (Filter(p, s[1..]) + Filter(p, t)) == head + Filter(p, s[1..]) + Filter(p, t);
    }
  }

  lemma FilterOne<T>(p: T -> bool, x: T)
    ensures Filter(p, [x]) == if p(x) then [x] else []
  {
    assert [x][1..] == [];
  }

  lemma FilterUpTo<T>(p: T -> bool, s: seq<T>, j: nat)
    requires j < |s|
    ensures Filter(p, s[..j + 1]) == Filter(p, s[..j]) + if p(s[j]) then [s[j]] else []
  {
    assert s[..j + 1] == s[..j] + [s[j]];
    FilterConcat(p, s[..j], [s[j]]);
    FilterOne(p, s[j]);
  }

  lemma FilterFrom<T>(p: T -> bool, s: seq<T>, j: nat)
    requires j < |s|
    ensures Filter(p, s[j..]) == (if p(s[j]) then [s[j]] else []) + Filter(p, s[j + 1..])
  {
    assert s[j..][1..] == s[j + 1..];
  }

  lemma {:induction false} FilterOfFilter<T>(p: T -> bool, q: T -> bool, r: T -> bool, s: seq<T>)
    requires forall x | x in s :: r(x) <==> p(x) && q(x)
    ensures Filter(p, Filter(q, s)) == Filter(r, s)
  {
    if s != [] {
      FilterOfFilter(p, q, r, s[1..]);
      FilterConcat(p, if q(s[0]) then [s[0]] else [], Filter(q, s[1..]));
    }
  }

  lemma {:induction false} FilterAgree<T>(p: T -> bool, q: T -> bool, s: seq<T>)
    requires forall x | x in s :: p(x) <==> q(x)
    ensures Filter(p, s) == Filter(q, s)
  {
    if s != [] {
      FilterAgree(p, q, s[1..]);
    }
  }

  lemma {:induction false} FilterAll<T>(p: T -> bool, s: seq<T>)
    requires forall x | x in s :: p(x)
    ensures Filter(p, s) == s
  {
    if s != [] {
      FilterAll(p, s[1..]);
    }
  }

  lemma {:induction false} FilterNone<T>(p: T -> bool, s: seq<T>)
    requires forall x | x in s :: !p(x)
    ensures Filter(p, s) == []
  {
    if s != [] {
      FilterNone(p, s[1..]);
    }
  }

  lemma {:induction false} FilterMembers<T>(p: T -> bool, s: seq<T>)
    ensures forall x :: x in Filter(p, s) <==> x in s && p(x)
  {
    if s != [] {
      FilterMembers(p, s[1..]);
    }
  }

  // ---------- namespaces ----------

  /**
   What the pattern `(^|\.)a\.(?:.*\.|)b(\.|$)` built from the sorted namespaces `a` finds in the
   joined sorted namespaces `b`: the names one after the other, others in between.
   */
  predicate Subsequence(a: seq<Name>, b: seq<Name>)
  {
    a == [] || (b != [] && ((a[0] == b[0] && Subsequence(a[1..], b[1..])) || Subsequence(a, b[1..])))
  }

  predicate Sorted(a: seq<Name>)
  {
    forall i, j | 0 <= i < j < |a| :: a[i] <= a[j]
  }

  /** On sorted names the pattern finds exactly what the documentation asks for: a subset. */
  lemma {:induction false} NamespacesAreASubset(a: seq<Name>, b: seq<Name>)
    requires Sorted(a) && Sorted(b)
    ensures Subsequence(a, b) <==> multiset(a) <= multiset(b)
    decreases |b|
  {
    if a != [] && b == [] {
      assert a[0] in multiset(a);
    } else if a != [] {
      NamespacesAreASubset(a[1..], b[1..]);
      NamespacesAreASubset(a, b[1..]);
      HeadMatters(a, b);
    }
  }

  /** What the first names of two sorted lists say about inclusion. */
  lemma HeadMatters(a: seq<Name>, b: seq<Name>)
    requires a != [] && b != [] && Sorted(a) && Sorted(b)
    ensures a[0] == b[0] ==> (multiset(a) <= multiset(b) <==> multiset(a[1..]) <= multiset(b[1..]))
    ensures a[0] == b[0] && multiset(a) <= multiset(b[1..]) ==> multiset(a) <= multiset(b)
    ensures a[0] != b[0] ==> (multiset(a) <= multiset(b) <==> multiset(a) <= multiset(b[1..]))
  {
    assert multiset(a) == multiset{a[0]} + multiset(a[1..]) by { assert a == [a[0]] + a[1..]; }
    assert multiset(b) == multiset{b[0]} + multiset(b[1..]) by { assert b == [b[0]] + b[1..]; }
    if a[0] == b[0] {
      BothGain(a[0], multiset(a[1..]), multiset(b[1..]));
    } else if b[0] < a[0] {
      assert b[0] !in a;
      assert multiset(a)[b[0]] == 0;
    } else {
      assert a[0] !in b;
      assert multiset(b)[a[0]] == 0 && multiset(a)[a[0]] > 0;
    }
  }

  lemma BothGain(x: Name, a: multiset<Name>, b: multiset<Name>)
    ensures multiset{x} + a <= multiset{x} + b <==> a <= b
  {
    if multiset{x} + a <= multiset{x} + b {
      forall y ensures a[y] <= b[y] {
        assert (multiset{x} + a)[y] <= (multiset{x} + b)[y];
      }
    }
  }

  // ---------- the log ----------

  function Mapped(special: Special, origType: string, selector: string): string
  {
    if selector != "" then special.delegateType(origType) else special.bindType(origType)
  }

  /** The entries a call of `add` makes; its words are worked off from the last one. */
  function Registered(special: Special, requests: seq<Request>, handler: nat, guid: nat, selector: string)
    : seq<HandleObj>
  {
    if requests == [] then []
    else
      var last := requests[|requests| - 1];
      (if last.origType == "" then []
       else [HandleObj(Mapped(special, last.origType, selector), last.origType, handler, guid, selector, last.namespaces)])
      + Registered(special, requests[..|requests| - 1], handler, guid, selector)
  }

  /** What `remove` was asked for, the word of its first argument apart. */
  datatype Criteria = Criteria(guid: Option<nat>, selector: string)

  /** The part of the test in `remove` that does not look at types. */
  predicate Wanted(c: Criteria, namespaces: seq<Name>, h: HandleObj)
  {
    (c.guid.None? || c.guid.value == h.guid) &&
    (namespaces == [] || Subsequence(namespaces, h.namespaces)) &&
    (c.selector == "" || c.selector == h.selector || (c.selector == "**" && h.selector != ""))
  }

  /** The whole test, on the list kept for `eventType`. */
  predicate Hit(c: Criteria, eventType: string, r: Request, mappedTypes: bool, h: HandleObj)
  {
    h.eventType == eventType && (mappedTypes || r.origType == h.origType) && Wanted(c, r.namespaces, h)
  }

  function Types(log: seq<HandleObj>): set<string>
  {
    set h | h in log :: h.eventType
  }

  function Spared(c: Criteria, eventType: string, r: Request, mappedTypes: bool): HandleObj -> bool
  {
    (h: HandleObj) => !Hit(c, eventType, r, mappedTypes, h)
  }

  function Unwanted(c: Criteria, namespaces: seq<Name>): HandleObj -> bool
  {
    (h: HandleObj) => !Wanted(c, namespaces, h)
  }

  /** `order` is one way to go through `keys`. */
  predicate IsEnumeration(order: seq<string>, keys: set<string>)
  {
    (forall i, j | 0 <= i < j < |order| :: order[i] != order[j]) &&
    (forall i | 0 <= i < |order| :: order[i] in keys) && forall k | k in keys :: k in order
  }

  /** The first `n` turns of `for ( type in events )`; a type deleted meanwhile is not visited. */
  function AfterVisits(special: Special, c: Criteria, log: seq<HandleObj>, r: Request, order: seq<string>, n: nat)
    : seq<HandleObj>
    requires n <= |order|
  {
    if n == 0 then log
    else
      var before := AfterVisits(special, c, log, r, order, n - 1);
      if order[n - 1] in Types(before) then
        Filter(Spared(c, Mapped(special, order[n - 1], c.selector), r, true), before)
      else before
  }

  /** One word: drop the matching entries of its type, or go through the types if it names none. */
  function AfterWord(special: Special, c: Criteria, log: seq<HandleObj>, r: Request, order: seq<string>)
    : seq<HandleObj>
  {
    if r.origType != "" then Filter(Spared(c, Mapped(special, r.origType, c.selector), r, false), log)
    else AfterVisits(special, c, log, r, order, |order|)
  }

  /** The last |orders| words, worked off from the last one; `orders` are the enumerations they met. */
  function AfterRemove(special: Special, c: Criteria, log: seq<HandleObj>, requests: seq<Request>,
                       orders: seq<seq<string>>): seq<HandleObj>
    requires |orders| <= |requests|
    decreases |orders|
  {
    if orders == [] then log
    else
      var n := |orders| - 1;
      AfterWord(special, c, AfterRemove(special, c, log, requests, orders[..n]), requests[|requests| - 1 - n], orders[n])
  }

  /** Each word without a type met an enumeration of the types in use at its turn. */
  predicate Enumerated(special: Special, c: Criteria, log: seq<HandleObj>, requests: seq<Request>,
                       orders: seq<seq<string>>)
    requires |orders| <= |requests|
  {
    forall n | 0 <= n < |orders| && requests[|requests| - 1 - n].origType == "" ::
      IsEnumeration(orders[n], Types(AfterRemove(special, c, log, requests, orders[..n])))
  }

  // ---------- a word without a type ----------

  /** Every entry of the type is asked for, so that visiting what is mapped to it deletes it. */
  predicate AllWanted(c: Criteria, log: seq<HandleObj>, r: Request, t: string)
  {
    forall h | h in log && h.eventType == t :: Wanted(c, r.namespaces, h)
  }

  /** The type at place `p` is visited, unless a visit before has deleted it. */
  predicate Visited(special: Special, c: Criteria, log: seq<HandleObj>, r: Request, order: seq<string>, p: nat)
    requires p < |order|
    decreases p, 1
  {
    !(AllWanted(c, log, r, order[p]) && ReachedBy(special, c, log, r, order, p, order[p]))
  }

  /** One of the first `n` types is visited and mapped to `t`. */
  predicate ReachedBy(special: Special, c: Criteria, log: seq<HandleObj>, r: Request, order: seq<string>, n: nat,
                      t: string)
    requires n <= |order|
    decreases n, 0
  {
    n > 0 &&
    (ReachedBy(special, c, log, r, order, n - 1, t) ||
     (Visited(special, c, log, r, order, n - 1) && Mapped(special, order[n - 1], c.selector) == t))
  }

  /** What is left after `n` turns. */
  function Left(special: Special, c: Criteria, log: seq<HandleObj>, r: Request, order: seq<string>, n: nat)
    : HandleObj -> bool
    requires n <= |order|
  {
    (h: HandleObj) => !(Wanted(c, r.namespaces, h) && ReachedBy(special, c, log, r, order, n, h.eventType))
  }

  /** The turns drop the entries asked for whose type is reached, and no other. */
  lemma {:induction false} VisitsDropReached(special: Special, c: Criteria, log: seq<HandleObj>, r: Request,
                                             order: seq<string>, n: nat)
    requires n <= |order| && forall i | 0 <= i < |order| :: order[i] in Types(log)
    ensures AfterVisits(special, c, log, r, order, n) == Filter(Left(special, c, log, r, order, n), log)
  {
    var left := Left(special, c, log, r, order, n);
    if n == 0 {
      FilterAll(left, log);
    } else {
      var key := order[n - 1];
      var was := Left(special, c, log, r, order, n - 1);
      VisitsDropReached(special, c, log, r, order, n - 1);
      StillThereIff(special, c, log, r, order, n - 1);
      if Visited(special, c, log, r, order, n - 1) {
        FilterOfFilter(Spared(c, Mapped(special, key, c.selector), r, true), was, left, log);
      } else {
        FilterAgree(was, left, log);
      }
    }
  }

  lemma StillThereIff(special: Special, c: Criteria, log: seq<HandleObj>, r: Request, order: seq<string>, n: nat)
    requires n < |order| && order[n] in Types(log)
    ensures order[n] in Types(Filter(Left(special, c, log, r, order, n), log)) <==>
      Visited(special, c, log, r, order, n)
  {
    var left := Left(special, c, log, r, order, n);
    FilterMembers(left, log);
    if Visited(special, c, log, r, order, n) {
      if AllWanted(c, log, r, order[n]) {
        var h :| h in log && h.eventType == order[n];
        assert h in Filter(left, log);
      } else {
        var h :| h in log && h.eventType == order[n] && !Wanted(c, r.namespaces, h);
        assert h in Filter(left, log);
      }
    }
  }

  /** No type that handlers are kept under is mapped on, except a direct one when delegated ones are meant. */
  ghost predicate Settled(special: Special)
  {
    forall t: string, s: string, r: string | r != "" ==> s != "" ::
      Mapped(special, Mapped(special, t, s), r) == Mapped(special, t, s)
  }

  /** The mappings jQuery itself sets up. */
  function OwnSpecial(): Special
  {
    Special(
      t => if t == "mouseenter" then "mouseover" else if t == "mouseleave" then "mouseout" else t,
      t => if t == "mouseenter" then "mouseover" else if t == "mouseleave" then "mouseout"
           else if t == "focus" then "focusin" else if t == "blur" then "focusout" else t)
  }

  /**
   A word with namespaces only drops every entry that matches, of whatever type, exactly if each
   type with such an entry is reached: some type that is not deleted before its turn is mapped to it.
   */
  lemma NamespaceWordDropsAllIff(special: Special, c: Criteria, log: seq<HandleObj>, r: Request, order: seq<string>)
    requires r.origType == "" && IsEnumeration(order, Types(log))
    ensures AfterWord(special, c, log, r, order) == Filter(Unwanted(c, r.namespaces), log) <==>
      forall h | h in log && Wanted(c, r.namespaces, h) ::
        ReachedBy(special, c, log, r, order, |order|, h.eventType)
  {
    var p := Left(special, c, log, r, order, |order|);
    var q := Unwanted(c, r.namespaces);
    VisitsDropReached(special, c, log, r, order, |order|);
    if forall h | h in log && Wanted(c, r.namespaces, h) :: ReachedBy(special, c, log, r, order, |order|, h.eventType) {
      FilterAgree(p, q, log);
    }
    FilterMembers(p, log);
    FilterMembers(q, log);
    if Filter(p, log) == Filter(q, log) {
      forall h | h in log && Wanted(c, r.namespaces, h)
        ensures ReachedBy(special, c, log, r, order, |order|, h.eventType)
      {
        assert h !in Filter(q, log);
        assert h !in Filter(p, log);
      }
    }
  }

  /** With such a table, and so with jQuery's own, it drops every matching entry, in any order. */
  lemma NamespaceWordDropsAll(special: Special, c: Criteria, log: seq<HandleObj>, r: Request, order: seq<string>)
    requires Settled(special) && r.origType == "" && IsEnumeration(order, Types(log))
    requires forall h | h in log :: h.eventType == Mapped(special, h.origType, h.selector)
    ensures AfterWord(special, c, log, r, order) == Filter(Unwanted(c, r.namespaces), log)
  {
    forall h | h in log && Wanted(c, r.namespaces, h)
      ensures ReachedBy(special, c, log, r, order, |order|, h.eventType)
    {
      assert c.selector != "" ==> h.selector != "";
      assert h.eventType in Types(log) && Mapped(special, h.eventType, c.selector) == h.eventType;
      var p :| 0 <= p < |order| && order[p] == h.eventType;
      assert ReachedBy(special, c, log, r, order, p + 1, h.eventType);
      StaysReached(special, c, log, r, order, p + 1, |order|, h.eventType);
    }
    NamespaceWordDropsAllIff(special, c, log, r, order);
  }

  lemma {:induction false} StaysReached(special: Special, c: Criteria, log: seq<HandleObj>, r: Request,
                                        order: seq<string>, n: nat, m: nat, t: string)
    requires n <= m <= |order| && ReachedBy(special, c, log, r, order, n, t)
    ensures ReachedBy(special, c, log, r, order, m, t)
  {
    if n < m {
      StaysReached(special, c, log, r, order, n, m - 1, t);
    }
  }

  /** Two types, each mapped to the other, and a handler bound to each. */
  function Swapping(): Special
  {
    Special(t => if t == "a" then "b" else if t == "b" then "a" else t, t => t)
  }

  function SwappedLog(): seq<HandleObj>
  {
    [HandleObj("b", "a", 0, 1, "", [0]), HandleObj("a", "b", 1, 2, "", [0])]
  }

  /**
   There one of the two is left, and which one depends on the order: the type visited first has
   the handlers of the other one removed, which deletes it.
   */
  lemma EnumerationOrderMatters()
    ensures IsEnumeration(["b", "a"], Types(SwappedLog())) && IsEnumeration(["a", "b"], Types(SwappedLog()))
    ensures AfterWord(Swapping(), Criteria(None, ""), SwappedLog(), Request("", [0]), ["b", "a"]) == [SwappedLog()[0]]
    ensures AfterWord(Swapping(), Criteria(None, ""), SwappedLog(), Request("", [0]), ["a", "b"]) == [SwappedLog()[1]]
  {
    assert SwappedLog()[0].eventType == "b" && SwappedLog()[1].eventType == "a";
    assert "a" in Types(SwappedLog()) && "b" in Types(SwappedLog());
    OneVisited("b", "a");
    OneVisited("a", "b");
  }

  /** Binding them is what makes this log. */
  lemma SwappedLogIsRegistered()
    ensures Registered(Swapping(), [Request("a", [0])], 0, 1, "") + Registered(Swapping(), [Request("b", [0])], 1, 2, "")
         == SwappedLog()
  {
    assert [Request("a", [0])][..0] == [] && [Request("b", [0])][..0] == [];
  }

  lemma OneVisited(first: string, second: string)
    requires (first == "b" && second == "a") || (first == "a" && second == "b")
    ensures AfterWord(Swapping(), Criteria(None, ""), SwappedLog(), Request("", [0]), [first, second]) ==
      [SwappedLog()[if first == "b" then 0 else 1]]
  {
    var log := SwappedLog();
    var kept := log[if first == "b" then 0 else 1];
    var c, r := Criteria(None, ""), Request("", [0]);
    assert Subsequence([0], [0]);
    FilterTwo(Spared(c, second, r, true), log[0], log[1]);
    assert log[0] in log && log[1] in log;
    SecondIsSkipped(Swapping(), c, log, r, first, second, kept);
  }

  /** If the first visit leaves a handler of its own type only, the second type is not visited. */
  lemma SecondIsSkipped(special: Special, c: Criteria, log: seq<HandleObj>, r: Request, first: string, second: string,
                        kept: HandleObj)
    requires first in Types(log) && Filter(Spared(c, Mapped(special, first, c.selector), r, true), log) == [kept]
    requires second != kept.eventType
    ensures AfterVisits(special, c, log, r, [first, second], 2) == [kept]
  {
    assert AfterVisits(special, c, log, r, [first, second], 0) == log;
    assert AfterVisits(special, c, log, r, [first, second], 1) == [kept];
    assert second !in Types([kept]);
  }

  lemma FilterTwo<T>(p: T -> bool, x: T, y: T)
    ensures Filter(p, [x, y]) == (if p(x) then [x] else []) + if p(y) then [y] else []
  {
    assert [x, y][1..] == [y];
    FilterOne(p, y);
  }

  lemma OwnSpecialIsSettled()
    ensures Settled(OwnSpecial())
  {
  }

  // ---------- the arrays ----------

  function OfType(t: string): HandleObj -> bool
  {
    (h: HandleObj) => h.eventType == t
  }

  function IsDelegated(): HandleObj -> bool
  {
    (h: HandleObj) => h.selector != ""
  }

  function IsDirect(): HandleObj -> bool
  {
    (h: HandleObj) => h.selector == ""
  }

  function Delegated(log: seq<HandleObj>, t: string): seq<HandleObj>
  {
    Filter(IsDelegated(), Filter(OfType(t), log))
  }

  function Direct(log: seq<HandleObj>, t: string): seq<HandleObj>
  {
    Filter(IsDirect(), Filter(OfType(t), log))
  }

  /**
   The array for a type holds the delegated registrations, `delegateCount` of them, then the
   direct ones, each in the order they were made; there is no array if there are none.
   */
  predicate Keeps(table: map<string, HandlerList>, log: seq<HandleObj>, t: string)
  {
    if t in table then
      table[t] == HandlerList(Delegated(log, t) + Direct(log, t), |Delegated(log, t)|) && table[t].handlers != []
    else Delegated(log, t) + Direct(log, t) == []
  }

  ghost predicate Represents(table: map<string, HandlerList>, log: seq<HandleObj>)
  {
    forall t: string :: Keeps(table, log, t)
  }

  lemma RepresentsKeys(table: map<string, HandlerList>, log: seq<HandleObj>)
    requires Represents(table, log)
    ensures table.Keys == Types(log)
  {
    forall t: string ensures t in table <==> t in Types(log) {
      assert Keeps(table, log, t);
      Present(log, t);
    }
  }

  lemma Present(log: seq<HandleObj>, t: string)
    ensures Delegated(log, t) + Direct(log, t) == [] <==> t !in Types(log)
  {
    var own := Filter(OfType(t), log);
    FilterMembers(OfType(t), log);
    FilterMembers(IsDelegated(), own);
    FilterMembers(IsDirect(), own);
    if t in Types(log) {
      var h :| h in log && h.eventType == t;
      assert h in own;
      assert h in Delegated(log, t) || h in Direct(log, t);
    } else {
      FilterNone(OfType(t), log);
    }
  }

  /** The partition the comments in the source speak of. */
  lemma FirstAreDelegated(table: map<string, HandlerList>, log: seq<HandleObj>, t: string)
    requires Represents(table, log) && t in table
    ensures 0 <= table[t].delegateCount <= |table[t].handlers| && table[t].handlers != []
    ensures forall i | 0 <= i < |table[t].handlers| ::
      table[t].handlers[i].selector != "" <==> i < table[t].delegateCount
  {
    assert Keeps(table, log, t);
    FilterMembers(IsDelegated(), Filter(OfType(t), log));
    FilterMembers(IsDirect(), Filter(OfType(t), log));
    forall i | 0 <= i < |table[t].handlers|
      ensures table[t].handlers[i].selector != "" <==> i < table[t].delegateCount
    {
      if i < |Delegated(log, t)| {
        assert table[t].handlers[i] in Delegated(log, t);
      } else {
        assert table[t].handlers[i] == Direct(log, t)[i - |Delegated(log, t)|];
        assert table[t].handlers[i] in Direct(log, t);
      }
    }
  }

  lemma Appended(log: seq<HandleObj>, h: HandleObj, t: string)
    ensures Delegated(log + [h], t) == Delegated(log, t) + if h.eventType == t && h.selector != "" then [h] else []
    ensures Direct(log + [h], t) == Direct(log, t) + if h.eventType == t && h.selector == "" then [h] else []
  {
    FilterConcat(OfType(t), log, [h]);
    FilterOne(OfType(t), h);
    var own := Filter(OfType(t), log);
    if h.eventType == t {
      FilterConcat(IsDelegated(), own, [h]);
      FilterOne(IsDelegated(), h);
      FilterConcat(IsDirect(), own, [h]);
      FilterOne(IsDirect(), h);
    } else {
      assert own + [] == own;
    }
  }

  /** Dropping entries of one type leaves the arrays of the others alone and filters its own. */
  lemma Dropped(log: seq<HandleObj>, keep: HandleObj -> bool, dropped: string, t: string)
    requires forall h | h in log && h.eventType != dropped :: keep(h)
    ensures t != dropped ==>
      Delegated(Filter(keep, log), t) == Delegated(log, t) && Direct(Filter(keep, log), t) == Direct(log, t)
    ensures Delegated(Filter(keep, log), dropped) == Filter(keep, Delegated(log, dropped))
    ensures Direct(Filter(keep, log), dropped) == Filter(keep, Direct(log, dropped))
  {
    FilterSwap(OfType(t), keep, log);
    FilterMembers(OfType(t), log);
    if t != dropped {
      FilterAll(keep, Filter(OfType(t), log));
    }
    FilterSwap(OfType(dropped), keep, log);
    FilterSwap(IsDelegated(), keep, Filter(OfType(dropped), log));
    FilterSwap(IsDirect(), keep, Filter(OfType(dropped), log));
  }

  lemma FilterSwap<T>(p: T -> bool, q: T -> bool, s: seq<T>)
    ensures Filter(p, Filter(q, s)) == Filter(q, Filter(p, s))
  {
    var both := (x: T) => p(x) && q(x);
    FilterOfFilter(p, q, both, s);
    FilterOfFilter(q, p, both, s);
  }

  // ---------- what `on` and `off` do, said of their arguments ----------

  /** The handler a typed word registers: with a selector under the delegate type, else under the bind type. */
  predicate IsHandlerFor(special: Special, r: Request, handler: nat, guid: nat, selector: string, h: HandleObj)
  {
    r.origType != "" && h.origType == r.origType && h.namespaces == r.namespaces &&
    h.handler == handler && h.guid == guid && h.selector == selector &&
    h.eventType == if selector == "" then special.bindType(r.origType) else special.delegateType(r.origType)
  }

  /** A call of `add` registers a handler for every word with a type, and no others. */
  lemma {:induction false} RegisteredIff(special: Special, requests: seq<Request>, handler: nat, guid: nat, selector: string,
                                         h: HandleObj)
    ensures h in Registered(special, requests, handler, guid, selector) <==>
      exists i :: 0 <= i < |requests| && IsHandlerFor(special, requests[i], handler, guid, selector, h)
    decreases |requests|
  {
    if requests != [] {
      var last := |requests| - 1;
      RegisteredIff(special, requests[..last], handler, guid, selector, h);
      if i :| 0 <= i < |requests| && IsHandlerFor(special, requests[i], handler, guid, selector, h) {
        if i < last {
          assert requests[..last][i] == requests[i];
        }
      }
    }
  }

  /** The last word is registered first. */
  lemma {:induction false} RegisteredLastFirst(special: Special, requests: seq<Request>, handler: nat, guid: nat,
                                               selector: string)
    requires forall i | 0 <= i < |requests| :: requests[i].origType != ""
    ensures var added := Registered(special, requests, handler, guid, selector);
      |added| == |requests| &&
      forall k | 0 <= k < |added| :: IsHandlerFor(special, requests[|requests| - 1 - k], handler, guid, selector, added[k])
    decreases |requests|
  {
    if requests != [] {
      RegisteredLastFirst(special, requests[..|requests| - 1], handler, guid, selector);
    }
  }

  /** With a selector only delegated handlers are added, behind those there are, else only direct ones. */
  lemma OnePartGrows(special: Special, log: seq<HandleObj>, requests: seq<Request>, handler: nat, guid: nat, selector: string,
                     t: string)
    ensures
      var added := Registered(special, requests, handler, guid, selector);
      Delegated(log + added, t) == Delegated(log, t) + (if selector != "" then Filter(OfType(t), added) else []) &&
      Direct(log + added, t) == Direct(log, t) + (if selector == "" then Filter(OfType(t), added) else [])
  {
    var added := Registered(special, requests, handler, guid, selector);
    forall h | h in added
      ensures h.selector == selector
    {
      RegisteredIff(special, requests, handler, guid, selector, h);
    }
    var own := Filter(OfType(t), added);
    FilterMembers(OfType(t), added);
    FilterConcat(OfType(t), log, added);
    FilterConcat(IsDelegated(), Filter(OfType(t), log), own);
    FilterConcat(IsDirect(), Filter(OfType(t), log), own);
    if selector != "" {
      FilterAll(IsDelegated(), own);
      FilterNone(IsDirect(), own);
    } else {
      FilterAll(IsDirect(), own);
      FilterNone(IsDelegated(), own);
    }
  }

  /** A word with a type leaves every handler but those that agree with all it says. */
  lemma TypedWordLeavesIff(special: Special, c: Criteria, log: seq<HandleObj>, r: Request, order: seq<string>, h: HandleObj)
    requires r.origType != "" && Sorted(r.namespaces) && Sorted(h.namespaces)
    ensures h in AfterWord(special, c, log, r, order) <==>
      h in log &&
      !(h.origType == r.origType &&
        h.eventType == (if c.selector == "" then special.bindType(r.origType) else special.delegateType(r.origType)) &&
        (c.guid == None || c.guid == Some(h.guid)) &&
        multiset(r.namespaces) <= multiset(h.namespaces) &&
        (c.selector == "" || h.selector == c.selector || (c.selector == "**" && h.selector != "")))
  {
    FilterMembers(Spared(c, Mapped(special, r.origType, c.selector), r, false), log);
    NamespacesAreASubset(r.namespaces, h.namespaces);
  }

  lemma {:induction false} SubsequenceOfItself(a: seq<Name>)
    ensures Subsequence(a, a)
  {
    if a != [] {
      SubsequenceOfItself(a[1..]);
    }
  }

  /** `off` with the arguments of an `on` takes back just that, if the function was not in use. */
  lemma OffUndoesOn(special: Special, log: seq<HandleObj>, r: Request, handler: nat, guid: nat, selector: string,
                    order: seq<string>)
    requires r.origType != "" && forall h | h in log :: h.guid != guid
    ensures AfterWord(special, Criteria(Some(guid), selector), log + Registered(special, [r], handler, guid, selector), r, order)
         == log
  {
    var added := Registered(special, [r], handler, guid, selector);
    var spared := Spared(Criteria(Some(guid), selector), Mapped(special, r.origType, selector), r, false);
    SubsequenceOfItself(r.namespaces);
    FilterConcat(spared, log, added);
    FilterAll(spared, log);
    forall h | h in added
      ensures !spared(h)
    {
      RegisteredIff(special, [r], handler, guid, selector, h);
    }
    FilterNone(spared, added);
  }

  lemma RegisteredStep(special: Special, requests: seq<Request>, t: nat, handler: nat, guid: nat, selector: string)
    requires t < |requests|
    ensures Registered(special, requests[..t + 1], handler, guid, selector) ==
      (if requests[t].origType == "" then []
       else [HandleObj(Mapped(special, requests[t].origType, selector), requests[t].origType, handler, guid, selector,
                       requests[t].namespaces)])
      + Registered(special, requests[..t], handler, guid, selector)
  {
    assert requests[..t + 1][..t] == requests[..t];
  }

  /** Delegates in front: the array for the type of `h`, with `h` added. */
  method Longer(table: map<string, HandlerList>, ghost log: seq<HandleObj>, h: HandleObj) returns (list: HandlerList)
    requires Keeps(table, log, h.eventType)
    ensures list == Inserted(Delegated(log, h.eventType), Direct(log, h.eventType), h)
  {
    list := if h.eventType in table then table[h.eventType] else HandlerList([], 0);
    SpliceInserts(Delegated(log, h.eventType), Direct(log, h.eventType), h);
    if h.selector != "" {
      list := HandlerList(
        list.handlers[..list.delegateCount] + [h] + list.handlers[list.delegateCount..], list.delegateCount + 1);
    } else {
      list := list.(handlers := list.handlers + [h]);
    }
  }

  function Inserted(delegated: seq<HandleObj>, direct: seq<HandleObj>, h: HandleObj): HandlerList
  {
    if h.selector != "" then HandlerList(delegated + [h] + direct, |delegated| + 1)
    else HandlerList(delegated + (direct + [h]), |delegated|)
  }

  lemma SpliceInserts(delegated: seq<HandleObj>, direct: seq<HandleObj>, h: HandleObj)
    ensures (delegated + direct)[..|delegated|] + [h] + (delegated + direct)[|delegated|..]
         == delegated + [h] + direct
    ensures delegated + direct + [h] == delegated + (direct + [h])
  {
  }

  /** The next word is worked off. */
  lemma WordDone(special: Special, c: Criteria, log: seq<HandleObj>, requests: seq<Request>, orders: seq<seq<string>>,
                 order: seq<string>, before: seq<HandleObj>)
    requires |orders| < |requests| && Enumerated(special, c, log, requests, orders)
    requires before == AfterRemove(special, c, log, requests, orders)
    requires requests[|requests| - 1 - |orders|].origType == "" ==> IsEnumeration(order, Types(before))
    ensures Enumerated(special, c, log, requests, orders + [order])
    ensures AfterRemove(special, c, log, requests, orders + [order]) ==
      AfterWord(special, c, before, requests[|requests| - 1 - |orders|], order)
  {
    var more := orders + [order];
    assert more[..|orders|] == orders;
    forall n | 0 <= n < |more| && requests[|requests| - 1 - n].origType == ""
      ensures IsEnumeration(more[n], Types(AfterRemove(special, c, log, requests, more[..n])))
    {
      if n < |orders| {
        assert more[..n] == orders[..n];
      }
    }
  }

  /** Some order of the keys. */
  method Enumerate(keys: set<string>) returns (order: seq<string>)
    ensures IsEnumeration(order, keys)
  {
    order := [];
    var left := keys;
    while left != {}
      invariant left <= keys && IsEnumeration(order, keys - left)
    {
      var key :| key in left;
      order := order + [key];
      left := left - {key};
    }
    assert keys - left == keys;
  }

  lemma ArrayAdded(table: map<string, HandlerList>, log: seq<HandleObj>, h: HandleObj, list: HandlerList)
    requires Represents(table, log)
    requires list == Inserted(Delegated(log, h.eventType), Direct(log, h.eventType), h)
    ensures Represents(table[h.eventType := list], log + [h])
  {
    var after := table[h.eventType := list];
    forall t: string ensures Keeps(after, log + [h], t) {
      Appended(log, h, t);
      assert Keeps(table, log, t);
      if t == h.eventType {
        assert list.handlers != [];
        assert Delegated(log, t) + [] == Delegated(log, t) && Direct(log, t) + [] == Direct(log, t);
      }
    }
  }

  lemma SplicedOut(s: seq<HandleObj>, j: nat)
    requires j < |s|
    ensures |Filter(IsDelegated(), s[..j] + s[j + 1..])| ==
      |Filter(IsDelegated(), s)| - if s[j].selector != "" then 1 else 0
  {
    assert s == s[..j] + ([s[j]] + s[j + 1..]);
    FilterConcat(IsDelegated(), s[..j], [s[j]] + s[j + 1..]);
    FilterConcat(IsDelegated(), [s[j]], s[j + 1..]);
    FilterConcat(IsDelegated(), s[..j], s[j + 1..]);
  }

  /** The count is that of the delegated handlers in the array, wherever they stand. */
  lemma Split(table: map<string, HandlerList>, log: seq<HandleObj>, t: string)
    requires Represents(table, log)
    ensures t in table ==> table[t].delegateCount == |Filter(IsDelegated(), table[t].handlers)|
  {
    assert Keeps(table, log, t);
    var own := Filter(OfType(t), log);
    DelegatedOf(own);
  }

  lemma DelegatedOf(own: seq<HandleObj>)
    ensures Filter(IsDelegated(), Filter(IsDelegated(), own) + Filter(IsDirect(), own)) == Filter(IsDelegated(), own)
  {
    FilterConcat(IsDelegated(), Filter(IsDelegated(), own), Filter(IsDirect(), own));
    FilterOfFilter(IsDelegated(), IsDelegated(), IsDelegated(), own);
    FilterMembers(IsDirect(), own);
    FilterNone(IsDelegated(), Filter(IsDirect(), own));
  }

  /** Filtering the array of one type and dropping it when it is empty is filtering the log. */
  lemma ArrayAfter(table: map<string, HandlerList>, log: seq<HandleObj>, keep: HandleObj -> bool, t: string,
                   list: HandlerList)
    requires Represents(table, log)
    requires forall h | h in log && h.eventType != t :: keep(h)
    requires list.handlers == Filter(keep, if t in table then table[t].handlers else [])
    requires list.delegateCount == |Filter(IsDelegated(), list.handlers)|
    ensures Represents(
      if t in table && list.handlers == [] then table - {t} else if t in table then table[t := list] else table,
      Filter(keep, log))
  {
    var after :=
      if t in table && list.handlers == [] then table - {t} else if t in table then table[t := list] else table;
    forall u: string ensures Keeps(after, Filter(keep, log), u) {
      assert Keeps(table, log, u);
      Dropped(log, keep, t, u);
      if u == t {
        FilterConcat(keep, Delegated(log, t), Direct(log, t));
        assert list.handlers == Delegated(Filter(keep, log), t) + Direct(Filter(keep, log), t);
        DelegatedOf(Filter(OfType(t), Filter(keep, log)));
      }
    }
  }

  /** `while ( j-- )`: matching handlers are spliced out, and counted off if they have a selector. */
  method SpliceMatching(list: HandlerList, eventType: string, r: Request, c: Criteria, mappedTypes: bool)
    returns (rest: HandlerList)
    requires list.delegateCount == |Filter(IsDelegated(), list.handlers)|
    ensures rest.handlers == Filter(Spared(c, eventType, r, mappedTypes), list.handlers)
    ensures rest.delegateCount == |Filter(IsDelegated(), rest.handlers)|
  {
    rest := list;
    var j := |list.handlers|;
    while j > 0
      invariant 0 <= j <= |list.handlers|
      invariant rest.handlers == list.handlers[..j] + Filter(Spared(c, eventType, r, mappedTypes), list.handlers[j..])
      invariant rest.delegateCount == |Filter(IsDelegated(), rest.handlers)|
    {
      j := j - 1;
      var handleObj := rest.handlers[j];
      assert handleObj == list.handlers[j];
      FilterFrom(Spared(c, eventType, r, mappedTypes), list.handlers, j);
      if Hit(c, eventType, r, mappedTypes, handleObj) {
        SplicedOut(rest.handlers, j);
        rest := rest.(handlers := rest.handlers[..j] + rest.handlers[j + 1..]);
        if handleObj.selector != "" {
          rest := rest.(delegateCount := rest.delegateCount - 1);
        }
      }
    }
    assert list.handlers[0..] == list.handlers;
  }

  /** The element's `events`. */
  class Events {
    var table: map<string, HandlerList>
    const special: Special
    ghost var log: seq<HandleObj>

    ghost predicate Valid()
      reads this
    {
      Represents(table, log)
    }

    constructor (special: Special)
      ensures Valid() && log == [] && this.special == special
    {
      table := map[];
      this.special := special;
      log := [];
    }

    method Add(requests: seq<Request>, handler: nat, guid: nat, selector: string)
      requires Valid()
      modifies this
      ensures Valid() && log == old(log) + Registered(special, requests, handler, guid, selector)
    {
      var t := |requests|;
      assert requests[..t] == requests;
      while t > 0
        invariant 0 <= t <= |requests| && Valid()
        invariant log + Registered(special, requests[..t], handler, guid, selector) ==
          old(log) + Registered(special, requests, handler, guid, selector)
      {
        t := t - 1;
        RegisteredStep(special, requests, t, handler, guid, selector);
        var r := requests[t];
        if r.origType != "" {
          AddOne(HandleObj(Mapped(special, r.origType, selector), r.origType, handler, guid, selector, r.namespaces));
        }
      }
    }

    method AddOne(h: HandleObj)
      requires Valid()
      modifies this
      ensures Valid() && log == old(log) + [h]
    {
      var list := Longer(table, log, h);
      ArrayAdded(table, log, h, list);
      table := table[h.eventType := list];
      log := log + [h];
    }

    /** Returns the enumeration met by every word, the last word first. */
    method Remove(requests: seq<Request>, c: Criteria) returns (orders: seq<seq<string>>)
      requires Valid()
      modifies this
      ensures |orders| == |requests| && Enumerated(special, c, old(log), requests, orders)
      ensures Valid() && log == AfterRemove(special, c, old(log), requests, orders)
    {
      orders := [];
      var t := |requests|;
      while t > 0
        invariant 0 <= t <= |requests| && |orders| == |requests| - t && Valid()
        invariant Enumerated(special, c, old(log), requests, orders)
        invariant log == AfterRemove(special, c, old(log), requests, orders)
      {
        t := t - 1;
        ghost var before := log;
        var order: seq<string> := [];
        if requests[t].origType == "" {
          order := RemoveFromAll(requests[t], c);
        } else {
          RemoveMatching(Mapped(special, requests[t].origType, c.selector), requests[t], c, false);
        }
        WordDone(special, c, old(log), requests, orders, order, before);
        orders := orders + [order];
      }
    }

    /** `for ( type in events )`, in whatever order the host enumerates; what is deleted is skipped. */
    method RemoveFromAll(r: Request, c: Criteria) returns (order: seq<string>)
      requires Valid() && r.origType == ""
      modifies this
      ensures IsEnumeration(order, Types(old(log)))
      ensures Valid() && log == AfterWord(special, c, old(log), r, order)
    {
      RepresentsKeys(table, log);
      order := Enumerate(table.Keys);
      var i := 0;
      while i < |order|
        invariant 0 <= i <= |order| && Valid()
        invariant log == AfterVisits(special, c, old(log), r, order, i)
      {
        RepresentsKeys(table, log);
        if order[i] in table {
          RemoveMatching(Mapped(special, order[i], c.selector), r, c, true);
        }
        i := i + 1;
      }
    }

    /** The inner loop: backwards through the list, splicing out. */
    method RemoveMatching(eventType: string, r: Request, c: Criteria, mappedTypes: bool)
      requires Valid()
      modifies this
      ensures Valid() && log == Filter(Spared(c, eventType, r, mappedTypes), old(log))
    {
      var list := if eventType in table then table[eventType] else HandlerList([], 0);
      var origCount := |list.handlers|;
      Split(table, log, eventType);
      assert Filter(IsDelegated(), []) == [];
      list := SpliceMatching(list, eventType, r, c, mappedTypes);
      ArrayAfter(table, log, Spared(c, eventType, r, mappedTypes), eventType, list);
      assert Keeps(table, log, eventType);
      if origCount > 0 && list.handlers == [] {
        table := table - {eventType};
      } else if eventType in table {
        table := table[eventType := list];
      }
      log := Filter(Spared(c, eventType, r, mappedTypes), log);
    }
  }
}
