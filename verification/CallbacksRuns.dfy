/**
 What every run of `jQuery.Callbacks` keeps, when callbacks add, remove and fire at will but
 nobody empties, disables or locks the list and `stopOnFalse` is off: every pass calls each
 entry of its roster exactly once in list order unless it is removed before its turn, and fires
 asked for during a pass run afterwards, first in first out.
 */
module CallbacksRuns {
  import opened Wrappers
  import opened Callbacks

  predicate Calm(op: Op)
  {
    op.DoAdd? || op.DoRemove? || op.DoFire? || op.DoReturn?
  }

  // ---------- the vocabulary of the promises ----------

  /** The entries of `roster` that are not in `gone`, in order. */
  function Remaining(roster: seq<Entry>, gone: set<Entry>): seq<Entry>
  {
    if roster == [] then []
    else
      var last := roster[|roster| - 1];
      Remaining(roster[..|roster| - 1], gone) + if last in gone then [] else [last]
  }

  predicate DistinctIds(s: seq<Entry>)
  {
    forall i, j | 0 <= i < j < |s| :: s[i].id != s[j].id
  }

  predicate IdsBelow(s: seq<Entry>, n: nat)
  {
    forall i | 0 <= i < |s| :: s[i].id < n
  }

  /** Every entry that belonged to the pass was called once, in order, unless removed before its turn. */
  predicate Complete(p: Pass)
  {
    DistinctIds(p.roster) && p.invoked == Remaining(p.roster, p.dropped)
  }

  function Waiting(s: State): seq<Data>
  {
    if s.stack.Some? then s.stack.value else []
  }

  function Todo(s: State): seq<Entry>
    requires s.list.Some? && -1 <= s.firingIndex < |s.list.value|
  {
    s.list.value[s.firingIndex + 1..]
  }

  // ---------- the invariant ----------

  predicate BooksInOrder(m: Machine)
  {
    (m.s.list.Some? ==> DistinctIds(m.s.list.value) && IdsBelow(m.s.list.value, m.nextId)) &&
    (forall i | 0 <= i < |m.finished| :: Complete(m.finished[i]))
  }

  predicate RosterInOrder(m: Machine)
  {
    DistinctIds(m.current.roster) && IdsBelow(m.current.roster, m.nextId) &&
    forall e | e in m.current.dropped :: e.id < m.nextId
  }

  predicate PassUnderWay(m: Machine)
  {
    m.s.list.Some? && -1 <= m.s.firingIndex < |m.s.list.value| && RosterInOrder(m) &&
    Remaining(m.current.roster, m.current.dropped) == m.current.invoked + Todo(m.s)
  }

  predicate Inv(m: Machine)
  {
    Coherent(m.s) && BooksInOrder(m) && m.served + Waiting(m.s) == m.requested &&
    if m.s.firing then PassUnderWay(m) else Waiting(m.s) == []
  }

  // ---------- lists ----------

  lemma {:induction false} RemainingAll(s: seq<Entry>)
    ensures Remaining(s, {}) == s
  {
    if s != [] {
      RemainingAll(s[..|s| - 1]);
    }
  }

  lemma {:induction false} RemainingAppend(s: seq<Entry>, t: seq<Entry>, gone: set<Entry>)
    requires forall e | e in t :: e !in gone
    ensures Remaining(s + t, gone) == Remaining(s, gone) + t
  {
    if t == [] {
      assert s + t == s;
    } else {
      var init := t[..|t| - 1];
      RemainingAppend(s, init, gone);
      assert (s + t)[..|s + t| - 1] == s + init;
      assert t == init + [t[|t| - 1]];
    }
  }

  lemma {:induction false} RemainingSub(s: seq<Entry>, gone: set<Entry>)
    ensures forall e :: e in Remaining(s, gone) ==> e in s && e !in gone
  {
    if s != [] {
      RemainingSub(s[..|s| - 1], gone);
    }
  }

  lemma {:induction false} RemainingDistinct(s: seq<Entry>, gone: set<Entry>)
    requires DistinctIds(s)
    ensures DistinctIds(Remaining(s, gone))
  {
    if s != [] {
      var init := s[..|s| - 1];
      RemainingDistinct(init, gone);
      RemainingSub(init, gone);
      var r := Remaining(init, gone);
      forall i | 0 <= i < |r|
        ensures r[i].id != s[|s| - 1].id
      {
        assert r[i] in init;
      }
    }
  }

  /** One more entry is gone: it disappears from where it stood. */
  lemma {:induction false} RemainingDelete(s: seq<Entry>, gone: set<Entry>, a: seq<Entry>, e: Entry, b: seq<Entry>)
    requires DistinctIds(s) && Remaining(s, gone) == a + [e] + b
    ensures Remaining(s, gone + {e}) == a + b
  {
    var init, last := s[..|s| - 1], s[|s| - 1];
    RemainingSub(init, gone);
    var r := Remaining(s, gone);
    if last in gone {
      RemainingDelete(init, gone, a, e, b);
    } else if last == e {
      RemainingDistinct(s, gone);
      assert r[|a|] == e && r[|r| - 1] == last;
      assert b == [];
      assert Remaining(init, gone) == r[..|r| - 1] == a;
      RemainingWithout(init, gone, e);
    } else {
      assert r[|r| - 1] == last;
      assert b != [];
      assert Remaining(init, gone) == r[..|r| - 1] == a + [e] + b[..|b| - 1];
      RemainingDelete(init, gone, a, e, b[..|b| - 1]);
      assert b == b[..|b| - 1] + [last];
    }
  }

  lemma {:induction false} RemainingWithout(s: seq<Entry>, gone: set<Entry>, e: Entry)
    requires e !in s
    ensures Remaining(s, gone + {e}) == Remaining(s, gone)
  {
    if s != [] {
      RemainingWithout(s[..|s| - 1], gone, e);
    }
  }

  // ---------- every operation keeps the invariant ----------

  lemma {:induction false} StartKeeps(o: Options, m: Machine, data: Data, replay: bool)
    requires m.s.list.Some? && m.s.firingStart <= |m.s.list.value| && !m.s.firing && BooksInOrder(m)
    requires m.served + (if replay then [] else [data]) + Waiting(m.s) == m.requested
    ensures Inv(StartPass(o, m, data, replay))
    decreases StackSize(m.s), 1
  {
    BegunAtTurn(o, m, data, replay);
    NextKeeps(o, Begun(o, m, data, replay));
  }

  lemma BegunAtTurn(o: Options, m: Machine, data: Data, replay: bool)
    requires m.s.list.Some? && m.s.firingStart <= |m.s.list.value| && !m.s.firing && BooksInOrder(m)
    requires m.served + (if replay then [] else [data]) + Waiting(m.s) == m.requested
    ensures AtTurn(Begun(o, m, data, replay))
  {
    var begun := Begun(o, m, data, replay);
    var roster := m.s.list.value[m.s.firingStart..];
    assert RosterInOrder(begun) by {
      assert forall i | 0 <= i < |roster| :: roster[i] == m.s.list.value[m.s.firingStart + i];
    }
    assert Remaining(begun.current.roster, {}) == [] + roster by {
      RemainingAll(roster);
    }
    assert begun.served + Waiting(begun.s) == m.requested by {
      if replay {
        assert m.served + [] == m.served;
      }
    }
  }

  /** The loop is about to test `firingIndex`; the entries from there on are still to come. */
  predicate AtTurn(m: Machine)
  {
    m.s.firing && Coherent(m.s) && BooksInOrder(m) && RosterInOrder(m) &&
    m.s.list.Some? && 0 <= m.s.firingIndex <= |m.s.list.value| &&
    Remaining(m.current.roster, m.current.dropped) == m.current.invoked + m.s.list.value[m.s.firingIndex..] &&
    m.served + Waiting(m.s) == m.requested
  }

  lemma {:induction false} NextKeeps(o: Options, m: Machine)
    requires AtTurn(m)
    ensures Inv(NextCallback(o, m))
    decreases StackSize(m.s), 0, 1
  {
    if m.s.firingIndex < m.s.firingLength {
      var list, i := m.s.list.value, m.s.firingIndex;
      assert list[i..] == [list[i]] + list[i + 1..];
      var next := NextCallback(o, m);
      assert m.current.invoked + list[i..] == next.current.invoked + list[i + 1..];
    } else {
      assert m.current.invoked + m.s.list.value[m.s.firingIndex..] == m.current.invoked;
      EndKeeps(o, m);
    }
  }

  lemma {:induction false} EndKeeps(o: Options, m: Machine)
    requires m.s.firing && Coherent(m.s) && BooksInOrder(m) && m.s.list.Some? && Complete(m.current)
    requires m.served + Waiting(m.s) == m.requested
    ensures Inv(EndPass(o, m))
    decreases StackSize(m.s), 0, 0
  {
    var over := m.(s := m.s.(firing := false), finished := m.finished + [m.current], current := NO_PASS);
    if m.s.stack.Some? && m.s.stack.value != [] {
      var shifted := over.(s := over.s.(stack := Some(m.s.stack.value[1..])));
      assert m.served + [m.s.stack.value[0]] + Waiting(shifted.s) == m.served + Waiting(m.s);
      StartKeeps(o, shifted, m.s.stack.value[0], false);
    }
  }

  /** Entries with fresh numbers, added at the end, keep the books in order. */
  lemma BooksGrow(m: Machine, longer: Machine, added: seq<Entry>)
    requires BooksInOrder(m) && m.s.list.Some? && longer.finished == m.finished
    requires longer.s.list == Some(m.s.list.value + added) && longer.nextId == m.nextId + |added|
    requires forall i | 0 <= i < |added| :: added[i].id == m.nextId + i
    ensures BooksInOrder(longer)
    ensures RosterInOrder(m) ==> RosterInOrder(longer.(current := m.current.(roster := m.current.roster + added)))
    ensures RosterInOrder(m) ==> forall e | e in added :: e !in m.current.dropped
  {
  }

  lemma AddKeeps(o: Options, m: Machine, fns: seq<Fn>)
    requires Inv(m)
    ensures Inv(Add(o, m, fns))
  {
    if m.s.list.Some? {
      PushAppends(o, m.s.list.value, fns, m.nextId);
      var pushed := Pushed(o, m, fns);
      var added := pushed.s.list.value[|m.s.list.value|..];
      assert pushed.s.list.value == m.s.list.value + added;
      BooksGrow(m, pushed, added);
      if m.s.firing {
        AddWhileFiringKeeps(o, m, fns, added);
      } else if m.s.memory.Some? {
        StartKeeps(o, pushed, m.s.memory.value, true);
      }
    }
  }

  lemma AddWhileFiringKeeps(o: Options, m: Machine, fns: seq<Fn>, added: seq<Entry>)
    requires Inv(m) && m.s.firing && Push(o, m.s.list.value, fns, m.nextId) == m.s.list.value + added
    requires forall e | e in added :: e !in m.current.dropped
    requires BooksInOrder(Add(o, m, fns)) && RosterInOrder(Add(o, m, fns))
    ensures Inv(Add(o, m, fns))
  {
    var after := Add(o, m, fns);
    assert (m.s.list.value + added)[|m.s.list.value|..] == added;
    assert Remaining(after.current.roster, after.current.dropped) == m.current.invoked + Todo(m.s) + added by {
      RemainingAppend(m.current.roster, added, m.current.dropped);
    }
    assert Todo(after.s) == Todo(m.s) + added;
    assert m.current.invoked + (Todo(m.s) + added) == m.current.invoked + Todo(m.s) + added;
  }

  lemma FireKeeps(o: Options, m: Machine, data: Data)
    requires Inv(m)
    ensures Inv(FireWith(o, m, data))
  {
    if m.s.list.Some? && (!m.s.fired || m.s.stack.Some?) {
      var asked := m.(requested := m.requested + [data]);
      if m.s.firing {
        assert m.served + (Waiting(m.s) + [data]) == m.requested + [data];
      } else {
        assert m.served + [data] + [] == m.requested + [data];
        StartKeeps(o, asked, data, false);
      }
    }
  }

  lemma ReturnKeeps(o: Options, m: Machine, wasFalse: bool)
    requires Inv(m) && m.s.firing && !o.stopOnFalse
    ensures Inv(Return(o, m, wasFalse))
  {
    NextKeeps(o, m.(s := m.s.(firingIndex := m.s.firingIndex + 1)));
  }

  lemma SpliceKeepsBooks(m: Machine, index: nat)
    requires BooksInOrder(m) && m.s.list.Some? && index < |m.s.list.value|
    ensures BooksInOrder(Splice(m, index))
  {
    var list := m.s.list.value;
    var shorter := list[..index] + list[index + 1..];
    assert forall i | 0 <= i < |shorter| :: shorter[i] == if i < index then list[i] else list[i + 1];
  }

  /** Removing an entry whose turn has not come takes it out of what is still to be called. */
  lemma LateSplice(m: Machine, index: nat)
    requires m.s.firing && Coherent(m.s) && BooksInOrder(m) && PassUnderWay(m)
    requires m.s.firingIndex < index < |m.s.list.value|
    ensures PassUnderWay(Splice(m, index))
  {
    var list, f := m.s.list.value, m.s.firingIndex;
    var e, after := list[index], Splice(m, index);
    var a, b := m.current.invoked + list[f + 1..index], list[index + 1..];
    assert Todo(m.s) == list[f + 1..index] + [e] + b;
    assert m.current.invoked + Todo(m.s) == a + [e] + b;
    RemainingDelete(m.current.roster, m.current.dropped, a, e, b);
    assert Todo(after.s) == list[f + 1..index] + b;
    assert m.current.invoked + (list[f + 1..index] + b) == a + b;
  }

  lemma SpliceKeeps(m: Machine, index: nat)
    requires Inv(m) && m.s.list.Some? && index < |m.s.list.value|
    ensures Inv(Splice(m, index))
  {
    SpliceKeepsBooks(m, index);
    if m.s.firing {
      if index > m.s.firingIndex {
        LateSplice(m, index);
      } else {
        assert Todo(Splice(m, index).s) == Todo(m.s);
      }
    }
  }

  lemma {:induction false} RemoveKeeps(m: Machine, fn: Fn, from: nat)
    requires Inv(m) && m.s.list.Some? && from <= |m.s.list.value|
    ensures Inv(RemoveFrom(m, fn, from))
    decreases if m.s.list.Some? then |m.s.list.value| else 0
  {
    var index := IndexOf(m.s.list.value, fn, from);
    if index < |m.s.list.value| {
      SpliceKeeps(m, index);
      RemoveKeeps(Splice(m, index), fn, index);
    }
  }

  // ---------- whole runs ----------

  lemma StepKeeps(o: Options, m: Machine, op: Op)
    requires Inv(m) && Calm(op) && !o.stopOnFalse
    ensures Inv(Step(o, m, op))
  {
    match op
    case DoAdd(fns) => AddKeeps(o, m, fns);
    case DoRemove(fn) =>
      if m.s.list.Some? {
        RemoveKeeps(m, fn, 0);
      }
    case DoFire(data) => FireKeeps(o, m, data);
    case DoReturn(wasFalse) =>
      if m.s.firing {
        ReturnKeeps(o, m, wasFalse);
      }
  }

  lemma {:induction false} RunKeeps(o: Options, m: Machine, ops: seq<Op>)
    requires Inv(m) && !o.stopOnFalse && forall i | 0 <= i < |ops| :: Calm(ops[i])
    ensures Inv(Run(o, m, ops))
    decreases |ops|
  {
    if ops != [] {
      StepKeeps(o, m, ops[0]);
      StepKeepsCoherence(o, m, ops[0]);
      RunKeeps(o, Step(o, m, ops[0]), ops[1..]);
    }
  }

  /**
   Main result: in every run, each finished pass has called the entries of its roster (those in
   the list from the start index on, and those added while it ran) in list order, each exactly
   once, leaving out precisely the ones removed before their turn; an unfinished pass is on its
   way to doing so.
   */
  lemma EveryPassCallsItsRoster(o: Options, ops: seq<Op>)
    requires !o.stopOnFalse && forall i | 0 <= i < |ops| :: Calm(ops[i])
    ensures var m := Run(o, Fresh(o), ops);
            (forall i | 0 <= i < |m.finished| :: Complete(m.finished[i])) &&
            (m.s.firing ==> PassUnderWay(m))
  {
    RunKeeps(o, Fresh(o), ops);
  }

  /** What completeness means for a single entry. */
  lemma CalledExactlyOnceUnlessDropped(p: Pass, e: Entry)
    requires Complete(p) && e in p.roster
    ensures multiset(p.invoked)[e] == if e in p.dropped then 0 else 1
  {
    RemainingSub(p.roster, p.dropped);
    RemainingDistinct(p.roster, p.dropped);
    if e !in p.dropped {
      RemainingComplete(p.roster, p.dropped, e);
      OccursOnce(p.invoked, e);
    } else {
      assert e !in p.invoked;
    }
  }

  lemma {:induction false} RemainingComplete(s: seq<Entry>, gone: set<Entry>, e: Entry)
    requires e in s && e !in gone
    ensures e in Remaining(s, gone)
  {
    if e != s[|s| - 1] {
      assert e in s[..|s| - 1];
      RemainingComplete(s[..|s| - 1], gone, e);
    }
  }

  lemma OccursOnce(s: seq<Entry>, e: Entry)
    requires DistinctIds(s) && e in s
    ensures multiset(s)[e] == 1
  {
    var i :| 0 <= i < |s| && s[i] == e;
    assert s == s[..i] + [e] + s[i + 1..];
    assert e !in s[..i] && e !in s[i + 1..];
  }

  // ---------- nested fires ----------

  /** The arguments of all `fire` calls of a run, in order. */
  function FiresOf(ops: seq<Op>): seq<Data>
  {
    if ops == [] then []
    else (if ops[0].DoFire? then [ops[0].data] else []) + FiresOf(ops[1..])
  }

  /** How the list answers to fires: always, or, with `once`, to the first one only. */
  predicate Answering(o: Options, m: Machine)
  {
    if o.once then m.s.stack.None? && |m.requested| <= 1 && (!m.s.fired ==> m.requested == [])
    else m.s.list.Some? && m.s.stack.Some?
  }

  lemma {:induction false} StartAnswers(o: Options, m: Machine, data: Data, replay: bool)
    requires m.s.list.Some? && m.s.firingStart <= |m.s.list.value|
    requires if o.once then m.s.stack.None? && |m.requested| <= 1 else m.s.stack.Some?
    ensures Answering(o, StartPass(o, m, data, replay)) && StartPass(o, m, data, replay).requested == m.requested
    decreases StackSize(m.s), 1
  {
    var begun := Begun(o, m, data, replay);
    if begun.s.firingIndex >= begun.s.firingLength {
      EndAnswers(o, begun);
    }
  }

  lemma {:induction false} EndAnswers(o: Options, m: Machine)
    requires m.s.firingStart == 0 && m.s.fired
    requires if o.once then m.s.stack.None? && |m.requested| <= 1 else m.s.list.Some? && m.s.stack.Some?
    ensures Answering(o, EndPass(o, m)) && EndPass(o, m).requested == m.requested
    decreases StackSize(m.s), 0
  {
    var over := m.(s := m.s.(firing := false), finished := m.finished + [m.current], current := NO_PASS);
    if m.s.list.Some? && m.s.stack.Some? && m.s.stack.value != [] {
      StartAnswers(o, over.(s := over.s.(stack := Some(m.s.stack.value[1..]))), m.s.stack.value[0], false);
    }
  }

  lemma {:induction false} RemoveAnswers(o: Options, m: Machine, fn: Fn, from: nat)
    requires m.s.list.Some? && from <= |m.s.list.value|
    ensures var r := RemoveFrom(m, fn, from);
            r.s.list.Some? && r.s.stack == m.s.stack && r.s.fired == m.s.fired && r.requested == m.requested
    decreases if m.s.list.Some? then |m.s.list.value| else 0
  {
    var index := IndexOf(m.s.list.value, fn, from);
    if index < |m.s.list.value| {
      RemoveAnswers(o, Splice(m, index), fn, index);
    }
  }

  lemma StepAnswers(o: Options, m: Machine, op: Op)
    requires Coherent(m.s) && Answering(o, m) && Calm(op) && !o.stopOnFalse
    ensures Answering(o, Step(o, m, op))
    ensures op.DoFire? && !o.once ==> Step(o, m, op).requested == m.requested + [op.data]
    ensures !op.DoFire? ==> Step(o, m, op).requested == m.requested
  {
    match op
    case DoAdd(fns) =>
      if m.s.list.Some? && !m.s.firing && m.s.memory.Some? {
        StartAnswers(o, Pushed(o, m, fns), m.s.memory.value, true);
      }
    case DoRemove(fn) =>
      if m.s.list.Some? {
        RemoveAnswers(o, m, fn, 0);
      }
    case DoFire(data) =>
      if m.s.list.Some? && !m.s.firing && (!m.s.fired || m.s.stack.Some?) {
        StartAnswers(o, m.(requested := m.requested + [data]), data, false);
      }
    case DoReturn(wasFalse) =>
      if m.s.firing && !(m.s.list.Some? && m.s.firingIndex + 1 < m.s.firingLength) {
        EndAnswers(o, m.(s := m.s.(firingIndex := m.s.firingIndex + 1)));
      }
  }

  lemma {:induction false} RunAnswers(o: Options, m: Machine, ops: seq<Op>)
    requires Coherent(m.s) && Answering(o, m) && !o.stopOnFalse && forall i | 0 <= i < |ops| :: Calm(ops[i])
    ensures Answering(o, Run(o, m, ops))
    ensures !o.once ==> Run(o, m, ops).requested == m.requested + FiresOf(ops)
    decreases |ops|
  {
    if ops != [] {
      var next := Step(o, m, ops[0]);
      StepAnswers(o, m, ops[0]);
      StepKeepsCoherence(o, m, ops[0]);
      RunAnswers(o, next, ops[1..]);
      FirstOfAll(m.requested, ops);
    }
  }

  lemma FirstOfAll(before: seq<Data>, ops: seq<Op>)
    requires ops != []
    ensures (if ops[0].DoFire? then before + [ops[0].data] else before) + FiresOf(ops[1..]) == before + FiresOf(ops)
  {
  }

  /**
   Main result: without `once`, the passes begun are the fires asked for, first in first out,
   and once nothing is firing any more none has been lost, nested ones included; with `once`
   only the first fire is ever served.
   */
  lemma FiresAreServedInOrder(o: Options, ops: seq<Op>)
    requires !o.stopOnFalse && forall i | 0 <= i < |ops| :: Calm(ops[i])
    ensures var m := Run(o, Fresh(o), ops);
            (!o.once ==> m.served <= FiresOf(ops)) &&
            (!o.once && !m.s.firing ==> m.served == FiresOf(ops)) &&
            (o.once ==> |m.served| <= 1)
  {
    RunKeeps(o, Fresh(o), ops);
    RunAnswers(o, Fresh(o), ops);
    var m := Run(o, Fresh(o), ops);
    assert m.served <= m.served + Waiting(m.s) == m.requested;
    assert [] + FiresOf(ops) == FiresOf(ops);
  }

  // ---------- removal ----------

  function WithoutFn(list: seq<Entry>, fn: Fn): seq<Entry>
  {
    if list == [] then []
    else (if list[0].fn == fn then [] else [list[0]]) + WithoutFn(list[1..], fn)
  }

  lemma {:induction false} WithoutFnConcat(a: seq<Entry>, b: seq<Entry>, fn: Fn)
    ensures WithoutFn(a + b, fn) == WithoutFn(a, fn) + WithoutFn(b, fn)
  {
    if a == [] {
      assert a + b == b;
    } else {
      WithoutFnConcat(a[1..], b, fn);
      var head := if a[0].fn == fn then [] else [a[0]];
      assert WithoutFn(a + b, fn) == head + WithoutFn(a[1..] + b, fn) by {
        assert (a + b)[1..] == a[1..] + b && (a + b)[0] == a[0];
      }
      Regroup(head, WithoutFn(a[1..], fn), WithoutFn(b, fn));
    }
  }

  lemma Regroup(a: seq<Entry>, b: seq<Entry>, c: seq<Entry>)
    ensures a + b + c == a + (b + c)
  {
  }

  lemma {:induction false} WithoutAbsentFn(a: seq<Entry>, fn: Fn)
    requires !Has(a, fn)
    ensures WithoutFn(a, fn) == a
  {
    if a != [] {
      assert a[0].fn != fn;
      assert forall i | 0 <= i < |a[1..]| :: a[1..][i] == a[i + 1];
      WithoutAbsentFn(a[1..], fn);
    }
  }

  lemma WithoutSpliced(list: seq<Entry>, index: nat, fn: Fn)
    requires index < |list| && list[index].fn == fn
    ensures WithoutFn(list[..index] + list[index + 1..], fn) == WithoutFn(list, fn)
  {
    var a, b := list[..index], list[index + 1..];
    WithoutFnConcat(a, b, fn);
    WithoutFnConcat(a, [list[index]] + b, fn);
    assert list == a + ([list[index]] + b);
    assert ([list[index]] + b)[1..] == b;
  }

  /** `remove` takes out every registration of the function, and nothing else. */
  lemma {:induction false} RemoveDropsExactly(m: Machine, fn: Fn, from: nat)
    requires m.s.list.Some? && from <= |m.s.list.value| && !Has(m.s.list.value[..from], fn)
    ensures RemoveFrom(m, fn, from).s.list == Some(WithoutFn(m.s.list.value, fn))
    decreases if m.s.list.Some? then |m.s.list.value| else 0
  {
    var list := m.s.list.value;
    var index := IndexOf(list, fn, from);
    NotInConcat(list[..from], list[from..index], fn);
    assert list[..index] == list[..from] + list[from..index];
    if index == |list| {
      assert list[..index] == list;
      WithoutAbsentFn(list, fn);
    } else {
      var shorter := list[..index] + list[index + 1..];
      var spliced := Splice(m, index);
      assert spliced.s.list == Some(shorter) && shorter[..index] == list[..index];
      RemoveDropsExactly(spliced, fn, index);
      WithoutSpliced(list, index, fn);
    }
  }

  lemma NotInConcat(a: seq<Entry>, b: seq<Entry>, fn: Fn)
    requires !Has(a, fn) && !Has(b, fn)
    ensures !Has(a + b, fn)
  {
    forall i | 0 <= i < |a + b|
      ensures (a + b)[i].fn != fn
    {
      assert (a + b)[i] == if i < |a| then a[i] else b[i - |a|];
    }
  }
}
