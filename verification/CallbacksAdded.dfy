/**
 Where the promise of `CallbacksRuns` ends: `empty` does not reset `firingIndex`, so that what a
 callback adds after emptying the list may never be called.  When exactly it is called is
 settled here for every run, whatever the options and operations.
 */
module CallbacksAdded {
  import opened Wrappers
  import opened Callbacks
  import opened CallbacksRuns

  // ---------- numbers of registrations ----------

  /** Every number in use was handed out before. */
  predicate NumbersUsed(m: Machine)
  {
    (m.s.list.Some? ==> IdsBelow(m.s.list.value, m.nextId)) && IdsBelow(m.current.invoked, m.nextId)
  }

  lemma PushedNumbers(o: Options, m: Machine, fns: seq<Fn>)
    requires m.s.list.Some? && NumbersUsed(m)
    ensures NumbersUsed(Pushed(o, m, fns))
  {
    var list := m.s.list.value;
    PushAppends(o, list, fns, m.nextId);
    var longer := Push(o, list, fns, m.nextId);
    forall k | 0 <= k < |longer| ensures longer[k].id < m.nextId + |longer| - |list| {
      if k < |list| {
        assert longer[k] == list[k];
      } else {
        assert longer[k] == longer[|list|..][k - |list|];
      }
    }
  }

  lemma {:induction false} StartPassNumbers(o: Options, m: Machine, data: Data, replay: bool)
    requires m.s.list.Some? && m.s.firingStart <= |m.s.list.value| && NumbersUsed(m)
    ensures NumbersUsed(StartPass(o, m, data, replay))
    decreases StackSize(m.s), 1
  {
    NextNumbers(o, Begun(o, m, data, replay));
  }

  lemma {:induction false} NextNumbers(o: Options, m: Machine)
    requires m.s.firing && Coherent(m.s) && m.s.firingIndex >= 0 && NumbersUsed(m)
    ensures NumbersUsed(NextCallback(o, m))
    decreases StackSize(m.s), 0, 1
  {
    if !(m.s.list.Some? && m.s.firingIndex < m.s.firingLength) {
      EndPassNumbers(o, m);
    }
  }

  lemma {:induction false} EndPassNumbers(o: Options, m: Machine)
    requires m.s.firingStart == 0 && NumbersUsed(m)
    ensures NumbersUsed(EndPass(o, m))
    decreases StackSize(m.s), 0, 0
  {
    var over := m.(s := m.s.(firing := false), finished := m.finished + [m.current], current := NO_PASS);
    if m.s.list.Some? && m.s.stack.Some? && m.s.stack.value != [] {
      StartPassNumbers(o, over.(s := over.s.(stack := Some(m.s.stack.value[1..]))), m.s.stack.value[0], false);
    }
  }

  lemma {:induction false} RemoveNumbers(m: Machine, fn: Fn, from: nat)
    requires m.s.list.Some? && from <= |m.s.list.value| && NumbersUsed(m)
    ensures NumbersUsed(RemoveFrom(m, fn, from))
    decreases if m.s.list.Some? then |m.s.list.value| else 0
  {
    var index := IndexOf(m.s.list.value, fn, from);
    if index < |m.s.list.value| {
      RemoveNumbers(Splice(m, index), fn, index);
    }
  }

  lemma StepNumbers(o: Options, m: Machine, op: Op)
    requires Coherent(m.s) && NumbersUsed(m)
    ensures NumbersUsed(Step(o, m, op))
  {
    match op
    case DoAdd(fns) =>
      if m.s.list.Some? {
        PushedNumbers(o, m, fns);
        if !m.s.firing && m.s.memory.Some? {
          StartPassNumbers(o, Pushed(o, m, fns), m.s.memory.value, true);
        }
      }
    case DoRemove(fn) =>
      if m.s.list.Some? {
        RemoveNumbers(m, fn, 0);
      }
    case DoFire(data) =>
      if m.s.list.Some? && !m.s.firing && (!m.s.fired || m.s.stack.Some?) {
        StartPassNumbers(o, m.(requested := m.requested + [data]), data, false);
      }
    case DoReturn(wasFalse) =>
      if m.s.firing {
        if wasFalse && o.stopOnFalse {
          EndPassNumbers(o, m.(s := m.s.(memory := None)));
        } else {
          NextNumbers(o, m.(s := m.s.(firingIndex := m.s.firingIndex + 1)));
        }
      }
    case DoEmpty =>
    case DoDisable =>
    case DoLock =>
  }

  lemma {:induction false} RunNumbers(o: Options, m: Machine, ops: seq<Op>)
    requires Coherent(m.s) && NumbersUsed(m)
    ensures NumbersUsed(Run(o, m, ops))
    decreases |ops|
  {
    if ops != [] {
      StepKeepsCoherence(o, m, ops[0]);
      StepNumbers(o, m, ops[0]);
      RunNumbers(o, Step(o, m, ops[0]), ops[1..]);
    }
  }

  // ---------- the rest of a pass ----------

  /** The callbacks return, and nothing else happens. */
  function Returns(n: nat): seq<Op>
  {
    seq(n, _ => DoReturn(false))
  }

  /** How many returns the pass still takes. */
  function ReturnsLeft(s: State): nat
    requires Coherent(s) && s.list.Some? && s.firing
  {
    if s.firingIndex + 1 < |s.list.value| then |s.list.value| - s.firingIndex else 1
  }

  /** The entries still to be called then. */
  function ToCome(s: State): seq<Entry>
    requires Coherent(s) && s.list.Some? && s.firing
  {
    if s.firingIndex + 1 <= |s.list.value| then s.list.value[s.firingIndex + 1..] else []
  }

  /** With so many returns the pass is finished, with fewer it is not; it has called what was to come. */
  lemma {:induction false} PassRunsOut(o: Options, m: Machine)
    requires Coherent(m.s) && m.s.list.Some? && m.s.firing
    ensures
      var pass := m.current.(invoked := m.current.invoked + ToCome(m.s));
      m.finished + [pass] <= Run(o, m, Returns(ReturnsLeft(m.s))).finished
    ensures Run(o, m, Returns(ReturnsLeft(m.s) - 1)).finished == m.finished
    decreases ReturnsLeft(m.s)
  {
    var next := m.(s := m.s.(firingIndex := m.s.firingIndex + 1));
    var n := ReturnsLeft(m.s);
    assert Step(o, m, DoReturn(false)) == NextCallback(o, next);
    ReturnsCons(o, m, n - 1);
    if m.s.firingIndex + 1 < |m.s.list.value| {
      var e := m.s.list.value[m.s.firingIndex + 1];
      var called := NextCallback(o, next);
      assert called == next.(current := next.current.(invoked := m.current.invoked + [e]));
      PassRunsOut(o, called);
      ReturnsCons(o, m, n - 2);
      assert ToCome(m.s) == [e] + ToCome(called.s);
      assert m.current.invoked + [e] + ToCome(called.s) == m.current.invoked + ([e] + ToCome(called.s));
    } else {
      EndPassGrows(o, next);
      assert m.current.invoked + [] == m.current.invoked;
    }
  }

  lemma ReturnsCons(o: Options, m: Machine, n: nat)
    requires Coherent(m.s)
    ensures Coherent(Step(o, m, DoReturn(false)).s)
    ensures Run(o, m, Returns(n + 1)) == Run(o, Step(o, m, DoReturn(false)), Returns(n))
  {
    StepKeepsCoherence(o, m, DoReturn(false));
    assert Returns(n + 1)[1..] == Returns(n);
  }

  lemma {:induction false} EndPassGrows(o: Options, m: Machine)
    requires m.s.firingStart == 0
    ensures m.finished + [m.current] <= EndPass(o, m).finished
    decreases StackSize(m.s), 0
  {
    var over := m.(s := m.s.(firing := false), finished := m.finished + [m.current], current := NO_PASS);
    if m.s.list.Some? && m.s.stack.Some? && m.s.stack.value != [] {
      StartPassGrows(o, over.(s := over.s.(stack := Some(m.s.stack.value[1..]))), m.s.stack.value[0], false);
    }
  }

  lemma {:induction false} StartPassGrows(o: Options, m: Machine, data: Data, replay: bool)
    requires m.s.list.Some? && m.s.firingStart <= |m.s.list.value|
    ensures m.finished <= StartPass(o, m, data, replay).finished
    decreases StackSize(m.s), 1
  {
    var begun := Begun(o, m, data, replay);
    if begun.s.firingIndex == begun.s.firingLength {
      EndPassGrows(o, begun);
    }
  }

  // ---------- the main result ----------

  /**
   At any point of any run at which a callback executes and adds a function: once the callbacks
   have returned, the pass that was under way is finished, and it has called the new entry exactly
   if `firingIndex` lay within the list before.
   */
  lemma AddedEntryIsCalledIff(o: Options, ops: seq<Op>, fn: Fn)
    requires
      var m := Run(o, Fresh(o), ops);
      m.s.list.Some? && m.s.firing && !(o.unique && Has(m.s.list.value, fn))
    ensures
      var m := Run(o, Fresh(o), ops);
      var added := Run(o, m, [DoAdd([fn])]);
      added.s.list.Some? && added.s.firing && added.finished == m.finished &&
      var over := Run(o, added, Returns(ReturnsLeft(added.s)));
      |over.finished| > |m.finished| && over.finished[..|m.finished|] == m.finished &&
      (Entry(fn, m.nextId) in over.finished[|m.finished|].invoked <==> m.s.firingIndex < |m.s.list.value|)
  {
    RunNumbers(o, Fresh(o), ops);
    var m := Run(o, Fresh(o), ops);
    var list := m.s.list.value;
    var e := Entry(fn, m.nextId);
    PushAppends(o, list, [fn], m.nextId);
    assert Push(o, list, [fn], m.nextId) == list + [e];
    var added := Step(o, m, DoAdd([fn]));
    RunCons(o, m, DoAdd([fn]), []);
    assert added.s.list == Some(list + [e]) && added.current.invoked == m.current.invoked;
    PassRunsOut(o, added);
    assert e !in m.current.invoked && e !in list;
    NewIsToComeIff(list, e, m.s.firingIndex + 1);
  }

  lemma NewIsToComeIff(list: seq<Entry>, e: Entry, from: nat)
    requires e !in list
    ensures from <= |list| + 1 ==> (e in (list + [e])[from..] <==> from <= |list|)
  {
    if from <= |list| {
      assert (list + [e])[from..][|list| - from] == e;
    } else if from == |list| + 1 {
      assert (list + [e])[from..] == [];
    }
  }

  lemma RunCons(o: Options, m: Machine, op: Op, ops: seq<Op>)
    requires Coherent(m.s)
    ensures Coherent(Step(o, m, op).s) && Run(o, m, [op] + ops) == Run(o, Step(o, m, op), ops)
  {
    StepKeepsCoherence(o, m, op);
    assert ([op] + ops)[1..] == ops;
  }

  /** A list with one function, being fired: that function is executing. */
  function OneFiring(): Machine
  {
    Machine(State(Some([Entry(7, 0)]), Some([]), None, true, true, 0, 1, 0),
            Pass(0, false, [Entry(7, 0)], {}, [Entry(7, 0)]), [], [0], [0], 1)
  }

  const PLAIN := Options(false, false, false, false)

  lemma OneFires(more: seq<Op>)
    ensures Run(PLAIN, Fresh(PLAIN), [DoAdd([7]), DoFire(0)] + more) == Run(PLAIN, OneFiring(), more)
  {
    assert [DoAdd([7]), DoFire(0)] + more == [DoAdd([7])] + ([DoFire(0)] + more);
    RunCons(PLAIN, Fresh(PLAIN), DoAdd([7]), [DoFire(0)] + more);
    var m := Step(PLAIN, Fresh(PLAIN), DoAdd([7]));
    assert Push(PLAIN, [], [7], 0) == [Entry(7, 0)];
    RunCons(PLAIN, m, DoFire(0), more);
    var begun := Begun(PLAIN, m.(requested := [0]), 0, false);
    assert [Entry(7, 0)][0..] == [Entry(7, 0)];
    assert m.requested + [0] == [0];
    assert begun.current == Pass(0, false, [Entry(7, 0)], {}, []);
    assert Step(PLAIN, m, DoFire(0)) == NextCallback(PLAIN, begun);
  }

  /** A run in which the function being called empties the list and adds another, which is missed. */
  lemma EmptyThenAddIsMissed()
    ensures
      var m := Run(PLAIN, Fresh(PLAIN), [DoAdd([7]), DoFire(0)] + [DoEmpty, DoAdd([8]), DoReturn(false)]);
      m.finished == [Pass(0, false, [Entry(7, 0), Entry(8, 1)], {}, [Entry(7, 0)])] && !Complete(m.finished[0])
  {
    OneFires([DoEmpty, DoAdd([8]), DoReturn(false)]);
    var m := OneFiring();
    RunCons(PLAIN, m, DoEmpty, [DoAdd([8]), DoReturn(false)]);
    var m1 := Step(PLAIN, m, DoEmpty);
    RunCons(PLAIN, m1, DoAdd([8]), [DoReturn(false)]);
    assert Push(PLAIN, [], [8], 1) == [Entry(8, 1)];
    var m2 := Step(PLAIN, m1, DoAdd([8]));
    assert m2.current == Pass(0, false, [Entry(7, 0), Entry(8, 1)], {}, [Entry(7, 0)]);
    RunCons(PLAIN, m2, DoReturn(false), []);
    assert Step(PLAIN, m2, DoReturn(false)) == EndPass(PLAIN, m2.(s := m2.s.(firingIndex := 1)));
    RemainingAll(m2.current.roster);
  }
}
