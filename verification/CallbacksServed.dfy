/**
 Whom a pass calls, and with what, for every run of `jQuery.Callbacks`, whatever the options and
 operations: passes carry the arguments of the fires they serve, in order; a pass begun for a
 late registration repeats the arguments of the one before; a fire calls the whole list, and a
 late registration its new functions only.
 */
module CallbacksServed {
  import opened Wrappers
  import opened Callbacks
  import opened CallbacksRuns
  import opened CallbacksAdded

  // ---------- the arguments of passes ----------

  /** The passes begun so far. */
  function Passes(m: Machine): seq<Pass>
  {
    m.finished + if m.s.firing then [m.current] else []
  }

  /** The arguments of the passes that are no repetitions. */
  function Arguments(passes: seq<Pass>): seq<Data>
  {
    if passes == [] then []
    else
      var last := passes[|passes| - 1];
      Arguments(passes[..|passes| - 1]) + if last.replay then [] else [last.data]
  }

  /** A repetition carries the arguments of the latest pass that is none. */
  predicate Repeats(passes: seq<Pass>)
  {
    forall i | 0 <= i < |passes| && passes[i].replay :: RepeatsAt(passes, i)
  }

  predicate RepeatsAt(passes: seq<Pass>, i: nat)
    requires i < |passes|
  {
    var before := Arguments(passes[..i]);
    before != [] && passes[i].data == before[|before| - 1]
  }

  /** What is remembered are the latest arguments served. */
  predicate Remembers(m: Machine)
  {
    m.s.memory.Some? ==> m.served != [] && m.s.memory.value == m.served[|m.served| - 1]
  }

  predicate Carried(m: Machine)
  {
    Arguments(Passes(m)) == m.served && Repeats(Passes(m)) && Remembers(m)
  }

  /** Passes that differ in whom they call carry the same arguments. */
  predicate SameArguments(a: seq<Pass>, b: seq<Pass>)
  {
    |a| == |b| && forall i | 0 <= i < |a| :: a[i].data == b[i].data && a[i].replay == b[i].replay
  }

  lemma {:induction false} ArgumentsAgree(a: seq<Pass>, b: seq<Pass>)
    requires SameArguments(a, b)
    ensures Arguments(a) == Arguments(b)
  {
    if a != [] {
      ArgumentsAgree(a[..|a| - 1], b[..|b| - 1]);
    }
  }

  lemma StillCarried(m: Machine, r: Machine)
    requires Carried(m) && SameArguments(Passes(m), Passes(r)) && r.served == m.served
    requires r.s.memory == m.s.memory || r.s.memory.None?
    ensures Carried(r)
  {
    var a, b := Passes(m), Passes(r);
    ArgumentsAgree(a, b);
    forall i | 0 <= i < |b| && b[i].replay
      ensures RepeatsAt(b, i)
    {
      assert RepeatsAt(a, i);
      ArgumentsAgree(a[..i], b[..i]);
    }
  }

  lemma OnePassMore(passes: seq<Pass>, p: Pass)
    requires Repeats(passes)
    requires p.replay ==> Arguments(passes) != [] && p.data == Arguments(passes)[|Arguments(passes)| - 1]
    ensures Arguments(passes + [p]) == Arguments(passes) + if p.replay then [] else [p.data]
    ensures Repeats(passes + [p])
  {
    var all := passes + [p];
    assert all[..|passes|] == passes && all[|passes|] == p;
    forall i | 0 <= i < |all| && all[i].replay
      ensures RepeatsAt(all, i)
    {
      if i < |passes| {
        StillRepeats(passes, all, i);
      }
    }
  }

  lemma StillRepeats(passes: seq<Pass>, more: seq<Pass>, i: nat)
    requires passes <= more && i < |passes| && RepeatsAt(passes, i)
    ensures RepeatsAt(more, i)
  {
    assert more[..i] == passes[..i];
  }

  lemma BegunCarries(o: Options, m: Machine, data: Data, replay: bool)
    requires m.s.list.Some? && m.s.firingStart <= |m.s.list.value| && !m.s.firing && Carried(m)
    requires replay ==> m.served != [] && data == m.served[|m.served| - 1]
    ensures Carried(Begun(o, m, data, replay))
  {
    var begun := Begun(o, m, data, replay);
    assert Passes(m) == m.finished;
    OnePassMore(m.finished, begun.current);
    assert m.served + [] == m.served;
  }

  lemma {:induction false} StartCarries(o: Options, m: Machine, data: Data, replay: bool)
    requires m.s.list.Some? && m.s.firingStart <= |m.s.list.value| && !m.s.firing && Carried(m)
    requires replay ==> m.served != [] && data == m.served[|m.served| - 1]
    ensures Carried(StartPass(o, m, data, replay))
    decreases StackSize(m.s), 1
  {
    BegunCarries(o, m, data, replay);
    NextCarries(o, Begun(o, m, data, replay));
  }

  lemma {:induction false} NextCarries(o: Options, m: Machine)
    requires m.s.firing && Coherent(m.s) && m.s.firingIndex >= 0 && Carried(m)
    ensures Carried(NextCallback(o, m))
    decreases StackSize(m.s), 0, 1
  {
    if m.s.list.Some? && m.s.firingIndex < m.s.firingLength {
      StillCarried(m, NextCallback(o, m));
    } else {
      EndCarries(o, m);
    }
  }

  lemma {:induction false} EndCarries(o: Options, m: Machine)
    requires m.s.firingStart == 0 && m.s.firing && Carried(m)
    ensures Carried(EndPass(o, m))
    decreases StackSize(m.s), 0, 0
  {
    var over := m.(s := m.s.(firing := false), finished := m.finished + [m.current], current := NO_PASS);
    StillCarried(m, over);
    if m.s.list.Some? && m.s.stack.Some? && m.s.stack.value != [] {
      var shifted := over.(s := over.s.(stack := Some(m.s.stack.value[1..])));
      StillCarried(over, shifted);
      StartCarries(o, shifted, m.s.stack.value[0], false);
    } else {
      StillCarried(over, EndPass(o, m));
    }
  }

  lemma {:induction false} RemoveCarries(m: Machine, fn: Fn, from: nat)
    requires m.s.list.Some? && from <= |m.s.list.value| && Carried(m)
    ensures Carried(RemoveFrom(m, fn, from))
    decreases if m.s.list.Some? then |m.s.list.value| else 0
  {
    var index := IndexOf(m.s.list.value, fn, from);
    if index < |m.s.list.value| {
      StillCarried(m, Splice(m, index));
      RemoveCarries(Splice(m, index), fn, index);
    }
  }

  lemma AddCarries(o: Options, m: Machine, fns: seq<Fn>)
    requires Coherent(m.s) && Carried(m)
    ensures Carried(Add(o, m, fns))
  {
    if m.s.list.Some? {
      StillCarried(m, Pushed(o, m, fns));
      if !m.s.firing && m.s.memory.Some? {
        StartCarries(o, Pushed(o, m, fns), m.s.memory.value, true);
      } else {
        StillCarried(m, Add(o, m, fns));
      }
    }
  }

  lemma FireCarries(o: Options, m: Machine, data: Data)
    requires Coherent(m.s) && Carried(m)
    ensures Carried(FireWith(o, m, data))
  {
    if m.s.list.Some? && (!m.s.fired || m.s.stack.Some?) {
      var asked := m.(requested := m.requested + [data]);
      StillCarried(m, asked);
      if m.s.firing {
        StillCarried(m, FireWith(o, m, data));
      } else {
        StartCarries(o, asked, data, false);
      }
    }
  }

  lemma ReturnCarries(o: Options, m: Machine, wasFalse: bool)
    requires Coherent(m.s) && m.s.firing && Carried(m)
    ensures Carried(Callbacks.Return(o, m, wasFalse))
  {
    if wasFalse && o.stopOnFalse {
      StillCarried(m, m.(s := m.s.(memory := None)));
      EndCarries(o, m.(s := m.s.(memory := None)));
    } else {
      StillCarried(m, m.(s := m.s.(firingIndex := m.s.firingIndex + 1)));
      NextCarries(o, m.(s := m.s.(firingIndex := m.s.firingIndex + 1)));
    }
  }

  lemma StepCarries(o: Options, m: Machine, op: Op)
    requires Coherent(m.s) && Carried(m)
    ensures Carried(Step(o, m, op))
  {
    match op
    case DoAdd(fns) => AddCarries(o, m, fns);
    case DoRemove(fn) =>
      if m.s.list.Some? {
        RemoveCarries(m, fn, 0);
      }
    case DoFire(data) => FireCarries(o, m, data);
    case DoReturn(wasFalse) =>
      if m.s.firing {
        ReturnCarries(o, m, wasFalse);
      }
    case DoEmpty => StillCarried(m, Empty(m));
    case DoDisable => StillCarried(m, Disable(m));
    case DoLock => StillCarried(m, Lock(m));
  }

  lemma {:induction false} RunCarries(o: Options, m: Machine, ops: seq<Op>)
    requires Coherent(m.s) && Carried(m)
    ensures Carried(Run(o, m, ops))
    decreases |ops|
  {
    if ops != [] {
      StepKeepsCoherence(o, m, ops[0]);
      StepCarries(o, m, ops[0]);
      RunCarries(o, Step(o, m, ops[0]), ops[1..]);
    }
  }

  /**
   Main result, for every run: the passes begun, the one under way included, carry the arguments
   served, one pass each and in order, and a repetition those of the latest pass before it.
   */
  lemma PassesCarryWhatIsServed(o: Options, ops: seq<Op>)
    ensures var m := Run(o, Fresh(o), ops);
            Arguments(Passes(m)) == m.served && Repeats(Passes(m))
  {
    RunCarries(o, Fresh(o), ops);
  }

  /** So, without `once`, the passes of a list at rest are the fires of the run, arguments and all. */
  lemma PassesAreTheFires(o: Options, ops: seq<Op>)
    requires !o.stopOnFalse && !o.once && forall i | 0 <= i < |ops| :: Calm(ops[i])
    ensures var m := Run(o, Fresh(o), ops);
            Arguments(Passes(m)) <= FiresOf(ops) &&
            (!m.s.firing ==> Arguments(m.finished) == FiresOf(ops))
  {
    PassesCarryWhatIsServed(o, ops);
    FiresAreServedInOrder(o, ops);
    var m := Run(o, Fresh(o), ops);
    assert !m.s.firing ==> Passes(m) == m.finished;
  }

  // ---------- whom a pass calls ----------

  lemma StartCallsFirst(o: Options, m: Machine, data: Data, replay: bool)
    requires m.s.list.Some? && m.s.firingStart < |m.s.list.value|
    ensures var list := m.s.list.value[m.s.firingStart..];
            StartPass(o, m, data, replay) == Begun(o, m, data, replay).(current := Pass(data, replay, list, {}, [list[0]]))
  {
    var begun := Begun(o, m, data, replay);
    assert begun.current.invoked + [m.s.list.value[m.s.firingStart]] == [m.s.list.value[m.s.firingStart]];
  }

  /** With returns only, a fire calls every function of the list, in order, with its arguments. */
  lemma FireCallsTheList(o: Options, m: Machine, data: Data)
    requires Coherent(m.s) && m.s.list.Some? && m.s.list.value != [] && !m.s.firing
    requires !m.s.fired || m.s.stack.Some?
    ensures var list := m.s.list.value;
            var r := Run(o, m, [DoFire(data)] + Returns(|list|));
            m.finished + [Pass(data, false, list, {}, list)] <= r.finished
  {
    var list := m.s.list.value;
    var fired := FireWith(o, m, data);
    RunCons(o, m, DoFire(data), Returns(|list|));
    StartCallsFirst(o, m.(requested := m.requested + [data]), data, false);
    assert list[0..] == list;
    assert fired.current == Pass(data, false, list, {}, [list[0]]);
    PassRunsOut(o, fired);
    assert [list[0]] + list[1..] == list;
  }

  /** With memory, functions added to a list at rest are called at once, they alone, with what is remembered. */
  lemma LateAdditionsAreCalled(o: Options, m: Machine, fns: seq<Fn>, added: seq<Entry>)
    requires Coherent(m.s) && m.s.list.Some? && !m.s.firing && m.s.memory.Some?
    requires Push(o, m.s.list.value, fns, m.nextId) == m.s.list.value + added && added != []
    ensures var r := Run(o, m, [DoAdd(fns)] + Returns(|added|));
            m.finished + [Pass(m.s.memory.value, true, added, {}, added)] <= r.finished
  {
    var list := m.s.list.value;
    var now := Add(o, m, fns);
    RunCons(o, m, DoAdd(fns), Returns(|added|));
    StartCallsFirst(o, Pushed(o, m, fns), m.s.memory.value, true);
    assert (list + added)[|list|..] == added;
    assert now.s.list == Some(list + added) && now.s.firingIndex == |list|;
    assert now.current == Pass(m.s.memory.value, true, added, {}, [added[0]]);
    PassRunsOut(o, now);
    assert (list + added)[|list| + 1..] == added[1..];
    assert [added[0]] + added[1..] == added;
  }

  // ---------- how a list is stopped ----------

  /** With `stopOnFalse` a callback that returns false is the last its pass calls, and nothing is remembered. */
  lemma FalseStopsThePass(o: Options, m: Machine)
    requires Coherent(m.s) && m.s.firing && o.stopOnFalse
    ensures m.finished + [m.current] <= Step(o, m, DoReturn(true)).finished
    ensures Waiting(m.s) == [] ==> var r := Step(o, m, DoReturn(true)); !r.s.firing && r.s.memory == None
  {
    EndPassGrows(o, m.(s := m.s.(memory := None)));
  }

  /** Without it, or if it returns anything else, the pass goes on. */
  lemma OthersGoOn(o: Options, m: Machine, wasFalse: bool)
    requires Coherent(m.s) && m.s.firing && m.s.list.Some? && m.s.firingIndex + 1 < |m.s.list.value|
    requires !(wasFalse && o.stopOnFalse)
    ensures var r := Step(o, m, DoReturn(wasFalse));
      r.s.firing && r.finished == m.finished &&
      r.current.invoked == m.current.invoked + [m.s.list.value[m.s.firingIndex + 1]]
  {
  }

  /** A disabled list calls nothing any more, and accepts no fire, until it is emptied. */
  lemma {:induction false} DisabledCallsNothing(o: Options, m: Machine, ops: seq<Op>)
    requires Coherent(m.s) && m.s.list.None? && forall i | 0 <= i < |ops| :: !ops[i].DoEmpty?
    ensures var r := Run(o, m, ops);
      r.s.list.None? && Calls(r) == Calls(m) && r.served == m.served && r.requested == m.requested
    decreases |ops|
  {
    if ops != [] {
      StepKeepsCoherence(o, m, ops[0]);
      DisabledStep(o, m, ops[0]);
      DisabledCallsNothing(o, Step(o, m, ops[0]), ops[1..]);
    }
  }

  lemma DisabledStep(o: Options, m: Machine, op: Op)
    requires Coherent(m.s) && m.s.list.None? && !op.DoEmpty?
    ensures var r := Step(o, m, op);
      r.s.list.None? && Calls(r) == Calls(m) && r.served == m.served && r.requested == m.requested
  {
    if op.DoReturn? && m.s.firing {
      var stopped := op.wasFalse && o.stopOnFalse;
      var returned := if stopped then m.(s := m.s.(memory := None)) else m.(s := m.s.(firingIndex := m.s.firingIndex + 1));
      DisabledEnds(o, returned);
      assert Step(o, m, op) == EndPass(o, returned);
    }
  }

  lemma DisabledEnds(o: Options, m: Machine)
    requires m.s.list.None? && m.s.firingStart == 0
    ensures var r := EndPass(o, m);
      r.s.list.None? && Calls(r) == Calls(m) && r.served == m.served && r.requested == m.requested
  {
    var finished := m.finished + [m.current];
    assert finished[..|finished| - 1] == m.finished;
    assert Flat(finished) + [] == Flat(m.finished) + m.current.invoked;
  }

  /** A locked list that has fired, or remembers nothing, accepts no fire; what it remembers it still repeats. */
  lemma LockedIgnoresFires(o: Options, m: Machine, data: Data)
    requires Coherent(m.s) && (m.s.fired || m.s.memory.None?)
    ensures Step(o, Step(o, m, DoLock), DoFire(data)) == Step(o, m, DoLock)
    ensures Step(o, m, DoLock).s.memory == m.s.memory
    ensures m.s.memory.Some? ==> Step(o, m, DoLock).s.list == m.s.list
  {
  }

  /** `unique` keeps a list without repeats, and every function asked for is in it. */
  lemma {:induction false} UniqueAddsMissing(o: Options, list: seq<Entry>, fns: seq<Fn>, id: nat)
    requires o.unique && forall i, j | 0 <= i < j < |list| :: list[i].fn != list[j].fn
    ensures var r := Push(o, list, fns, id);
            (forall i, j | 0 <= i < j < |r| :: r[i].fn != r[j].fn) &&
            forall fn :: Has(r, fn) <==> Has(list, fn) || fn in fns
    decreases |fns|
  {
    if fns != [] {
      var next := if Has(list, fns[0]) then list else list + [Entry(fns[0], id)];
      forall fn ensures Has(next, fn) <==> Has(list, fn) || fn == fns[0] {
        if Has(list, fn) {
          var i :| 0 <= i < |list| && list[i].fn == fn;
          assert next[i].fn == fn;
        }
        if !Has(list, fns[0]) {
          assert next[|list|].fn == fns[0];
        }
      }
      UniqueAddsMissing(o, next, fns[1..], if Has(list, fns[0]) then id else id + 1);
      assert forall fn :: fn in fns <==> fn == fns[0] || fn in fns[1..];
    }
  }
}
