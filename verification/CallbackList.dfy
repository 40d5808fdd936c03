/**
 The object `jQuery.Callbacks` returns, with the variables of its closure as fields.  Each method
 is the source's code up to the point where a callback is called or the caller gets control
 back; its effect on the fields and on the history is the step of the machine in `Callbacks`.
 */
module CallbackList {
  import opened Wrappers
  import opened Callbacks

  class List {
    const options: Options
    var list: Option<seq<Entry>>
    var stack: Option<seq<Data>>
    var memory: Option<Data>
    var fired: bool
    var firing: bool
    var firingStart: nat
    var firingLength: int
    var firingIndex: int
    var nextId: nat
    ghost var current: Pass
    ghost var finished: seq<Pass>
    ghost var requested: seq<Data>
    ghost var served: seq<Data>

    ghost function M(): Machine
      reads this
    {
      Machine(State(list, stack, memory, fired, firing, firingStart, firingLength, firingIndex),
              current, finished, requested, served, nextId)
    }

    ghost predicate Valid()
      reads this
    {
      Coherent(M().s)
    }

    constructor (options: Options)
      ensures Valid() && this.options == options && M() == Fresh(options)
    {
      this.options := options;
      list, stack := Some([]), if options.once then None else Some([]);
      memory, fired, firing := None, false, false;
      firingStart, firingLength, firingIndex, nextId := 0, 0, 0, 0;
      current, finished, requested, served := NO_PASS, [], [], [];
    }

    /** `has( fn )` */
    method Includes(fn: Fn) returns (found: bool)
      ensures found == (list.Some? && Has(list.value, fn))
    {
      if list.None? {
        return false;
      }
      var i := IndexOf(list.value, fn, 0);
      assert list.value[0..] == list.value;
      assert list.value[0..|list.value|] == list.value;
      found := i < |list.value|;
    }

    /** Returns the function that is called in consequence, if any; so do the methods below. */
    method Add(fns: seq<Fn>) returns (called: Option<Fn>)
      requires Valid()
      modifies this
      ensures Valid() && M() == Callbacks.Add(options, old(M()), fns)
      ensures !old(firing) ==> called == Executing(M())
    {
      called := None;
      StepKeepsCoherence(options, M(), DoAdd(fns));
      if list.None? {
        return;
      }
      ghost var was := M();
      PushAppends(options, list.value, fns, nextId);
      var start := |list.value|;
      PushAll(fns);
      if firing {
        firingLength := |list.value|;
        current := current.(roster := current.roster + list.value[start..]);
      } else if memory.Some? {
        firingStart := start;
        called := StartPass(memory.value, true);
      }
    }

    /** The loop over the arguments of `add`. */
    method PushAll(fns: seq<Fn>)
      requires list.Some?
      modifies this`list, this`nextId
      ensures list == Some(Push(options, old(list).value, fns, old(nextId)))
      ensures nextId == old(nextId) + |list.value| - |old(list).value|
    {
      var i := 0;
      while i < |fns|
        invariant 0 <= i <= |fns| && list.Some?
        invariant Push(options, list.value, fns[i..], nextId) == Push(options, old(list).value, fns, old(nextId))
        invariant nextId == old(nextId) + |list.value| - |old(list).value|
      {
        var present := false;
        if options.unique {
          present := Includes(fns[i]);
        }
        assert fns[i..][1..] == fns[i + 1..];
        if !present {
          list, nextId := Some(list.value + [Entry(fns[i], nextId)]), nextId + 1;
        }
        i := i + 1;
      }
    }

    method Remove(fn: Fn)
      requires Valid()
      modifies this
      ensures Valid() && M() == Callbacks.Remove(old(M()), fn)
    {
      StepKeepsCoherence(options, M(), DoRemove(fn));
      if list.None? {
        return;
      }
      ghost var was := M();
      ghost var from: nat := 0;
      var index := IndexOf(list.value, fn, 0);
      while index < |list.value|
        invariant list.Some? && from <= |list.value| && index == IndexOf(list.value, fn, from)
        invariant RemoveFrom(M(), fn, from) == RemoveFrom(was, fn, 0)
        decreases |list.value|
      {
        SpliceAt(index);
        from := index;
        index := IndexOf(list.value, fn, index);
      }
    }

    /** The body of the loop in `remove`. */
    method SpliceAt(index: nat)
      requires list.Some? && index < |list.value|
      modifies this
      ensures M() == Splice(old(M()), index)
    {
      if firing && index > firingIndex {
        current := current.(dropped := current.dropped + {list.value[index]});
      }
      list := Some(list.value[..index] + list.value[index + 1..]);
      if firing {
        if index <= firingLength {
          firingLength := firingLength - 1;
        }
        if index <= firingIndex {
          firingIndex := firingIndex - 1;
        }
      }
    }

    method FireWith(data: Data) returns (called: Option<Fn>)
      requires Valid()
      modifies this
      ensures Valid() && M() == Callbacks.FireWith(options, old(M()), data)
      ensures !old(firing) ==> called == Executing(M())
    {
      called := None;
      StepKeepsCoherence(options, M(), DoFire(data));
      if list.Some? && (!fired || stack.Some?) {
        requested := requested + [data];
        if firing {
          stack := Some(stack.value + [data]);
        } else {
          called := StartPass(data, false);
        }
      }
    }

    /** The closure's `fire`, up to its first callback. */
    method StartPass(data: Data, ghost replay: bool) returns (called: Option<Fn>)
      requires list.Some? && firingStart <= |list.value|
      modifies this
      ensures M() == Callbacks.StartPass(options, old(M()), data, replay) && called == Executing(M())
      decreases StackSize(M().s), 1
    {
      Begin(data, replay);
      called := NextCallback();
    }

    /** The assignments at the head of `fire`. */
    method Begin(data: Data, ghost replay: bool)
      requires list.Some? && firingStart <= |list.value|
      modifies this
      ensures M() == Begun(options, old(M()), data, replay)
    {
      memory := if options.memory then Some(data) else None;
      fired := true;
      firingIndex := firingStart;
      current := Pass(data, replay, list.value[firingStart..], {}, []);
      served := if replay then served else served + [data];
      firingStart := 0;
      firingLength := |list.value|;
      firing := true;
    }

    method NextCallback() returns (called: Option<Fn>)
      requires firing && Valid() && firingIndex >= 0
      modifies this
      ensures M() == Callbacks.NextCallback(options, old(M())) && called == Executing(M())
      decreases StackSize(M().s), 0, 1
    {
      if list.Some? && firingIndex < firingLength {
        called := Some(list.value[firingIndex].fn);
        current := current.(invoked := current.invoked + [list.value[firingIndex]]);
      } else {
        called := EndPass();
      }
    }

    method EndPass() returns (called: Option<Fn>)
      requires firingStart == 0
      modifies this
      ensures M() == Callbacks.EndPass(options, old(M())) && called == Executing(M())
      decreases StackSize(M().s), 0, 0
    {
      called := None;
      firing := false;
      finished, current := finished + [current], NO_PASS;
      if list.Some? {
        if stack.Some? {
          if stack.value != [] {
            var next := stack.value[0];
            stack := Some(stack.value[1..]);
            called := StartPass(next, false);
          }
        } else if memory.Some? {
          list := Some([]);
        } else {
          Disable();
        }
      }
    }

    /** The callback at `firingIndex` has returned; `wasFalse` if it returned `false`. */
    method CallbackReturned(wasFalse: bool) returns (called: Option<Fn>)
      requires Valid() && firing
      modifies this
      ensures Valid() && M() == Return(options, old(M()), wasFalse) && called == Executing(M())
    {
      StepKeepsCoherence(options, M(), DoReturn(wasFalse));
      if wasFalse && options.stopOnFalse {
        memory := None;
        called := EndPass();
      } else {
        firingIndex := firingIndex + 1;
        called := NextCallback();
      }
    }

    method Clear()
      requires Valid()
      modifies this
      ensures Valid() && M() == Empty(old(M()))
    {
      list := Some([]);
      firingLength := 0;
    }

    method Disable()
      modifies this
      ensures M() == Callbacks.Disable(old(M()))
    {
      list, stack, memory := None, None, None;
    }

    method Lock()
      requires Valid()
      modifies this
      ensures Valid() && M() == Callbacks.Lock(old(M()))
    {
      stack := None;
      if memory.None? {
        Disable();
      }
    }
  }
}
