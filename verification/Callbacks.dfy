/**
 `jQuery.Callbacks`: a list of functions that may be changed and fired again by the very
 functions it is calling.

 The machine is cut at the points where control passes between the list and a callback.  Between
 two steps either nothing is firing, or the callback at `firingIndex` is executing; then any
 operation may come from inside it, and `Return` is its return.  Callbacks are thus arbitrary
 code, and a run is any sequence of operations.

 Next to the variables of the source the machine keeps a history: every registration has a
 number of its own, and every pass over the list has a record.
 */
module Callbacks {
  import opened Wrappers

  type Fn = nat

  type Data = nat

  datatype Options = Options(once: bool, memory: bool, unique: bool, stopOnFalse: bool)

  /** An entry of `list`: a function, and the number of the registration that put it there. */
  datatype Entry = Entry(fn: Fn, id: nat)

  /** The variables of the closure; None stands for `undefined` (or `false`, for `memory`). */
  datatype State = State(
    list: Option<seq<Entry>>,
    stack: Option<seq<Data>>,
    memory: Option<Data>,
    fired: bool,
    firing: bool,
    firingStart: nat,
    firingLength: int,
    firingIndex: int)

  /**
   A pass over the list: its arguments, whether it repeats remembered ones for a late registration,
   the entries that belonged to it in list order, those of them removed before their turn, and the
   entries called.
   */
  datatype Pass = Pass(data: Data, replay: bool, roster: seq<Entry>, dropped: set<Entry>, invoked: seq<Entry>)

  /**
   `requested` lists the arguments of the accepted `fire` calls, `served` those whose pass has
   begun; passes that replay the remembered arguments for a late registration are in neither.
   */
  datatype Machine = Machine(
    s: State,
    current: Pass,
    finished: seq<Pass>,
    requested: seq<Data>,
    served: seq<Data>,
    nextId: nat)

  const NO_PASS := Pass(0, false, [], {}, [])

  function Fresh(o: Options): Machine
  {
    Machine(State(Some([]), if o.once then None else Some([]), None, false, false, 0, 0, 0), NO_PASS, [], [], [], 0)
  }

  // ---------- lists of entries ----------

  predicate Has(list: seq<Entry>, fn: Fn)
  {
    exists i :: 0 <= i < |list| && list[i].fn == fn
  }

  /** `jQuery.inArray( fn, list, from )`, with |list| for "not found". */
  function IndexOf(list: seq<Entry>, fn: Fn, from: nat): (i: nat)
    requires from <= |list|
    ensures from <= i <= |list|
    ensures i < |list| ==> list[i].fn == fn
    ensures !Has(list[from..i], fn)
    decreases |list| - from
  {
    if from == |list| then from
    else if list[from].fn == fn then from
    else
      var i := IndexOf(list, fn, from + 1);
      assert list[from..i] == [list[from]] + list[from + 1..i];
      i
  }

  function Push(o: Options, list: seq<Entry>, fns: seq<Fn>, id: nat): seq<Entry>
    decreases |fns|
  {
    if fns == [] then list
    else if o.unique && Has(list, fns[0]) then Push(o, list, fns[1..], id)
    else Push(o, list + [Entry(fns[0], id)], fns[1..], id + 1)
  }

  lemma {:induction false} PushAppends(o: Options, list: seq<Entry>, fns: seq<Fn>, id: nat)
    ensures list <= Push(o, list, fns, id)
    ensures var added := Push(o, list, fns, id)[|list|..];
            |added| <= |fns| &&
            (forall i | 0 <= i < |added| :: added[i].id == id + i && added[i].fn in fns)
    ensures !o.unique ==> |Push(o, list, fns, id)| == |list| + |fns|
    decreases |fns|
  {
    if fns != [] {
      if o.unique && Has(list, fns[0]) {
        PushAppends(o, list, fns[1..], id);
      } else {
        var longer := list + [Entry(fns[0], id)];
        PushAppends(o, longer, fns[1..], id + 1);
        var all := Push(o, list, fns, id);
        assert all[|list|] == Entry(fns[0], id);
        forall i | 0 <= i < |all| - |list|
          ensures all[|list|..][i].id == id + i && all[|list|..][i].fn in fns
        {
          if i > 0 {
            assert all[|list|..][i] == all[|longer|..][i - 1];
          }
        }
      }
    }
  }

  // ---------- the operations ----------

  /** Between steps: while firing, `firingLength` is the length of the list. */
  predicate Coherent(s: State)
  {
    s.firingStart == 0 &&
    (s.firing ==> s.fired && s.firingIndex >= -1) &&
    (s.firing && s.list.Some? ==> s.firingLength == |s.list.value|)
  }

  /** The list with the new functions pushed, `firingStart` at the first of them. */
  function Pushed(o: Options, m: Machine, fns: seq<Fn>): (r: Machine)
    requires m.s.list.Some?
    ensures r.s.list.Some? && m.s.list.value <= r.s.list.value && r.s.firingStart == |m.s.list.value|
  {
    PushAppends(o, m.s.list.value, fns, m.nextId);
    var list := Push(o, m.s.list.value, fns, m.nextId);
    m.(s := m.s.(list := Some(list), firingStart := |m.s.list.value|),
       nextId := m.nextId + |list| - |m.s.list.value|)
  }

  function Add(o: Options, m: Machine, fns: seq<Fn>): Machine
    requires Coherent(m.s)
  {
    if m.s.list.None? then m
    else
      var pushed := Pushed(o, m, fns);
      var list := pushed.s.list.value;
      if m.s.firing then
        pushed.(s := pushed.s.(firingStart := 0, firingLength := |list|),
                current := m.current.(roster := m.current.roster + list[|m.s.list.value|..]))
      else if m.s.memory.Some? then StartPass(o, pushed, m.s.memory.value, true)
      else pushed.(s := pushed.s.(firingStart := 0))
  }

  /** One turn of the loop in `remove`. */
  function Splice(m: Machine, index: nat): Machine
    requires m.s.list.Some? && index < |m.s.list.value|
  {
    var list := m.s.list.value;
    var e := list[index];
    var s := m.s.(list := Some(list[..index] + list[index + 1..]));
    if !m.s.firing then m.(s := s)
    else
      var late := index > m.s.firingIndex;
      m.(s := s.(
           firingLength := if index <= s.firingLength then s.firingLength - 1 else s.firingLength,
           firingIndex := if index <= s.firingIndex then s.firingIndex - 1 else s.firingIndex),
         current := if late then m.current.(dropped := m.current.dropped + {e}) else m.current)
  }

  function RemoveFrom(m: Machine, fn: Fn, from: nat): Machine
    requires m.s.list.Some? && from <= |m.s.list.value|
    decreases |m.s.list.value|
  {
    var index := IndexOf(m.s.list.value, fn, from);
    if index == |m.s.list.value| then m else RemoveFrom(Splice(m, index), fn, index)
  }

  function Remove(m: Machine, fn: Fn): Machine
  {
    if m.s.list.None? then m else RemoveFrom(m, fn, 0)
  }

  function Empty(m: Machine): Machine
  {
    m.(s := m.s.(list := Some([]), firingLength := 0))
  }

  function Disabled(s: State): State
  {
    s.(list := None, stack := None, memory := None)
  }

  function Disable(m: Machine): Machine
  {
    m.(s := Disabled(m.s))
  }

  function Lock(m: Machine): Machine
  {
    var s := m.s.(stack := None);
    m.(s := if s.memory.None? then Disabled(s) else s)
  }

  function FireWith(o: Options, m: Machine, data: Data): Machine
    requires Coherent(m.s)
  {
    if m.s.list.Some? && (!m.s.fired || m.s.stack.Some?) then
      var asked := m.(requested := m.requested + [data]);
      if m.s.firing then asked.(s := m.s.(stack := Some(m.s.stack.value + [data])))
      else StartPass(o, asked, data, false)
    else m
  }

  /** The assignments at the head of `fire`. */
  function Begun(o: Options, m: Machine, data: Data, replay: bool): Machine
    requires m.s.list.Some? && m.s.firingStart <= |m.s.list.value|
  {
    var list := m.s.list.value;
    m.(s := m.s.(
         memory := if o.memory then Some(data) else None,
         fired := true,
         firingIndex := m.s.firingStart,
         firingStart := 0,
         firingLength := |list|,
         firing := true),
       current := Pass(data, replay, list[m.s.firingStart..], {}, []),
       served := if replay then m.served else m.served + [data])
  }

  /** `fire`, up to the first callback. */
  function StartPass(o: Options, m: Machine, data: Data, replay: bool): Machine
    requires m.s.list.Some? && m.s.firingStart <= |m.s.list.value|
    decreases StackSize(m.s), 1
  {
    NextCallback(o, Begun(o, m, data, replay))
  }

  function StackSize(s: State): nat
  {
    if s.stack.Some? then |s.stack.value| else 0
  }

  /** The test of the firing loop: call the entry at `firingIndex`, or leave the loop. */
  function NextCallback(o: Options, m: Machine): Machine
    requires m.s.firing && Coherent(m.s) && m.s.firingIndex >= 0
    decreases StackSize(m.s), 0, 1
  {
    if m.s.list.Some? && m.s.firingIndex < m.s.firingLength then
      m.(current := m.current.(invoked := m.current.invoked + [m.s.list.value[m.s.firingIndex]]))
    else EndPass(o, m)
  }

  /** What `fire` does after its loop. */
  function EndPass(o: Options, m: Machine): Machine
    requires m.s.firingStart == 0
    decreases StackSize(m.s), 0, 0
  {
    var over := m.(s := m.s.(firing := false), finished := m.finished + [m.current], current := NO_PASS);
    if m.s.list.None? then over
    else if m.s.stack.Some? then
      if m.s.stack.value != [] then
        StartPass(o, over.(s := over.s.(stack := Some(m.s.stack.value[1..]))), m.s.stack.value[0], false)
      else over
    else if m.s.memory.Some? then over.(s := over.s.(list := Some([])))
    else over.(s := Disabled(over.s))
  }

  /** The executing callback returns, `false` or something else. */
  function Return(o: Options, m: Machine, wasFalse: bool): Machine
    requires m.s.firing && Coherent(m.s)
  {
    if wasFalse && o.stopOnFalse then EndPass(o, m.(s := m.s.(memory := None)))
    else NextCallback(o, m.(s := m.s.(firingIndex := m.s.firingIndex + 1)))
  }

  /** The function being called, if a pass is under way. */
  function Executing(m: Machine): Option<Fn>
  {
    if m.s.firing && m.current.invoked != [] then Some(m.current.invoked[|m.current.invoked| - 1].fn) else None
  }

  // ---------- what a list has called ----------

  function Flat(passes: seq<Pass>): seq<Entry>
  {
    if passes == [] then []
    else Flat(passes[..|passes| - 1]) + passes[|passes| - 1].invoked
  }

  /** All calls list `m` has made so far, in order. */
  function Calls(m: Machine): seq<Entry>
  {
    Flat(m.finished) + m.current.invoked
  }

  // ---------- runs ----------

  datatype Op =
    | DoAdd(fns: seq<Fn>)
    | DoRemove(fn: Fn)
    | DoFire(data: Data)
    | DoReturn(wasFalse: bool)
    | DoEmpty
    | DoDisable
    | DoLock

  /** A callback can only return while one is executing; that step is otherwise skipped. */
  function Step(o: Options, m: Machine, op: Op): Machine
    requires Coherent(m.s)
  {
    match op
    case DoAdd(fns) => Add(o, m, fns)
    case DoRemove(fn) => Remove(m, fn)
    case DoFire(data) => FireWith(o, m, data)
    case DoReturn(wasFalse) => if m.s.firing then Return(o, m, wasFalse) else m
    case DoEmpty => Empty(m)
    case DoDisable => Disable(m)
    case DoLock => Lock(m)
  }

  lemma {:induction false} SpliceRangeCoherent(m: Machine, fn: Fn, from: nat)
    requires Coherent(m.s) && m.s.list.Some? && from <= |m.s.list.value|
    ensures Coherent(RemoveFrom(m, fn, from).s)
    decreases if m.s.list.Some? then |m.s.list.value| else 0
  {
    var index := IndexOf(m.s.list.value, fn, from);
    if index < |m.s.list.value| {
      SpliceRangeCoherent(Splice(m, index), fn, index);
    }
  }

  lemma {:induction false} StartPassCoherent(o: Options, m: Machine, data: Data, replay: bool)
    requires m.s.list.Some? && m.s.firingStart <= |m.s.list.value|
    ensures Coherent(StartPass(o, m, data, replay).s)
    decreases StackSize(m.s), 1
  {
    var begun := Begun(o, m, data, replay);
    if begun.s.firingIndex == begun.s.firingLength {
      EndPassCoherent(o, begun);
    }
  }

  lemma {:induction false} EndPassCoherent(o: Options, m: Machine)
    requires m.s.firingStart == 0
    ensures Coherent(EndPass(o, m).s)
    decreases StackSize(m.s), 0
  {
    var over := m.(s := m.s.(firing := false), finished := m.finished + [m.current], current := NO_PASS);
    if m.s.list.Some? && m.s.stack.Some? && m.s.stack.value != [] {
      StartPassCoherent(o, over.(s := over.s.(stack := Some(m.s.stack.value[1..]))), m.s.stack.value[0], false);
    }
  }

  /** The length of the list and the end of the firing loop never come apart, whatever callbacks do. */
  lemma StepKeepsCoherence(o: Options, m: Machine, op: Op)
    requires Coherent(m.s)
    ensures Coherent(Step(o, m, op).s)
  {
    match op
    case DoAdd(fns) =>
      if m.s.list.Some? && !m.s.firing && m.s.memory.Some? {
        StartPassCoherent(o, Pushed(o, m, fns), m.s.memory.value, true);
      }
    case DoRemove(fn) =>
      if m.s.list.Some? {
        SpliceRangeCoherent(m, fn, 0);
      }
    case DoFire(data) =>
      if m.s.list.Some? && !m.s.firing {
        StartPassCoherent(o, m.(requested := m.requested + [data]), data, false);
      }
    case DoReturn(wasFalse) =>
      if m.s.firing {
        if wasFalse && o.stopOnFalse {
          EndPassCoherent(o, m.(s := m.s.(memory := None)));
        } else {
          EndPassCoherent(o, m.(s := m.s.(firingIndex := m.s.firingIndex + 1)));
        }
      }
    case DoEmpty =>
    case DoDisable =>
    case DoLock =>
  }

  function Run(o: Options, m: Machine, ops: seq<Op>): (r: Machine)
    requires Coherent(m.s)
    ensures Coherent(r.s)
    decreases |ops|
  {
    if ops == [] then m
    else
      StepKeepsCoherence(o, m, ops[0]);
      Run(o, Step(o, m, ops[0]), ops[1..])
  }
}
