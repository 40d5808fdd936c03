/**
 `jQuery.Deferred`: three callback lists, of which `done` and `fail` start with three functions
 of their own that set the state, disable the opposite list and lock the progress list.

 User code runs only outside of all lists or inside a user callback, so the machine keeps the
 call stack: `frames` are the lists whose firing loops are active, innermost last.  Between two
 steps user code is executing, either at top level (no frames) or in the callback the innermost
 list is calling.
 */
module Deferreds {
  import opened Wrappers
  import opened Callbacks

  datatype Which = Done | Fail | Progress

  datatype Status = Pending | Resolved | Rejected

  datatype Deferred = Deferred(done: Machine, fail: Machine, progress: Machine, state: Status, frames: seq<Which>)

  const ONCE_MEMORY := Options(true, true, false, false)
  const MEMORY := Options(false, true, false, false)

  /** The list's own functions; a user's function is numbered from USER on. */
  const SET_STATE: Fn := 0
  const DISABLE_OTHER: Fn := 1
  const LOCK_PROGRESS: Fn := 2
  const USER: Fn := 3

  function OptionsOf(w: Which): Options
  {
    if w.Progress? then MEMORY else ONCE_MEMORY
  }

  function Get(d: Deferred, w: Which): Machine
  {
    match w
    case Done => d.done
    case Fail => d.fail
    case Progress => d.progress
  }

  function Set(d: Deferred, w: Which, m: Machine): Deferred
  {
    match w
    case Done => d.(done := m)
    case Fail => d.(fail := m)
    case Progress => d.(progress := m)
  }

  /** What every function below needs: coherent lists, and no stack in the two `once` lists. */
  predicate Sane(d: Deferred)
  {
    Coherent(d.done.s) && Coherent(d.fail.s) && Coherent(d.progress.s) &&
    d.done.s.stack.None? && d.fail.s.stack.None?
  }

  function New(): (d: Deferred)
    ensures Sane(d)
  {
    StepKeepsCoherence(ONCE_MEMORY, Fresh(ONCE_MEMORY), DoAdd([SET_STATE, DISABLE_OTHER, LOCK_PROGRESS]));
    var settling := Add(ONCE_MEMORY, Fresh(ONCE_MEMORY), [SET_STATE, DISABLE_OTHER, LOCK_PROGRESS]);
    Deferred(settling, settling, Fresh(MEMORY), Pending, [])
  }

  /** What one of the functions of list `w` does. */
  function Effect(d: Deferred, w: Which, fn: Fn): Deferred
  {
    if fn == SET_STATE then d.(state := if w.Done? then Resolved else Rejected)
    else if fn == DISABLE_OTHER then
      if w.Done? then d.(fail := Disable(d.fail)) else d.(done := Disable(d.done))
    else d.(progress := Lock(d.progress))
  }

  lemma EffectStaysSane(d: Deferred, w: Which, fn: Fn)
    requires Sane(d)
    ensures Sane(Effect(d, w, fn))
    ensures w != Progress ==> Get(Effect(d, w, fn), w) == Get(d, w)
  {
  }

  /** How far a firing loop without a stack still has to go. */
  function Left(m: Machine): nat
  {
    if !m.s.firing then 0
    else if m.s.list.None? || m.s.firingIndex >= m.s.firingLength then 1
    else 1 + m.s.firingLength - m.s.firingIndex
  }

  /** Leaving a pass when no further fire can be waiting. */
  lemma EndWithoutStack(o: Options, m: Machine)
    requires m.s.firingStart == 0 && m.s.stack.None?
    ensures var e := EndPass(o, m);
            !e.s.firing && e.s.stack.None? && e.s.fired == m.s.fired && e.s.firingStart == 0 &&
            e.finished == m.finished + [m.current] && e.current == NO_PASS &&
            e.requested == m.requested && e.served == m.served && e.nextId == m.nextId &&
            e.s.memory == (if m.s.list.None? || m.s.memory.Some? then m.s.memory else None) &&
            e.s.list == if m.s.list.Some? && m.s.memory.Some? then Some([]) else None
  {
  }

  /** Beginning a pass when no further fire can be waiting: call the first entry, or end at once. */
  lemma StartWithoutStack(o: Options, m: Machine, data: Data, replay: bool)
    requires m.s.list.Some? && m.s.firingStart <= |m.s.list.value| && m.s.stack.None?
    ensures var begun := Begun(o, m, data, replay);
            StartPass(o, m, data, replay) == NextCallback(o, begun) &&
            NextCallback(o, begun) ==
              if m.s.firingStart < |m.s.list.value|
              then begun.(current := begun.current.(invoked := [m.s.list.value[m.s.firingStart]]))
              else EndPass(o, begun)
    ensures StartPass(o, m, data, replay).s.stack.None?
  {
    var begun := Begun(o, m, data, replay);
    EndWithoutStack(o, begun);
    if m.s.firingStart < |m.s.list.value| {
      assert begun.current.invoked + [m.s.list.value[m.s.firingStart]] == [m.s.list.value[m.s.firingStart]];
    }
  }

  lemma ReturnWithoutStack(o: Options, m: Machine)
    requires Coherent(m.s) && m.s.firing && m.s.stack.None?
    ensures Coherent(Callbacks.Return(o, m, false).s) && Callbacks.Return(o, m, false).s.stack.None?
    ensures Left(Callbacks.Return(o, m, false)) < Left(m)
  {
    StepKeepsCoherence(o, m, DoReturn(false));
    EndWithoutStack(o, m.(s := m.s.(firingIndex := m.s.firingIndex + 1)));
  }

  /**
   The innermost firing loop goes on until it calls a user's function or ends.  Ending, it
   gives control back to the user code that started it.
   */
  function Proceed(d: Deferred): Deferred
    requires Sane(d)
    decreases if d.frames == [] then 0 else Left(Get(d, d.frames[|d.frames| - 1]))
  {
    if d.frames == [] then d
    else
      var w := d.frames[|d.frames| - 1];
      var m := Get(d, w);
      if !m.s.firing then d.(frames := d.frames[..|d.frames| - 1])
      else if w != Progress && Executing(m).Some? && Executing(m).value < USER then
        EffectStaysSane(d, w, Executing(m).value);
        ReturnWithoutStack(ONCE_MEMORY, m);
        var acted := Effect(d, w, Executing(m).value);
        Proceed(Set(acted, w, Callbacks.Return(ONCE_MEMORY, m, false)))
      else d
  }

  /** Enter the loop of list `w` if the last operation started it. */
  function Enter(d: Deferred, w: Which, was: Machine): Deferred
    requires Sane(d)
  {
    if !was.s.firing && Get(d, w).s.firing then Proceed(d.(frames := d.frames + [w])) else d
  }

  // ---------- what user code can do ----------

  datatype UserOp =
    | Register(w: Which, fns: seq<Fn>)
    | Settle(w: Which, data: Data)
    | Return

  function AsUser(fns: seq<Fn>): (r: seq<Fn>)
    ensures |r| == |fns| && forall i | 0 <= i < |r| :: r[i] >= USER
  {
    seq(|fns|, i requires 0 <= i < |fns| => fns[i] + USER)
  }

  lemma OperationStaysSane(d: Deferred, w: Which, op: Op)
    requires Sane(d) && (op.DoAdd? || op.DoFire? || op.DoReturn?)
    ensures Coherent(Step(OptionsOf(w), Get(d, w), op).s)
    ensures w != Progress ==> Step(OptionsOf(w), Get(d, w), op).s.stack.None?
  {
    StepKeepsCoherence(OptionsOf(w), Get(d, w), op);
    if w != Progress {
      StackStaysAway(ONCE_MEMORY, Get(d, w), op);
    }
  }

  lemma AddLeavesNoStack(o: Options, m: Machine, fns: seq<Fn>)
    requires Coherent(m.s) && m.s.stack.None?
    ensures Add(o, m, fns).s.stack.None?
  {
    if m.s.list.Some? && !m.s.firing && m.s.memory.Some? {
      StartWithoutStack(o, Pushed(o, m, fns), m.s.memory.value, true);
    }
  }

  lemma StackStaysAway(o: Options, m: Machine, op: Op)
    requires Coherent(m.s) && m.s.stack.None? && (op.DoAdd? || op.DoFire? || op.DoReturn?) && !o.stopOnFalse
    ensures Step(o, m, op).s.stack.None?
  {
    match op
    case DoAdd(fns) => AddLeavesNoStack(o, m, fns);
    case DoFire(data) =>
      if m.s.list.Some? && !m.s.firing {
        StartWithoutStack(o, m.(requested := m.requested + [data]), data, false);
      }
    case DoReturn(wasFalse) =>
      if m.s.firing {
        EndWithoutStack(o, m.(s := m.s.(firingIndex := m.s.firingIndex + 1)));
      }
  }

  /** `done`/`fail`/`progress`, `resolve`/`reject`/`notify`, and the return of the current callback. */
  function UserStep(d: Deferred, op: UserOp): Deferred
    requires Sane(d)
  {
    match op
    case Register(w, fns) =>
      OperationStaysSane(d, w, DoAdd(AsUser(fns)));
      Enter(Set(d, w, Add(OptionsOf(w), Get(d, w), AsUser(fns))), w, Get(d, w))
    case Settle(w, data) =>
      OperationStaysSane(d, w, DoFire(data));
      Enter(Set(d, w, FireWith(OptionsOf(w), Get(d, w), data)), w, Get(d, w))
    case Return =>
      if d.frames == [] then d
      else
        var w := d.frames[|d.frames| - 1];
        if !Get(d, w).s.firing then d
        else
          OperationStaysSane(d, w, DoReturn(false));
          Proceed(Set(d, w, Callbacks.Return(OptionsOf(w), Get(d, w), false)))
  }

  lemma {:induction false} ProceedStaysSane(d: Deferred)
    requires Sane(d)
    ensures Sane(Proceed(d))
    decreases if d.frames == [] then 0 else Left(Get(d, d.frames[|d.frames| - 1]))
  {
    if d.frames != [] {
      var w := d.frames[|d.frames| - 1];
      var m := Get(d, w);
      if m.s.firing && w != Progress && Executing(m).Some? && Executing(m).value < USER {
        EffectStaysSane(d, w, Executing(m).value);
        ReturnWithoutStack(ONCE_MEMORY, m);
        ProceedStaysSane(Set(Effect(d, w, Executing(m).value), w, Callbacks.Return(ONCE_MEMORY, m, false)));
      }
    }
  }

  lemma UserStepStaysSane(d: Deferred, op: UserOp)
    requires Sane(d)
    ensures Sane(UserStep(d, op))
  {
    match op
    case Register(w, fns) =>
      OperationStaysSane(d, w, DoAdd(AsUser(fns)));
      var after := Set(d, w, Add(OptionsOf(w), Get(d, w), AsUser(fns)));
      ProceedStaysSane(after.(frames := after.frames + [w]));
    case Settle(w, data) =>
      OperationStaysSane(d, w, DoFire(data));
      var after := Set(d, w, FireWith(OptionsOf(w), Get(d, w), data));
      ProceedStaysSane(after.(frames := after.frames + [w]));
    case Return =>
      if d.frames != [] && Get(d, d.frames[|d.frames| - 1]).s.firing {
        var w := d.frames[|d.frames| - 1];
        OperationStaysSane(d, w, DoReturn(false));
        ProceedStaysSane(Set(d, w, Callbacks.Return(OptionsOf(w), Get(d, w), false)));
      }
  }

  function UserRun(d: Deferred, ops: seq<UserOp>): (r: Deferred)
    requires Sane(d)
    ensures Sane(r)
    decreases |ops|
  {
    if ops == [] then d
    else
      UserStepStaysSane(d, ops[0]);
      UserRun(UserStep(d, ops[0]), ops[1..])
  }
}
