/**
 What every run of a `Deferred` keeps, whatever handlers do: the state leaves "pending" at most
 once, only one of the two lists ever fires, its handlers are called once each in the order of
 registration with the one settled value (early and late ones alike), and after settlement no
 notification takes effect.
 */
module DeferredRuns {
  import opened Wrappers
  import opened Callbacks
  import opened Deferreds

  // ---------- lists and rolls ----------

  /** The entries `s` are, one by one, the functions `fns`. */
  predicate Lists(s: seq<Entry>, fns: seq<Fn>)
  {
    |s| == |fns| && forall i | 0 <= i < |s| :: s[i].fn == fns[i]
  }

  /** The roll of a settling list: its own three functions, then users' functions. */
  predicate IsRoll(roll: seq<Fn>)
  {
    |roll| >= 3 && roll[0] == SET_STATE && roll[1] == DISABLE_OTHER && roll[2] == LOCK_PROGRESS &&
    forall i | 3 <= i < |roll| :: roll[i] >= USER
  }

  // ---------- the life of a settling list ----------

  predicate Unfired(m: Machine, roll: seq<Fn>)
  {
    Coherent(m.s) && IsRoll(roll) &&
    m.s.list.Some? && m.s.stack.None? && m.s.memory.None? && !m.s.fired && !m.s.firing &&
    m.finished == [] && m.current == NO_PASS && m.served == [] && Lists(m.s.list.value, roll)
  }

  predicate Faithful(m: Machine, v: Data, roll: seq<Fn>)
  {
    Coherent(m.s) && IsRoll(roll) && m.s.fired && m.s.stack.None? && m.s.memory == Some(v) && m.served == [v] &&
    (forall i | 0 <= i < |m.finished| :: m.finished[i].data == v)
  }

  /** Calling, and with the functions still to come it will have called the whole roll. */
  predicate Calling(m: Machine, v: Data, roll: seq<Fn>)
  {
    Faithful(m, v, roll) && m.s.firing && m.s.list.Some? && 0 <= m.s.firingIndex < |m.s.list.value| &&
    m.current.data == v && m.current.invoked != [] &&
    Lists(Calls(m) + m.s.list.value[m.s.firingIndex + 1..], roll)
  }

  /** Fired and at rest: the whole roll has been called. */
  predicate Served(m: Machine, v: Data, roll: seq<Fn>)
  {
    Faithful(m, v, roll) && !m.s.firing && m.s.list == Some([]) && m.current == NO_PASS && Lists(Calls(m), roll)
  }

  predicate Live(m: Machine, v: Data, roll: seq<Fn>)
  {
    Calling(m, v, roll) || Served(m, v, roll)
  }

  /** Disabled before it ever fired. */
  predicate Dead(m: Machine)
  {
    Coherent(m.s) && m.s.list.None? && m.s.stack.None? && !m.s.firing &&
    m.finished == [] && m.current == NO_PASS && m.served == []
  }

  /** About to test `firingIndex`. */
  predicate Turning(m: Machine, v: Data, roll: seq<Fn>)
  {
    Faithful(m, v, roll) && m.s.firing && m.s.list.Some? && 0 <= m.s.firingIndex <= |m.s.list.value| &&
    m.current.data == v && Lists(Calls(m) + m.s.list.value[m.s.firingIndex..], roll)
  }

  lemma NextLives(m: Machine, v: Data, roll: seq<Fn>)
    requires Turning(m, v, roll)
    ensures Live(NextCallback(ONCE_MEMORY, m), v, roll)
    ensures m.s.firingIndex < |m.s.list.value| ==>
      Calling(NextCallback(ONCE_MEMORY, m), v, roll) &&
      Calls(NextCallback(ONCE_MEMORY, m)) == Calls(m) + [m.s.list.value[m.s.firingIndex]]
  {
    var list, i := m.s.list.value, m.s.firingIndex;
    if i < |list| {
      var next := NextCallback(ONCE_MEMORY, m);
      assert Flat(m.finished) + (m.current.invoked + [list[i]]) == Calls(m) + [list[i]];
      assert Calls(m) + list[i..] == Calls(m) + [list[i]] + list[i + 1..];
    } else {
      EndWithoutStack(ONCE_MEMORY, m);
      assert Calls(m) + list[i..] == Calls(m);
      assert Calls(EndPass(ONCE_MEMORY, m)) == Calls(m) + [] == Calls(m);
    }
  }

  lemma ReturnLives(m: Machine, v: Data, roll: seq<Fn>)
    requires Calling(m, v, roll)
    ensures Live(Callbacks.Return(ONCE_MEMORY, m, false), v, roll)
    ensures m.s.firingIndex + 1 < |m.s.list.value| ==>
      Calling(Callbacks.Return(ONCE_MEMORY, m, false), v, roll) &&
      |Calls(Callbacks.Return(ONCE_MEMORY, m, false))| == |Calls(m)| + 1
  {
    NextLives(m.(s := m.s.(firingIndex := m.s.firingIndex + 1)), v, roll);
  }

  /** The function being called is the one the roll names at this point. */
  lemma ExecutingIsNextOnRoll(m: Machine, v: Data, roll: seq<Fn>)
    requires Calling(m, v, roll)
    ensures |Calls(m)| > 0 && Executing(m) == Some(roll[|Calls(m)| - 1])
    ensures |Calls(m)| + |m.s.list.value| - m.s.firingIndex - 1 == |roll|
  {
    var c := Calls(m);
    var rest := m.s.list.value[m.s.firingIndex + 1..];
    assert (c + rest)[|c| - 1] == c[|c| - 1] == m.current.invoked[|m.current.invoked| - 1];
  }

  // ---------- operations on a settling list ----------

  lemma {:induction false} PushListed(o: Options, list: seq<Entry>, fns: seq<Fn>, id: nat, before: seq<Fn>)
    requires !o.unique && Lists(list, before)
    ensures Lists(Push(o, list, fns, id), before + fns)
    decreases |fns|
  {
    if fns != [] {
      PushListed(o, list + [Entry(fns[0], id)], fns[1..], id + 1, before + [fns[0]]);
      assert before + [fns[0]] + fns[1..] == before + fns;
    } else {
      assert before + fns == before;
    }
  }

  lemma UnfiredAdd(m: Machine, roll: seq<Fn>, fns: seq<Fn>)
    requires Unfired(m, roll) && forall i | 0 <= i < |fns| :: fns[i] >= USER
    ensures Unfired(Add(ONCE_MEMORY, m, fns), roll + fns)
  {
    PushListed(ONCE_MEMORY, m.s.list.value, fns, m.nextId, roll);
  }

  lemma CallingAdd(m: Machine, v: Data, roll: seq<Fn>, fns: seq<Fn>)
    requires Calling(m, v, roll) && forall i | 0 <= i < |fns| :: fns[i] >= USER
    ensures Calling(Add(ONCE_MEMORY, m, fns), v, roll + fns)
    ensures Calls(Add(ONCE_MEMORY, m, fns)) == Calls(m)
  {
    PushAppends(ONCE_MEMORY, m.s.list.value, fns, m.nextId);
    var longer := Push(ONCE_MEMORY, m.s.list.value, fns, m.nextId);
    var rest, added := m.s.list.value[m.s.firingIndex + 1..], longer[|m.s.list.value|..];
    AddedListed(m.s.list.value, fns, m.nextId);
    assert longer[m.s.firingIndex + 1..] == rest + added;
    assert Calls(m) + (rest + added) == (Calls(m) + rest) + added;
  }

  lemma AddedListed(list: seq<Entry>, fns: seq<Fn>, id: nat)
    ensures list <= Push(ONCE_MEMORY, list, fns, id)
    ensures Lists(Push(ONCE_MEMORY, list, fns, id)[|list|..], fns)
  {
    PushAppends(ONCE_MEMORY, list, fns, id);
    var before := seq(|list|, i requires 0 <= i < |list| => list[i].fn);
    PushListed(ONCE_MEMORY, list, fns, id, before);
    var all := Push(ONCE_MEMORY, list, fns, id);
    forall i | 0 <= i < |all| - |list|
      ensures all[|list|..][i].fn == fns[i]
    {
      assert all[|list|..][i] == all[|list| + i] && (before + fns)[|list| + i] == fns[i];
    }
  }

  /** Adding to a list at rest begins a pass over the newcomers alone. */
  lemma AddBeginsReplay(m: Machine, v: Data, roll: seq<Fn>, fns: seq<Fn>) returns (begun: Machine)
    requires Served(m, v, roll)
    ensures begun.s.firing && Coherent(begun.s) && begun.s.firingIndex == 0 && begun.s.stack.None?
    ensures Add(ONCE_MEMORY, m, fns) == NextCallback(ONCE_MEMORY, begun)
    ensures begun.s.list.Some? && Lists(begun.s.list.value, fns) && begun.current.invoked == []
    ensures begun.s.fired && begun.s.memory == Some(v) && begun.current.data == v
    ensures begun.served == m.served && begun.finished == m.finished
  {
    AddedListed([], fns, m.nextId);
    var pushed := Pushed(ONCE_MEMORY, m, fns);
    assert pushed.s.list.value[0..] == pushed.s.list.value;
    StartWithoutStack(ONCE_MEMORY, pushed, v, true);
    begun := Begun(ONCE_MEMORY, pushed, v, true);
  }

  /** A handler added after settlement is called at once, with the settled value. */
  lemma ServedAdd(m: Machine, v: Data, roll: seq<Fn>, fns: seq<Fn>)
    requires Served(m, v, roll) && forall i | 0 <= i < |fns| :: fns[i] >= USER
    ensures Live(Add(ONCE_MEMORY, m, fns), v, roll + fns)
    ensures Calling(Add(ONCE_MEMORY, m, fns), v, roll + fns) ==> |Calls(Add(ONCE_MEMORY, m, fns))| == |roll| + 1
  {
    var begun := AddBeginsReplay(m, v, roll, fns);
    assert Calls(begun) == Calls(m);
    assert begun.s.list.value[0..] == begun.s.list.value;
    assert Turning(begun, v, roll + fns);
    NextLives(begun, v, roll + fns);
  }

  lemma UnfiredFire(m: Machine, roll: seq<Fn>, v: Data)
    requires Unfired(m, roll)
    ensures Calling(FireWith(ONCE_MEMORY, m, v), v, roll) && |Calls(FireWith(ONCE_MEMORY, m, v))| == 1
  {
    var asked := m.(requested := m.requested + [v]);
    StartWithoutStack(ONCE_MEMORY, asked, v, false);
    var begun := Begun(ONCE_MEMORY, asked, v, false);
    assert m.s.list.value[0..] == m.s.list.value;
    assert Calls(begun) == [];
    assert begun.served == [v];
    assert [] + m.s.list.value == m.s.list.value;
    assert Turning(begun, v, roll);
    NextLives(begun, v, roll);
  }

  // ---------- the progress list ----------

  /** Before settlement. */
  predicate OpenProgress(m: Machine)
  {
    Coherent(m.s) && (m.s.memory.Some? ==> m.s.fired)
  }

  /** After settlement: no fire will be accepted, and none is waiting. */
  predicate ClosedProgress(m: Machine)
  {
    Coherent(m.s) && m.s.stack.None? && (m.s.list.None? || m.s.fired)
  }

  lemma {:induction false} StartFires(o: Options, m: Machine, data: Data, replay: bool)
    requires m.s.list.Some? && m.s.firingStart <= |m.s.list.value|
    ensures StartPass(o, m, data, replay).s.fired
    decreases StackSize(m.s), 1
  {
    var begun := Begun(o, m, data, replay);
    if begun.s.firingIndex >= begun.s.firingLength {
      EndFires(o, begun);
    }
  }

  lemma {:induction false} EndFires(o: Options, m: Machine)
    requires m.s.firingStart == 0
    ensures m.s.fired ==> EndPass(o, m).s.fired
    decreases StackSize(m.s), 0
  {
    var over := m.(s := m.s.(firing := false), finished := m.finished + [m.current], current := NO_PASS);
    if m.s.list.Some? && m.s.stack.Some? && m.s.stack.value != [] {
      StartFires(o, over.(s := over.s.(stack := Some(m.s.stack.value[1..]))), m.s.stack.value[0], false);
    }
  }

  lemma OpenStays(m: Machine, op: Op)
    requires OpenProgress(m) && (op.DoAdd? || op.DoFire? || (op.DoReturn? && m.s.firing))
    ensures OpenProgress(Step(MEMORY, m, op))
  {
    StepKeepsCoherence(MEMORY, m, op);
    match op
    case DoAdd(fns) =>
      if m.s.list.Some? && !m.s.firing && m.s.memory.Some? {
        StartFires(MEMORY, Pushed(MEMORY, m, fns), m.s.memory.value, true);
      }
    case DoFire(data) =>
      if m.s.list.Some? && !m.s.firing && (!m.s.fired || m.s.stack.Some?) {
        StartFires(MEMORY, m.(requested := m.requested + [data]), data, false);
      }
    case DoReturn(wasFalse) =>
      EndFires(MEMORY, m.(s := m.s.(firingIndex := m.s.firingIndex + 1)));
  }

  /** After settlement a notification changes nothing, and nothing begins a new one. */
  lemma ClosedStays(m: Machine, op: Op)
    requires ClosedProgress(m) && (op.DoAdd? || op.DoFire? || (op.DoReturn? && m.s.firing))
    ensures ClosedProgress(Step(MEMORY, m, op)) && Step(MEMORY, m, op).served == m.served
    ensures op.DoFire? ==> Step(MEMORY, m, op) == m
  {
    StepKeepsCoherence(MEMORY, m, op);
    match op
    case DoAdd(fns) => ClosedAdd(m, fns);
    case DoFire(data) =>
    case DoReturn(wasFalse) =>
      EndWithoutStack(MEMORY, m.(s := m.s.(firingIndex := m.s.firingIndex + 1)));
  }

  lemma ClosedAdd(m: Machine, fns: seq<Fn>)
    requires ClosedProgress(m)
    ensures var a := Add(MEMORY, m, fns); a.s.stack.None? && (a.s.list.None? || a.s.fired) && a.served == m.served
  {
    if m.s.list.Some? && !m.s.firing && m.s.memory.Some? {
      StartWithoutStack(MEMORY, Pushed(MEMORY, m, fns), m.s.memory.value, true);
      EndWithoutStack(MEMORY, Begun(MEMORY, Pushed(MEMORY, m, fns), m.s.memory.value, true));
    }
  }

  // ---------- the invariant of a deferred ----------

  function StatusOf(w: Which): Status
  {
    if w.Done? then Resolved else Rejected
  }

  function Other(w: Which): Which
  {
    if w.Done? then Fail else Done
  }

  function RollOf(rd: seq<Fn>, rf: seq<Fn>, w: Which): seq<Fn>
  {
    if w.Done? then rd else rf
  }

  /** The value the deferred was settled with. */
  function Value(d: Deferred): Data
  {
    var served := if d.state.Resolved? then d.done.served else d.fail.served;
    if served == [] then 0 else served[0]
  }

  predicate SettledBy(d: Deferred, w: Which, v: Data, roll: seq<Fn>)
  {
    d.state == StatusOf(w) && Live(Get(d, w), v, roll) && Dead(Get(d, Other(w))) && ClosedProgress(d.progress)
  }

  predicate Good(d: Deferred, rd: seq<Fn>, rf: seq<Fn>)
  {
    match d.state
    case Pending => Unfired(d.done, rd) && Unfired(d.fail, rf) && OpenProgress(d.progress)
    case Resolved => SettledBy(d, Done, Value(d), rd)
    case Rejected => SettledBy(d, Fail, Value(d), rf)
  }

  /** The frames are exactly the firing lists. */
  predicate Framed(d: Deferred)
  {
    (forall i, j | 0 <= i < j < |d.frames| :: d.frames[i] != d.frames[j]) &&
    forall w :: w in d.frames <==> Get(d, w).s.firing
  }

  /** Control is with user code: the settling lists are past their own functions. */
  predicate AtUser(d: Deferred)
  {
    (d.done.s.firing ==> |Calls(d.done)| > 3) && (d.fail.s.firing ==> |Calls(d.fail)| > 3)
  }

  predicate Inv(d: Deferred, rd: seq<Fn>, rf: seq<Fn>)
  {
    Good(d, rd, rf) && Framed(d) && AtUser(d)
  }

  // ---------- settling ----------

  /**
   The parts of a deferred while list `m` runs through its own three functions: after k calls
   the first k - 1 of them have taken effect.
   */
  predicate SettlingParts(state: Status, m: Machine, other: Machine, progress: Machine,
                          status: Status, v: Data, roll: seq<Fn>, otherRoll: seq<Fn>)
  {
    var k := |Calls(m)|;
    Live(m, v, roll) && k >= 1 &&
    (if k == 1 then state == Pending else state == status) &&
    (if k <= 2 then Unfired(other, otherRoll) else Dead(other)) &&
    (if k <= 3 && m.s.firing then OpenProgress(progress) else ClosedProgress(progress))
  }

  predicate Settling(d: Deferred, w: Which, v: Data, roll: seq<Fn>, otherRoll: seq<Fn>)
  {
    w != Progress &&
    SettlingParts(d.state, Get(d, w), Get(d, Other(w)), d.progress, StatusOf(w), v, roll, otherRoll)
  }

  predicate FramedBelow(d: Deferred, w: Which)
  {
    d.frames != [] && d.frames[|d.frames| - 1] == w &&
    (forall i, j | 0 <= i < j < |d.frames| :: d.frames[i] != d.frames[j]) &&
    forall x | x != w :: x in d.frames <==> Get(d, x).s.firing
  }

  /** One of the list's own functions acts, and the loop goes on to the next entry. */
  function Acted(d: Deferred, w: Which, fn: Fn): Deferred
    requires Coherent(Get(d, w).s) && Get(d, w).s.firing
  {
    Set(Effect(d, w, fn), w, Callbacks.Return(ONCE_MEMORY, Get(d, w), false))
  }

  lemma ProceedActs(d: Deferred, w: Which, v: Data, roll: seq<Fn>)
    requires Sane(d) && w != Progress && d.frames != [] && d.frames[|d.frames| - 1] == w
    requires Calling(Get(d, w), v, roll) && |Calls(Get(d, w))| <= 3
    ensures var next := Acted(d, w, roll[|Calls(Get(d, w))| - 1]);
            Sane(next) && Proceed(d) == Proceed(next) && next.frames == d.frames &&
            Left(Get(next, w)) < Left(Get(d, w))
  {
    ExecutingIsNextOnRoll(Get(d, w), v, roll);
    EffectStaysSane(d, w, roll[|Calls(Get(d, w))| - 1]);
    ReturnWithoutStack(ONCE_MEMORY, Get(d, w));
  }

  lemma SettlingAdvances(d: Deferred, w: Which, v: Data, roll: seq<Fn>, otherRoll: seq<Fn>, next: Deferred)
    requires Settling(d, w, v, roll, otherRoll) && Get(d, w).s.firing && |Calls(Get(d, w))| <= 3
    requires IsRoll(roll) && |Calls(Get(d, w))| <= |roll| && next == Acted(d, w, roll[|Calls(Get(d, w))| - 1])
    ensures Settling(next, w, v, roll, otherRoll)
    ensures FramedBelow(d, w) ==> FramedBelow(next, w)
  {
    PartsAdvance(d.state, Get(d, w), Get(d, Other(w)), d.progress, StatusOf(w), v, roll, otherRoll);
    SameFiring(d, next, w);
  }

  lemma SameFiring(d: Deferred, next: Deferred, w: Which)
    requires w != Progress && next.frames == d.frames
    requires Get(next, Other(w)).s.firing == Get(d, Other(w)).s.firing && next.progress.s.firing == d.progress.s.firing
    ensures FramedBelow(d, w) ==> FramedBelow(next, w)
  {
    forall x | x != w
      ensures Get(next, x).s.firing == Get(d, x).s.firing
    {
      assert x == Other(w) || x == Progress;
    }
  }

  lemma PartsAdvance(state: Status, m: Machine, other: Machine, progress: Machine,
                     status: Status, v: Data, roll: seq<Fn>, otherRoll: seq<Fn>)
    requires SettlingParts(state, m, other, progress, status, v, roll, otherRoll)
    requires m.s.firing && |Calls(m)| <= 3
    ensures var fn := roll[|Calls(m)| - 1];
            var other' := if fn == DISABLE_OTHER then Disable(other) else other;
            var progress' := if fn == LOCK_PROGRESS then Lock(progress) else progress;
            SettlingParts(if fn == SET_STATE then status else state, Callbacks.Return(ONCE_MEMORY, m, false),
                          other', progress', status, v, roll, otherRoll) &&
            other'.s.firing == other.s.firing && progress'.s.firing == progress.s.firing
  {
    ReturnCounts(m, v, roll);
  }

  /** A return brings the list one call further on its roll, or to rest at the end of it. */
  lemma ReturnCounts(m: Machine, v: Data, roll: seq<Fn>)
    requires Calling(m, v, roll)
    ensures IsRoll(roll) && var after := Callbacks.Return(ONCE_MEMORY, m, false);
            Live(after, v, roll) && |Calls(m)| <= |roll| &&
            (after.s.firing <==> |Calls(m)| < |roll|) &&
            |Calls(after)| == if |Calls(m)| < |roll| then |Calls(m)| + 1 else |roll|
  {
    ExecutingIsNextOnRoll(m, v, roll);
    ReturnLives(m, v, roll);
    if m.s.firingIndex + 1 == |m.s.list.value| {
      EndWithoutStack(ONCE_MEMORY, m.(s := m.s.(firingIndex := m.s.firingIndex + 1)));
    }
  }

  /** Settling runs the list's own functions to the end before any user code gets control. */
  lemma {:induction false} ProceedSettles(d: Deferred, w: Which, v: Data, roll: seq<Fn>, otherRoll: seq<Fn>)
    requires Sane(d) && Settling(d, w, v, roll, otherRoll) && FramedBelow(d, w)
    ensures var r := Proceed(d); SettledBy(r, w, v, roll) && Framed(r) && AtUser(r)
    decreases Left(Get(d, w))
  {
    var m := Get(d, w);
    if m.s.firing && |Calls(m)| <= 3 {
      var next := Acted(d, w, roll[|Calls(m)| - 1]);
      ProceedActs(d, w, v, roll);
      ReturnCounts(m, v, roll);
      SettlingAdvances(d, w, v, roll, otherRoll, next);
      ProceedSettles(next, w, v, roll, otherRoll);
    } else {
      if m.s.firing {
        ProceedStops(d, w, v, roll);
      } else {
        PopFrames(d, w);
      }
    }
  }

  lemma PopFrames(d: Deferred, w: Which)
    requires Sane(d) && FramedBelow(d, w) && !Get(d, w).s.firing
    ensures Proceed(d) == d.(frames := d.frames[..|d.frames| - 1]) && Framed(Proceed(d))
  {
    var r := d.(frames := d.frames[..|d.frames| - 1]);
    assert d.frames == r.frames + [w];
    assert forall i | 0 <= i < |r.frames| :: r.frames[i] == d.frames[i] != d.frames[|d.frames| - 1];
    assert w !in r.frames;
    forall x
      ensures x in r.frames <==> Get(r, x).s.firing
    {
      assert Get(r, x) == Get(d, x);
      assert x in d.frames <==> x in r.frames || x == w;
    }
  }

  // ---------- every step of user code keeps the invariant ----------

  function RollAfter(roll: seq<Fn>, w: Which, op: UserOp): seq<Fn>
  {
    if op.Register? && op.w == w then roll + AsUser(op.fns) else roll
  }

  /** The innermost loop stops where it is, because a user's function is being called. */
  lemma ProceedStops(d: Deferred, w: Which, v: Data, roll: seq<Fn>)
    requires Sane(d) && d.frames != [] && d.frames[|d.frames| - 1] == w && Get(d, w).s.firing
    requires w != Progress ==> Calling(Get(d, w), v, roll) && |Calls(Get(d, w))| > 3
    ensures Proceed(d) == d
  {
    if w != Progress {
      ExecutingIsNextOnRoll(Get(d, w), v, roll);
    }
  }

  /** The step keeps the invariant, and what is settled stays settled. */
  predicate Kept(d: Deferred, op: UserOp, rd: seq<Fn>, rf: seq<Fn>)
  {
    Sane(d) && var r := UserStep(d, op);
    Inv(r, RollAfter(rd, Done, op), RollAfter(rf, Fail, op)) &&
    (d.state != Pending ==>
       r.state == d.state && Value(r) == Value(d) && r.progress.served == d.progress.served)
  }

  /** A list that has just begun to fire gets the innermost frame. */
  lemma NewFrame(d: Deferred, after: Deferred, w: Which)
    requires Framed(d) && !Get(d, w).s.firing && after.frames == d.frames + [w]
    requires forall x | x != w :: Get(after, x).s.firing == Get(d, x).s.firing
    ensures FramedBelow(after, w) && (Get(after, w).s.firing ==> Framed(after))
  {
    forall x
      ensures x in after.frames <==> x == w || x in d.frames
    {
      assert after.frames[|d.frames|] == w;
    }
  }

  /** The frames after an operation on the progress list that may have started it. */
  lemma ProgressEnters(d: Deferred, m: Machine)
    requires Sane(d) && Framed(d) && Coherent(m.s) && (d.progress.s.firing ==> m.s.firing)
    ensures var r := Enter(Set(d, Progress, m), Progress, d.progress);
            r == d.(progress := m, frames := r.frames) && Framed(r)
  {
    var after := d.(progress := m);
    if !d.progress.s.firing && m.s.firing {
      var entered := after.(frames := d.frames + [Progress]);
      NewFrame(d, entered, Progress);
      ProceedStops(entered, Progress, 0, []);
    } else {
      assert forall x :: Get(after, x).s.firing == Get(d, x).s.firing;
    }
  }

  lemma ProgressStepKeeps(d: Deferred, op: UserOp, rd: seq<Fn>, rf: seq<Fn>)
    requires Inv(d, rd, rf) && ((op.Register? && op.w.Progress?) || (op.Settle? && op.w.Progress?))
    ensures Sane(d) && Inv(UserStep(d, op), rd, rf) && UserStep(d, op).state == d.state
    ensures d.state != Pending ==> UserStep(d, op).progress.served == d.progress.served
    ensures d.state != Pending && op.Settle? ==> UserStep(d, op) == d
  {
    var o := if op.Register? then DoAdd(AsUser(op.fns)) else DoFire(op.data);
    if d.state == Pending {
      OpenStays(d.progress, o);
    } else {
      ClosedStays(d.progress, o);
    }
    var m := Step(MEMORY, d.progress, o);
    ProgressEnters(d, m);
  }

  lemma ProgressReturnKeeps(d: Deferred, rd: seq<Fn>, rf: seq<Fn>)
    requires Inv(d, rd, rf) && d.frames != [] && d.frames[|d.frames| - 1] == Progress
    ensures Sane(d) && Inv(UserStep(d, Return), rd, rf) && UserStep(d, Return).state == d.state
    ensures d.state != Pending ==> UserStep(d, Return).progress.served == d.progress.served
  {
    assert Progress in d.frames;
    if d.state == Pending {
      OpenStays(d.progress, DoReturn(false));
    } else {
      ClosedStays(d.progress, DoReturn(false));
    }
    var m := Callbacks.Return(MEMORY, d.progress, false);
    ProgressLeaves(d, m);
  }

  /** The frames after the innermost callback, one of the progress list, has returned. */
  lemma ProgressLeaves(d: Deferred, m: Machine)
    requires Sane(d) && Framed(d) && Coherent(m.s) && d.frames != [] && d.frames[|d.frames| - 1] == Progress
    ensures var r := Proceed(d.(progress := m)); r == d.(progress := m, frames := r.frames) && Framed(r)
  {
    var after := d.(progress := m);
    assert forall x | x != Progress :: Get(after, x).s.firing == Get(d, x).s.firing;
    if m.s.firing {
      ProceedStops(after, Progress, 0, []);
    } else {
      PopFrames(after, Progress);
    }
  }

  // ---------- steps on the settling lists ----------

  /** Registering on a list that cannot fire any more, or settling a settled deferred, does nothing. */
  lemma NothingHappens(d: Deferred, w: Which, op: UserOp, rd: seq<Fn>, rf: seq<Fn>)
    requires Inv(d, rd, rf) && w != Progress && d.state != Pending
    requires (op.Register? && op.w == w && d.state != StatusOf(w)) || (op.Settle? && op.w == w)
    ensures Sane(d) && UserStep(d, op) == d
  {
  }

  lemma RegisterPending(d: Deferred, w: Which, fns: seq<Fn>, rd: seq<Fn>, rf: seq<Fn>)
    requires Inv(d, rd, rf) && w != Progress && d.state == Pending
    ensures Sane(d) && var op := Register(w, fns);
            Inv(UserStep(d, op), RollAfter(rd, Done, op), RollAfter(rf, Fail, op)) && UserStep(d, op).state == Pending
  {
    UnfiredAdd(Get(d, w), RollOf(rd, rf, w), AsUser(fns));
    var m := Add(ONCE_MEMORY, Get(d, w), AsUser(fns));
    var after := Set(d, w, m);
    assert UserStep(d, Register(w, fns)) == after;
    assert forall x :: Get(after, x).s.firing == Get(d, x).s.firing;
  }

  lemma SettlePending(d: Deferred, w: Which, v: Data, rd: seq<Fn>, rf: seq<Fn>)
    requires Inv(d, rd, rf) && w != Progress && d.state == Pending
    ensures Sane(d) && var r := UserStep(d, Settle(w, v));
            Inv(r, rd, rf) && r.state == StatusOf(w) && Value(r) == v
  {
    UnfiredFire(Get(d, w), RollOf(rd, rf, w), v);
    var m := FireWith(ONCE_MEMORY, Get(d, w), v);
    var entered := Set(d, w, m).(frames := d.frames + [w]);
    NewFrame(d, entered, w);
    assert UserStep(d, Settle(w, v)) == Proceed(entered);
    assert Settling(entered, w, v, RollOf(rd, rf, w), RollOf(rd, rf, Other(w)));
    ProceedSettles(entered, w, v, RollOf(rd, rf, w), RollOf(rd, rf, Other(w)));
  }

  /** A handler added while its list is calling joins the pass. */
  lemma RegisterWhileCalling(d: Deferred, w: Which, fns: seq<Fn>, v: Data, roll: seq<Fn>)
    requires Sane(d) && Framed(d) && AtUser(d) && SettledBy(d, w, v, roll) && w != Progress && Get(d, w).s.firing
    ensures var r := UserStep(d, Register(w, fns));
            SettledBy(r, w, v, roll + AsUser(fns)) && Framed(r) && AtUser(r) && r.progress == d.progress
  {
    CallingAdd(Get(d, w), v, roll, AsUser(fns));
    var after := Set(d, w, Add(ONCE_MEMORY, Get(d, w), AsUser(fns)));
    assert forall x :: Get(after, x).s.firing == Get(d, x).s.firing;
  }

  /** A handler added when its list is at rest is called at once. */
  lemma RegisterWhenServed(d: Deferred, w: Which, fns: seq<Fn>, v: Data, roll: seq<Fn>)
    requires Sane(d) && Framed(d) && AtUser(d) && SettledBy(d, w, v, roll) && w != Progress && !Get(d, w).s.firing
    ensures var r := UserStep(d, Register(w, fns));
            SettledBy(r, w, v, roll + AsUser(fns)) && Framed(r) && AtUser(r) && r.progress == d.progress
  {
    ServedAdd(Get(d, w), v, roll, AsUser(fns));
    var m := Add(ONCE_MEMORY, Get(d, w), AsUser(fns));
    var after := Set(d, w, m);
    if m.s.firing {
      var entered := after.(frames := d.frames + [w]);
      NewFrame(d, entered, w);
      ProceedStops(entered, w, v, roll + AsUser(fns));
    } else {
      assert forall x :: Get(after, x).s.firing == Get(d, x).s.firing;
    }
  }

  lemma RegisterSettled(d: Deferred, w: Which, fns: seq<Fn>, rd: seq<Fn>, rf: seq<Fn>)
    requires Inv(d, rd, rf) && w != Progress && d.state == StatusOf(w)
    ensures Kept(d, Register(w, fns), rd, rf)
  {
    if Get(d, w).s.firing {
      RegisterWhileCalling(d, w, fns, Value(d), RollOf(rd, rf, w));
    } else {
      RegisterWhenServed(d, w, fns, Value(d), RollOf(rd, rf, w));
    }
  }

  /** The callback of the innermost list returns: the list calls the next one or comes to rest. */
  lemma ReturnToList(d: Deferred, w: Which, v: Data, roll: seq<Fn>)
    requires Sane(d) && Framed(d) && AtUser(d) && SettledBy(d, w, v, roll) && w != Progress
    requires d.frames != [] && d.frames[|d.frames| - 1] == w
    ensures var r := UserStep(d, Return); SettledBy(r, w, v, roll) && Framed(r) && AtUser(r) && r.progress == d.progress
  {
    assert w in d.frames;
    ReturnCounts(Get(d, w), v, roll);
    var m := Callbacks.Return(ONCE_MEMORY, Get(d, w), false);
    var after := Set(d, w, m);
    assert UserStep(d, Return) == Proceed(after);
    assert forall x | x != w :: Get(after, x) == Get(d, x);
    ReturnedLives(d, after, w, v, roll);
    if m.s.firing {
      ProceedStops(after, w, v, roll);
    } else {
      PopFrames(after, w);
    }
  }

  lemma ReturnedLives(d: Deferred, after: Deferred, w: Which, v: Data, roll: seq<Fn>)
    requires w != Progress && Framed(d) && AtUser(d) && SettledBy(d, w, v, roll) && Get(d, w).s.firing
    requires d.frames != [] && d.frames[|d.frames| - 1] == w
    requires after == Set(d, w, Get(after, w)) && Live(Get(after, w), v, roll)
    requires Get(after, w).s.firing ==> |Calls(Get(after, w))| > 3
    ensures Sane(after) && SettledBy(after, w, v, roll) && AtUser(after) && FramedBelow(after, w)
    ensures Get(after, w).s.firing ==> Framed(after)
  {
    assert forall x | x != w :: Get(after, x) == Get(d, x);
  }

  lemma SettlingReturnKeeps(d: Deferred, w: Which, rd: seq<Fn>, rf: seq<Fn>)
    requires Inv(d, rd, rf) && w != Progress && d.frames != [] && d.frames[|d.frames| - 1] == w
    ensures Kept(d, Return, rd, rf)
  {
    assert w in d.frames;
    ReturnToList(d, w, Value(d), RollOf(rd, rf, w));
  }

  // ---------- whole runs ----------

  lemma RegisterKeeps(d: Deferred, w: Which, fns: seq<Fn>, rd: seq<Fn>, rf: seq<Fn>)
    requires Inv(d, rd, rf) && w != Progress
    ensures Kept(d, Register(w, fns), rd, rf)
  {
    if d.state == Pending {
      RegisterPending(d, w, fns, rd, rf);
    } else if d.state == StatusOf(w) {
      RegisterSettled(d, w, fns, rd, rf);
    } else {
      NothingHappens(d, w, Register(w, fns), rd, rf);
    }
  }

  lemma SettleKeeps(d: Deferred, w: Which, v: Data, rd: seq<Fn>, rf: seq<Fn>)
    requires Inv(d, rd, rf) && w != Progress
    ensures Kept(d, Settle(w, v), rd, rf)
  {
    if d.state == Pending {
      SettlePending(d, w, v, rd, rf);
    } else {
      NothingHappens(d, w, Settle(w, v), rd, rf);
    }
  }

  lemma ReturnWithoutFrames(d: Deferred, rd: seq<Fn>, rf: seq<Fn>)
    requires Inv(d, rd, rf) && d.frames == []
    ensures Kept(d, Return, rd, rf)
  {
    assert UserStep(d, Return) == d;
  }

  lemma ReturnKeeps(d: Deferred, rd: seq<Fn>, rf: seq<Fn>)
    requires Inv(d, rd, rf)
    ensures Kept(d, Return, rd, rf)
  {
    if d.frames == [] {
      ReturnWithoutFrames(d, rd, rf);
    } else if d.frames[|d.frames| - 1] == Progress {
      ProgressReturnKeeps(d, rd, rf);
    } else {
      SettlingReturnKeeps(d, d.frames[|d.frames| - 1], rd, rf);
    }
  }

  lemma StepKeeps(d: Deferred, op: UserOp, rd: seq<Fn>, rf: seq<Fn>)
    requires Inv(d, rd, rf)
    ensures Kept(d, op, rd, rf)
  {
    if op.Return? {
      ReturnKeeps(d, rd, rf);
    } else if op.w == Progress {
      ProgressStepKeeps(d, op, rd, rf);
    } else if op.Register? {
      RegisterKeeps(d, op.w, op.fns, rd, rf);
    } else {
      SettleKeeps(d, op.w, op.data, rd, rf);
    }
  }

  function RunRoll(roll: seq<Fn>, w: Which, ops: seq<UserOp>): seq<Fn>
    decreases |ops|
  {
    if ops == [] then roll else RunRoll(RollAfter(roll, w, ops[0]), w, ops[1..])
  }

  lemma {:induction false} RunKeeps(d: Deferred, ops: seq<UserOp>, rd: seq<Fn>, rf: seq<Fn>)
    requires Inv(d, rd, rf)
    ensures Sane(d) && Inv(UserRun(d, ops), RunRoll(rd, Done, ops), RunRoll(rf, Fail, ops))
    ensures d.state != Pending ==>
      UserRun(d, ops).state == d.state && Value(UserRun(d, ops)) == Value(d) &&
      UserRun(d, ops).progress.served == d.progress.served
    decreases |ops|
  {
    if ops != [] {
      StepKeeps(d, ops[0], rd, rf);
      UserStepStaysSane(d, ops[0]);
      RunKeeps(UserStep(d, ops[0]), ops[1..], RollAfter(rd, Done, ops[0]), RollAfter(rf, Fail, ops[0]));
    }
  }

  const OWN: seq<Fn> := [SET_STATE, DISABLE_OTHER, LOCK_PROGRESS]

  lemma NewIsGood()
    ensures Inv(New(), OWN, OWN)
  {
    PushListed(ONCE_MEMORY, [], OWN, 0, []);
    assert [] + OWN == OWN;
  }

  /** The functions registered on list `w` in a run, in order. */
  function Registered(w: Which, ops: seq<UserOp>): seq<Fn>
  {
    if ops == [] then []
    else (if ops[0].Register? && ops[0].w == w then ops[0].fns else []) + Registered(w, ops[1..])
  }

  lemma AsUserConcat(a: seq<Fn>, b: seq<Fn>)
    ensures AsUser(a + b) == AsUser(a) + AsUser(b)
  {
  }

  lemma {:induction false} RollOfRun(roll: seq<Fn>, w: Which, ops: seq<UserOp>)
    ensures RunRoll(roll, w, ops) == roll + AsUser(Registered(w, ops))
    decreases |ops|
  {
    if ops != [] {
      RollOfRun(RollAfter(roll, w, ops[0]), w, ops[1..]);
      var here := if ops[0].Register? && ops[0].w == w then ops[0].fns else [];
      AsUserConcat(here, Registered(w, ops[1..]));
      assert RollAfter(roll, w, ops[0]) == roll + AsUser(here);
    }
  }

  /** Every call of list `m` so far was made with the value `v`. */
  predicate CalledWith(m: Machine, v: Data)
  {
    (forall i | 0 <= i < |m.finished| :: m.finished[i].data == v) && (m.s.firing ==> m.current.data == v)
  }

  /**
   What list `m`, with `fns` registered on it by users, owes them once the deferred has been
   settled by it with `v`: one call each, in the order of registration, all with `v`.
   */
  predicate KeepsItsPromise(m: Machine, v: Data, fns: seq<Fn>)
  {
    m.served == [v] && CalledWith(m, v) &&
    if m.s.firing then
      m.s.list.Some? && 0 <= m.s.firingIndex < |m.s.list.value| &&
      Lists(Calls(m) + m.s.list.value[m.s.firingIndex + 1..], OWN + AsUser(fns))
    else Lists(Calls(m), OWN + AsUser(fns))
  }

  /**
   Main result, for every run: while pending neither list has called anything; once settled, the
   list of that outcome has called, or is on its way to call, every handler registered on it
   before, during or after settlement exactly once, in order, with the settled value, and the
   opposite list has called nothing.
   */
  lemma HandlersAreCalledOnce(ops: seq<UserOp>)
    ensures var d := UserRun(New(), ops);
      match d.state
      case Pending => Calls(d.done) == [] && Calls(d.fail) == []
      case Resolved => KeepsItsPromise(d.done, Value(d), Registered(Done, ops)) && Calls(d.fail) == []
      case Rejected => KeepsItsPromise(d.fail, Value(d), Registered(Fail, ops)) && Calls(d.done) == []
  {
    NewIsGood();
    RunKeeps(New(), ops, OWN, OWN);
    RollOfRun(OWN, Done, ops);
    RollOfRun(OWN, Fail, ops);
  }

  /**
   Main result: however a run goes on after settlement, state and value stay, and no further
   notification is served, not even one that was waiting.
   */
  lemma SettlementIsFinal(ops: seq<UserOp>, more: seq<UserOp>)
    requires UserRun(New(), ops).state != Pending
    ensures var d, later := UserRun(New(), ops), UserRun(UserRun(New(), ops), more);
            later.state == d.state && Value(later) == Value(d) && later.progress.served == d.progress.served
  {
    NewIsGood();
    RunKeeps(New(), ops, OWN, OWN);
    RunKeeps(UserRun(New(), ops), more, RunRoll(OWN, Done, ops), RunRoll(OWN, Fail, ops));
  }
}
