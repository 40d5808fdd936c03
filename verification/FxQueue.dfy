/**
 The animation queue of an element: `queue` and `dequeue` with the "inprogress" sentinel.

 Functions are only pushed, and each is handed a `next` that dequeues.  A run is any
 interleaving of pushes, calls of `next` and returns from the functions called; that the
 functions run one at a time, first come first served, is proved for every run in which no
 function calls its `next` twice.
 */
module FxQueue {
  import opened Wrappers

  /** An entry of the array: the sentinel, or the function of the `id`-th push. */
  datatype Item = InProgress | Fn(id: nat)

  /** What had happened when the hooks' `empty` fired. */
  datatype Emptied = Emptied(hooks: nat, pushed: nat, started: nat, finished: set<nat>)

  /**
   The array and the hooks stored on the element, the `startLength` of every call of `dequeue`
   whose function has not returned yet, and the history.
   */
  datatype State = State(
    queue: Option<seq<Item>>,
    hooks: Option<nat>,
    frames: seq<int>,
    nextHooks: nat,
    pushed: nat,
    started: seq<nat>,
    finished: set<nat>,
    empties: seq<Emptied>)

  const FRESH := State(None, None, [], 0, 0, [], {}, [])

  datatype Op = Push | Next(f: nat) | Return

  // ---------- the machine ----------

  function Items(s: State): seq<Item>
  {
    if s.queue.Some? then s.queue.value else []
  }

  /** Behind its first place the array holds functions only. */
  predicate Shaped(q: seq<Item>)
  {
    forall k | 0 < k < |q| :: q[k].Fn?
  }

  /** The functions waiting in the array. */
  function Waiting(q: seq<Item>): seq<Item>
  {
    if q != [] && q[0].InProgress? then q[1..] else q
  }

  /** `_queueHooks` */
  function Hooked(s: State): State
  {
    if s.hooks.Some? then s else s.(hooks := Some(s.nextHooks), nextHooks := s.nextHooks + 1)
  }

  /** `hooks.empty.fire()`, whose first callback removes the array and the hooks. */
  function FireEmpty(s: State): State
    requires s.hooks.Some?
  {
    s.(queue := None, hooks := None,
       empties := s.empties + [Emptied(s.hooks.value, s.pushed, |s.started|, s.finished)])
  }

  /** `dequeue` up to the call of the function, or to its end if there is none. */
  function Dequeued(s: State): (r: State)
    requires Shaped(Items(s))
    ensures Shaped(Items(r))
  {
    var h := Hooked(s);
    var waiting := Waiting(Items(s));
    if waiting == [] then FireEmpty(h)
    else h.(queue := Some([InProgress] + waiting[1..]),
            started := s.started + [waiting[0].id],
            frames := s.frames + [|waiting|])
  }

  /** `elem.queue( fn )` */
  function Pushed(s: State): (r: State)
    requires Shaped(Items(s))
    ensures Shaped(Items(r))
  {
    var q := Items(s) + [Fn(s.pushed)];
    var h := Hooked(s.(queue := Some(q), pushed := s.pushed + 1));
    if q[0] != InProgress then Dequeued(h) else h
  }

  /** The end of `dequeue`, once the function it called is back. */
  function Returned(s: State): (r: State)
    requires s.frames != []
    ensures Shaped(Items(s)) ==> Shaped(Items(r))
  {
    var last := |s.frames| - 1;
    var popped := s.(frames := s.frames[..last]);
    if s.frames[last] == 0 then FireEmpty(Hooked(popped)) else popped
  }

  function Step(s: State, op: Op): (r: State)
    requires Shaped(Items(s)) && (op.Return? ==> s.frames != [])
    ensures Shaped(Items(r))
  {
    match op
    case Push => Pushed(s)
    case Next(f) => Dequeued(s.(finished := s.finished + {f}))
    case Return => Returned(s)
  }

  /** Only functions that have been started call `next`, and each once at most. */
  predicate Allowed(s: State, op: Op)
  {
    match op
    case Push => true
    case Next(f) => f in s.started && f !in s.finished
    case Return => s.frames != []
  }

  predicate Orderly(s: State, ops: seq<Op>)
    requires Shaped(Items(s))
    decreases |ops|
  {
    ops == [] || (Allowed(s, ops[0]) && Orderly(Step(s, ops[0]), ops[1..]))
  }

  function Run(s: State, ops: seq<Op>): (r: State)
    requires Shaped(Items(s)) && Orderly(s, ops)
    ensures Shaped(Items(r))
    decreases |ops|
  {
    if ops == [] then s else Run(Step(s, ops[0]), ops[1..])
  }

  // ---------- the invariant ----------

  function Count(from: nat, to: nat): seq<nat>
    requires from <= to
  {
    seq(to - from, i requires i >= 0 => from + i)
  }

  function Functions(from: nat, to: nat): seq<Item>
    requires from <= to
  {
    seq(to - from, i requires i >= 0 => Fn(from + i))
  }

  /** A function is at work: it was started and has not called `next`. */
  predicate Active(s: State, f: nat)
  {
    f in s.started && f !in s.finished
  }

  predicate NothingLeft(e: Emptied)
  {
    e.started == e.pushed && forall f | 0 <= f < e.pushed :: f in e.finished
  }

  /** The function started last, if it has not called `next`. */
  predicate Working(s: State)
  {
    s.started != [] && |s.started| - 1 !in s.finished
  }

  ghost predicate InOrder(s: State)
  {
    |s.started| <= s.pushed && s.started == Count(0, |s.started|) &&
    (forall f: nat | f + 1 < |s.started| :: f in s.finished) &&
    (forall f | f in s.finished :: f < |s.started|)
  }

  predicate Holds(s: State)
  {
    if Working(s) then
      |s.started| <= s.pushed && s.queue == Some([InProgress] + Functions(|s.started|, s.pushed)) && s.hooks.Some?
    else s.queue == None && s.hooks == None && |s.started| == s.pushed
  }

  ghost predicate HooksDiffer(s: State)
  {
    (forall k | 0 <= k < |s.empties| :: s.empties[k].hooks < s.nextHooks) &&
    (forall j, k | 0 <= j < k < |s.empties| :: s.empties[j].hooks < s.empties[k].hooks) &&
    (s.hooks.Some? ==>
      s.hooks.value < s.nextHooks && forall k | 0 <= k < |s.empties| :: s.empties[k].hooks < s.hooks.value)
  }

  predicate EmptiedRightly(s: State)
  {
    (forall k | 0 <= k < |s.empties| :: NothingLeft(s.empties[k])) &&
    (s.started != [] && !Working(s) ==> s.empties != [] && s.empties[|s.empties| - 1].pushed == s.pushed)
  }

  ghost predicate Inv(s: State)
  {
    InOrder(s) && Holds(s) && HooksDiffer(s) && EmptiedRightly(s) && forall k | 0 <= k < |s.frames| :: s.frames[k] > 0
  }

  lemma FirstOf(n: nat, m: nat)
    requires n < m
    ensures Functions(n, m)[0] == Fn(n) && Functions(n, m)[1..] == Functions(n + 1, m)
  {
  }

  lemma PushKeeps(s: State)
    requires Shaped(Items(s)) && Inv(s)
    ensures Inv(Pushed(s))
  {
    var n := |s.started|;
    if Working(s) {
      assert Items(s) + [Fn(s.pushed)] == [InProgress] + Functions(n, s.pushed + 1);
    } else {
      assert Items(s) + [Fn(n)] == Functions(n, n + 1);
      FirstOf(n, n + 1);
    }
  }

  lemma NextKeeps(s: State, f: nat)
    requires Shaped(Items(s)) && Inv(s) && Active(s, f)
    ensures Inv(Step(s, Next(f)))
  {
    var n := |s.started|;
    assert f == n - 1;
    var waiting := Waiting(Items(s));
    assert waiting == Functions(n, s.pushed);
    if n < s.pushed {
      FirstOf(n, s.pushed);
    }
  }

  /** At most one function is active: the one started last. */
  lemma OnlyTheLast(s: State, f: nat)
    requires Inv(s)
    ensures Active(s, f) <==> Working(s) && f == |s.started| - 1
  {
    assert Working(s) ==> s.started[|s.started| - 1] == |s.started| - 1;
  }

  lemma StepKeeps(s: State, op: Op)
    requires Shaped(Items(s)) && Inv(s) && Allowed(s, op)
    ensures Inv(Step(s, op))
  {
    match op {
      case Push => PushKeeps(s);
      case Next(f) => NextKeeps(s, f);
      case Return =>
    }
  }

  lemma {:induction false} RunKeeps(s: State, ops: seq<Op>)
    requires Shaped(Items(s)) && Inv(s) && Orderly(s, ops)
    ensures Inv(Run(s, ops))
    decreases |ops|
  {
    if ops != [] {
      StepKeeps(s, ops[0]);
      RunKeeps(Step(s, ops[0]), ops[1..]);
    }
  }

  // ---------- the main results ----------

  /** At most one function is at work, and the sentinel is in the array, in front and once, exactly then. */
  lemma SentinelMarksTheActive(ops: seq<Op>, f: nat, g: nat)
    requires Orderly(FRESH, ops)
    ensures
      var s := Run(FRESH, ops);
      (forall k | 0 < k < |Items(s)| :: Items(s)[k].Fn?) &&
      (Active(s, f) ==> Items(s) != [] && Items(s)[0].InProgress?) &&
      (Items(s) != [] ==> Items(s)[0].InProgress? && exists a :: Active(s, a)) &&
      (Active(s, f) && Active(s, g) ==> f == g)
  {
    RunKeeps(FRESH, ops);
    var s := Run(FRESH, ops);
    OnlyTheLast(s, f);
    OnlyTheLast(s, g);
    if Items(s) != [] {
      OnlyTheLast(s, |s.started| - 1);
    }
  }

  /**
   Functions are started exactly once each and in the order they were pushed; what has not been
   started is what the array holds, and if none is at work nothing is left.
   */
  lemma StartedInOrderOnce(ops: seq<Op>)
    requires Orderly(FRESH, ops)
    ensures
      var s := Run(FRESH, ops);
      |s.started| <= s.pushed && s.started == Count(0, |s.started|) &&
      Waiting(Items(s)) == Functions(|s.started|, s.pushed) &&
      ((forall f :: !Active(s, f)) ==> |s.started| == s.pushed)
  {
    RunKeeps(FRESH, ops);
    var s := Run(FRESH, ops);
    var n := |s.started|;
    if Working(s) {
      OnlyTheLast(s, n - 1);
      assert ([InProgress] + Functions(n, s.pushed))[1..] == Functions(n, s.pushed);
    }
  }

  /**
   `empty` fires only when every function pushed has been started and has called `next`, at most
   once for the same hooks, and it has fired for the last one once that has called `next`.
   */
  lemma EmptyFiresAtTheEnd(ops: seq<Op>)
    requires Orderly(FRESH, ops)
    ensures
      var s := Run(FRESH, ops);
      (forall k | 0 <= k < |s.empties| :: NothingLeft(s.empties[k])) &&
      (forall j, k | 0 <= j < k < |s.empties| :: s.empties[j].hooks != s.empties[k].hooks) &&
      (s.pushed > 0 && (forall f :: !Active(s, f)) ==>
        s.empties != [] && s.empties[|s.empties| - 1].pushed == s.pushed)
  {
    RunKeeps(FRESH, ops);
    var s := Run(FRESH, ops);
    if Working(s) {
      OnlyTheLast(s, |s.started| - 1);
    }
  }

  /** The end of `dequeue` never does anything after a function was called. */
  lemma ReturnDoesNothing(ops: seq<Op>)
    requires Orderly(FRESH, ops) && Run(FRESH, ops).frames != []
    ensures
      var s := Run(FRESH, ops);
      Returned(s) == s.(frames := s.frames[..|s.frames| - 1])
  {
    RunKeeps(FRESH, ops);
  }

  /**
   Why `next` must not be called twice: a second call while another function is at work puts two
   to work exactly if one is waiting, and otherwise drops the array under the one at work.
   */
  lemma SecondNextOverlapsIff(ops: seq<Op>, f: nat)
    requires Orderly(FRESH, ops)
    requires f in Run(FRESH, ops).finished && Working(Run(FRESH, ops))
    ensures
      var s := Run(FRESH, ops);
      var t := Step(s, Next(f));
      ((exists a, b :: a != b && Active(t, a) && Active(t, b)) <==> |s.started| < s.pushed) &&
      (|s.started| == s.pushed ==> t.queue.None? && Active(t, |s.started| - 1))
  {
    RunKeeps(FRESH, ops);
    var s := Run(FRESH, ops);
    if |s.started| < s.pushed {
      SecondNextStarts(s, f);
    } else {
      SecondNextDrops(s, f);
    }
  }

  lemma SecondNextStarts(s: State, f: nat)
    requires Shaped(Items(s)) && Inv(s) && f in s.finished && Working(s) && |s.started| < s.pushed
    ensures Active(Step(s, Next(f)), |s.started| - 1) && Active(Step(s, Next(f)), |s.started|)
  {
    var n := |s.started|;
    var t := Step(s, Next(f));
    assert s.finished + {f} == s.finished;
    assert Waiting(Items(s)) == Functions(n, s.pushed);
    FirstOf(n, s.pushed);
    assert t.started == s.started + [n];
    assert t.started[n] == n && t.started[n - 1] == n - 1;
  }

  lemma SecondNextDrops(s: State, f: nat)
    requires Shaped(Items(s)) && Inv(s) && f in s.finished && Working(s) && |s.started| == s.pushed
    ensures Step(s, Next(f)).queue.None?
    ensures forall a: nat :: Active(Step(s, Next(f)), a) <==> a == |s.started| - 1
  {
    var t := Step(s, Next(f));
    assert s.finished + {f} == s.finished;
    assert Waiting(Items(s)) == [];
    assert t.started == s.started && t.finished == s.finished;
    forall a: nat ensures Active(t, a) <==> a == |s.started| - 1 {
      OnlyTheLast(s, a);
    }
  }

  /** Such a run: of three functions the first calls `next` twice, and the other two work at once. */
  lemma SecondNextPutsTwoToWork()
    ensures
      var ops := [Push, Push, Push, Next(0)];
      Orderly(FRESH, ops) &&
      var s := Run(FRESH, ops);
      0 in s.finished && Working(s) && Active(Step(s, Next(0)), 1) && Active(Step(s, Next(0)), 2)
  {
    var c := ThreePushed([Next(0)]);
    OnNext(c, 0);
    OneStep(c, Next(0), []);
    var s := Step(c, Next(0));
    assert s.started == [0, 1] && s.finished == {0};
    NextKeeps(c, 0);
    SecondNextStarts(s, 0);
    assert [Push, Push, Push] + [Next(0)] == [Push, Push, Push, Next(0)];
  }

  lemma ThreePushed(more: seq<Op>) returns (c: State)
    ensures Shaped(Items(c)) && Inv(c) && c.started == [0] && c.finished == {} && c.pushed == 3
    ensures Orderly(FRESH, [Push, Push, Push] + more) <==> Orderly(c, more)
    ensures Orderly(c, more) ==> Run(FRESH, [Push, Push, Push] + more) == Run(c, more)
  {
    var a := OnePushed(FRESH, [Push, Push] + more);
    assert [Push] + ([Push, Push] + more) == [Push, Push, Push] + more;
    var b := OnePushed(a, [Push] + more);
    assert [Push] + ([Push] + more) == [Push, Push] + more;
    c := OnePushed(b, more);
  }

  lemma OnePushed(s: State, more: seq<Op>) returns (r: State)
    requires Shaped(Items(s)) && Inv(s)
    ensures Shaped(Items(r)) && Inv(r) && r.pushed == s.pushed + 1 && r.finished == s.finished
    ensures r.started == if Working(s) then s.started else s.started + [s.pushed]
    ensures Orderly(s, [Push] + more) <==> Orderly(r, more)
    ensures Orderly(r, more) ==> Run(s, [Push] + more) == Run(r, more)
  {
    r := Step(s, Push);
    OnPush(s);
    OneStep(s, Push, more);
  }

  lemma OnPush(s: State)
    requires Shaped(Items(s)) && Inv(s)
    ensures var r := Step(s, Push);
            Inv(r) && r.pushed == s.pushed + 1 && r.finished == s.finished &&
            r.started == if Working(s) then s.started else s.started + [s.pushed]
  {
    PushKeeps(s);
    if !Working(s) {
      assert Items(s) + [Fn(s.pushed)] == [Fn(s.pushed)];
    }
  }

  lemma OnNext(s: State, f: nat)
    requires Shaped(Items(s)) && Inv(s) && Active(s, f) && |s.started| < s.pushed
    ensures var r := Step(s, Next(f));
            r.pushed == s.pushed && r.finished == s.finished + {f} && r.started == s.started + [|s.started|]
  {
    OnlyTheLast(s, f);
    assert Waiting(Items(s)) == Functions(|s.started|, s.pushed);
    FirstOf(|s.started|, s.pushed);
  }

  lemma OneStep(s: State, op: Op, ops: seq<Op>)
    requires Shaped(Items(s)) && Allowed(s, op)
    ensures Orderly(s, [op] + ops) <==> Orderly(Step(s, op), ops)
    ensures Orderly(s, [op] + ops) ==> Run(s, [op] + ops) == Run(Step(s, op), ops)
  {
    assert ([op] + ops)[1..] == ops;
  }

  // ---------- the object ----------

  /** The element's "fx" data; the calls of user functions are what the methods return. */
  class Element {
    var queue: Option<seq<Item>>
    var hooks: Option<nat>
    var frames: seq<int>
    var nextHooks: nat
    var pushed: nat
    ghost var started: seq<nat>
    ghost var finished: set<nat>
    ghost var empties: seq<Emptied>

    ghost function M(): State
      reads this
    {
      State(queue, hooks, frames, nextHooks, pushed, started, finished, empties)
    }

    constructor ()
      ensures M() == FRESH
    {
      queue, hooks, frames, nextHooks, pushed := None, None, [], 0, 0;
      started, finished, empties := [], {}, [];
    }

    method QueueHooks()
      modifies this
      ensures M() == Hooked(old(M()))
    {
      if hooks.None? {
        hooks := Some(nextHooks);
        nextHooks := nextHooks + 1;
      }
    }

    method Empty()
      requires hooks.Some?
      modifies this
      ensures M() == FireEmpty(old(M()))
    {
      empties := empties + [Emptied(hooks.value, pushed, |started|, finished)];
      queue, hooks := None, None;
    }

    /** `fn.call( elem, next, hooks )` is left to the caller, who reports its end by `Return`. */
    method Dequeue() returns (called: Option<nat>)
      requires Shaped(Items(M()))
      modifies this
      ensures M() == Dequeued(old(M()))
      ensures called == if started == old(started) then None else Some(started[|started| - 1])
    {
      var q := if queue.Some? then queue.value else [];
      var startLength := |q|;
      var fn := None;
      if q != [] {
        fn, q := Some(q[0]), q[1..];
      }
      QueueHooks();
      if fn == Some(InProgress) {
        fn := None;
        if q != [] {
          fn, q := Some(q[0]), q[1..];
        }
        startLength := startLength - 1;
      }
      called := None;
      if fn.Some? {
        q := [InProgress] + q;
        queue := Some(q);
        called := Some(fn.value.id);
        started := started + [fn.value.id];
        frames := frames + [startLength];
      } else if startLength == 0 {
        Empty();
      }
    }

    /** `next` of function `f`. */
    method Next(f: nat) returns (called: Option<nat>)
      requires Shaped(Items(M()))
      modifies this
      ensures M() == Step(old(M()), Op.Next(f))
      ensures called == if started == old(started) then None else Some(started[|started| - 1])
    {
      finished := finished + {f};
      called := Dequeue();
    }

    method Push() returns (called: Option<nat>)
      requires Shaped(Items(M()))
      modifies this
      ensures M() == Pushed(old(M()))
      ensures called == if started == old(started) then None else Some(started[|started| - 1])
    {
      var q := (if queue.Some? then queue.value else []) + [Fn(pushed)];
      queue := Some(q);
      pushed := pushed + 1;
      QueueHooks();
      called := None;
      if q[0] != InProgress {
        called := Dequeue();
      }
    }

    /** What is left of `dequeue` after the function it called. */
    method Return()
      requires frames != []
      modifies this
      ensures M() == Returned(old(M()))
    {
      var startLength := frames[|frames| - 1];
      frames := frames[..|frames| - 1];
      if startLength == 0 {
        QueueHooks();
        Empty();
      }
    }
  }
}
