/**
 What a deferred makes of the calls of its users, said in terms of those calls alone: the first
 `resolve` or `reject` decides state and value, and until then the progress list is an ordinary
 run of callbacks, so that every notification reaches the handlers with its own arguments.
 */
module DeferredOutcome {
  import opened Wrappers
  import opened Callbacks
  import opened CallbacksRuns
  import opened CallbacksServed
  import opened Deferreds
  import DeferredRuns

  predicate Settles(op: UserOp)
  {
    op.Settle? && op.w != Progress
  }

  /** What an operation on the deferred is to its progress list. */
  function OnProgress(op: UserOp): seq<Op>
  {
    match op
    case Register(w, fns) => if w == Progress then [DoAdd(AsUser(fns))] else []
    case Settle(w, data) => if w == Progress then [DoFire(data)] else []
    case Return => [DoReturn(false)]
  }

  function AllOnProgress(ops: seq<UserOp>): seq<Op>
  {
    if ops == [] then [] else OnProgress(ops[0]) + AllOnProgress(ops[1..])
  }

  /** The arguments of the notifications, in order. */
  function Notifications(ops: seq<UserOp>): seq<Data>
  {
    if ops == [] then []
    else (if ops[0].Settle? && ops[0].w == Progress then [ops[0].data] else []) + Notifications(ops[1..])
  }

  lemma {:induction false} ProgressIsCalm(ops: seq<UserOp>)
    ensures forall i | 0 <= i < |AllOnProgress(ops)| :: Calm(AllOnProgress(ops)[i])
    ensures FiresOf(AllOnProgress(ops)) == Notifications(ops)
    decreases |ops|
  {
    if ops != [] {
      ProgressIsCalm(ops[1..]);
      var rest := AllOnProgress(ops[1..]);
      var own := OnProgress(ops[0]);
      if own == [] {
        assert own + rest == rest;
      } else {
        assert own + rest == [own[0]] + rest && (own + rest)[1..] == rest;
      }
    }
  }

  /** One operation on a pending deferred. */
  lemma PendingStep(d: Deferred, op: UserOp, rd: seq<Fn>, rf: seq<Fn>)
    requires DeferredRuns.Inv(d, rd, rf) && d.state == Pending
    ensures Sane(d)
    ensures Settles(op) ==>
      UserStep(d, op).state == (if op.w == Done then Resolved else Rejected) && DeferredRuns.Value(UserStep(d, op)) == op.data
    ensures !Settles(op) ==>
      UserStep(d, op).state == Pending && UserStep(d, op).progress == Run(MEMORY, d.progress, OnProgress(op))
  {
    if Settles(op) {
      DeferredRuns.SettlePending(d, op.w, op.data, rd, rf);
    } else if op.Return? {
      PendingReturn(d, rd, rf);
    } else if op.w == Progress {
      ProgressOperation(d, op, rd, rf);
    } else {
      DeferredRuns.RegisterPending(d, op.w, op.fns, rd, rf);
    }
  }

  lemma ProgressOperation(d: Deferred, op: UserOp, rd: seq<Fn>, rf: seq<Fn>)
    requires DeferredRuns.Inv(d, rd, rf) && d.state == Pending && !op.Return? && op.w == Progress
    ensures Sane(d) && UserStep(d, op).state == Pending
    ensures UserStep(d, op).progress == Run(MEMORY, d.progress, OnProgress(op))
  {
    var o := if op.Register? then DoAdd(AsUser(op.fns)) else DoFire(op.data);
    DeferredRuns.OpenStays(d.progress, o);
    DeferredRuns.ProgressEnters(d, Step(MEMORY, d.progress, o));
    assert Run(MEMORY, d.progress, [o]) == Step(MEMORY, d.progress, o);
  }

  lemma PendingReturn(d: Deferred, rd: seq<Fn>, rf: seq<Fn>)
    requires DeferredRuns.Inv(d, rd, rf) && d.state == Pending
    ensures Sane(d) && UserStep(d, Return).state == Pending
    ensures UserStep(d, Return).progress == Run(MEMORY, d.progress, [DoReturn(false)])
  {
    assert Run(MEMORY, d.progress, [DoReturn(false)]) == Step(MEMORY, d.progress, DoReturn(false));
    if d.frames == [] {
      assert Progress !in d.frames;
    } else {
      var w := d.frames[|d.frames| - 1];
      assert w in d.frames;
      assert w == Progress;
      DeferredRuns.OpenStays(d.progress, DoReturn(false));
      DeferredRuns.ProgressLeaves(d, Callbacks.Return(MEMORY, d.progress, false));
    }
  }

  lemma {:induction false} RunConcat(o: Options, m: Machine, a: seq<Op>, b: seq<Op>)
    requires Coherent(m.s)
    ensures Run(o, m, a + b) == Run(o, Run(o, m, a), b)
    decreases |a|
  {
    if a == [] {
      assert a + b == b;
    } else {
      assert (a + b)[0] == a[0] && (a + b)[1..] == a[1..] + b;
      StepKeepsCoherence(o, m, a[0]);
      RunConcat(o, Step(o, m, a[0]), a[1..], b);
    }
  }

  lemma {:induction false} PendingRun(d: Deferred, ops: seq<UserOp>, rd: seq<Fn>, rf: seq<Fn>)
    requires DeferredRuns.Inv(d, rd, rf) && d.state == Pending && forall i | 0 <= i < |ops| :: !Settles(ops[i])
    ensures Sane(d) && UserRun(d, ops).state == Pending
    ensures UserRun(d, ops).progress == Run(MEMORY, d.progress, AllOnProgress(ops))
    decreases |ops|
  {
    if ops != [] {
      var next := UserStep(d, ops[0]);
      PendingStep(d, ops[0], rd, rf);
      DeferredRuns.StepKeeps(d, ops[0], rd, rf);
      PendingRun(next, ops[1..], DeferredRuns.RollAfter(rd, Done, ops[0]), DeferredRuns.RollAfter(rf, Fail, ops[0]));
      RunConcat(MEMORY, d.progress, OnProgress(ops[0]), AllOnProgress(ops[1..]));
    }
  }

  lemma SettlingRun(d: Deferred, ops: seq<UserOp>, rd: seq<Fn>, rf: seq<Fn>)
    requires DeferredRuns.Inv(d, rd, rf) && d.state == Pending && ops != [] && Settles(ops[0])
    ensures Sane(d) && var r := UserRun(d, ops);
            r.state == (if ops[0].w == Done then Resolved else Rejected) && DeferredRuns.Value(r) == ops[0].data
  {
    PendingStep(d, ops[0], rd, rf);
    DeferredRuns.StepKeeps(d, ops[0], rd, rf);
    UserStepStaysSane(d, ops[0]);
    DeferredRuns.RunKeeps(UserStep(d, ops[0]), ops[1..],
                          DeferredRuns.RollAfter(rd, Done, ops[0]), DeferredRuns.RollAfter(rf, Fail, ops[0]));
  }

  lemma {:induction false} DecidesFrom(d: Deferred, ops: seq<UserOp>, k: nat, rd: seq<Fn>, rf: seq<Fn>)
    requires DeferredRuns.Inv(d, rd, rf) && d.state == Pending
    requires k <= |ops| && (forall i | 0 <= i < k :: !Settles(ops[i])) && (k < |ops| ==> Settles(ops[k]))
    ensures Sane(d) && var r := UserRun(d, ops);
      if k == |ops| then r.state == Pending
      else r.state == (if ops[k].w == Done then Resolved else Rejected) && DeferredRuns.Value(r) == ops[k].data
    decreases k
  {
    if k > 0 {
      PendingStep(d, ops[0], rd, rf);
      DeferredRuns.StepKeeps(d, ops[0], rd, rf);
      UserStepStaysSane(d, ops[0]);
      DecidesFrom(UserStep(d, ops[0]), ops[1..], k - 1,
                  DeferredRuns.RollAfter(rd, Done, ops[0]), DeferredRuns.RollAfter(rf, Fail, ops[0]));
    } else if ops != [] {
      SettlingRun(d, ops, rd, rf);
    }
  }

  /**
   Main result: a deferred is pending as long as nobody has resolved or rejected it, and the first
   who does decides: `resolve` resolves it, `reject` rejects it, with the arguments of that call.
   */
  lemma FirstCallDecides(ops: seq<UserOp>, k: nat)
    requires k <= |ops| && (forall i | 0 <= i < k :: !Settles(ops[i])) && (k < |ops| ==> Settles(ops[k]))
    ensures var d := UserRun(New(), ops);
      if k == |ops| then d.state == Pending
      else d.state == (if ops[k].w == Done then Resolved else Rejected) && DeferredRuns.Value(d) == ops[k].data
  {
    DeferredRuns.NewIsGood();
    DecidesFrom(New(), ops, k, DeferredRuns.OWN, DeferredRuns.OWN);
  }

  /**
   Main result: while a deferred is pending, the passes over its progress list carry the arguments
   of the notifications, in order, and call their rosters; at rest none is left out.
   */
  lemma NotificationsArrive(ops: seq<UserOp>)
    requires forall i | 0 <= i < |ops| :: !Settles(ops[i])
    ensures var m := UserRun(New(), ops).progress;
      Arguments(Passes(m)) <= Notifications(ops) &&
      (!m.s.firing ==> Arguments(m.finished) == Notifications(ops)) &&
      forall i | 0 <= i < |m.finished| :: Complete(m.finished[i])
  {
    DeferredRuns.NewIsGood();
    PendingRun(New(), ops, DeferredRuns.OWN, DeferredRuns.OWN);
    ProgressIsCalm(ops);
    PassesAreTheFires(MEMORY, AllOnProgress(ops));
    EveryPassCallsItsRoster(MEMORY, AllOnProgress(ops));
  }
}
