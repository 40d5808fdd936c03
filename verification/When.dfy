/**
 `jQuery.when`: a master deferred over several positions, each holding a plain value or a
 promise.  The countdown `remaining` and the slots filled one by one are proved to amount to a
 verdict on the history of settlements, whatever their order and however early they come.

 That a promise settles each handler at most once, and one way only, is what `DeferredRuns`
 proves of the deferreds behind it.
 */
module When {
  import opened Wrappers

  type Value = nat

  /** What a position ends up holding: `arguments.length > 1 ? [all] : first`. */
  datatype Slot = Undefined | One(v: Value) | Many(vs: seq<Value>)

  function SlotOf(args: seq<Value>): Slot
  {
    if |args| > 1 then Many(args) else if args == [] then Undefined else One(args[0])
  }

  /** `slot` is what a place shows of the arguments a promise was settled with. */
  predicate Shows(slot: Slot, args: seq<Value>)
  {
    match slot
    case Undefined => args == []
    case One(v) => args == [v]
    case Many(vs) => |args| > 1 && vs == args
  }

  /**
   An argument of `when`; a promise may have been settled before the call, and `note` is the
   last notification it gave, which it repeats to a handler that comes later.
   */
  datatype Arg =
    | Plain(value: Value)
    | Waiting(promise: nat, note: Option<seq<Value>>)
    | Resolved(promise: nat, args: seq<Value>, note: Option<seq<Value>>)
    | Rejected(promise: nat, args: seq<Value>, note: Option<seq<Value>>)

  datatype Event = Fill(i: nat, slot: Slot) | Fail(i: nat, args: seq<Value>)

  /** A notification of position `i`, come when `after` positions had settled. */
  datatype Heard = Heard(i: nat, slot: Slot, after: nat)

  datatype Outcome = Open | Fulfilled(values: seq<Slot>) | Broken(args: seq<Value>)

  // ---------- the verdict on a history ----------

  function FirstFail(h: seq<Event>): Option<seq<Value>>
  {
    if h == [] then None
    else if h[0].Fail? then Some(h[0].args)
    else FirstFail(h[1..])
  }

  /** What position `i` holds after history `h`. */
  function Held(h: seq<Event>, i: nat): Option<Slot>
  {
    if h == [] then None
    else
      var last := h[|h| - 1];
      if last.Fill? && last.i == i then Some(last.slot) else Held(h[..|h| - 1], i)
  }

  /** How many of the first `n` positions hold nothing. */
  function Missing(h: seq<Event>, n: nat): nat
  {
    if n == 0 then 0 else Missing(h, n - 1) + if Held(h, n - 1).None? then 1 else 0
  }

  predicate AllHeld(h: seq<Event>, n: nat)
  {
    forall i: nat | i < n :: Held(h, i).Some?
  }

  /**
   The first rejection breaks the master; failing that it is fulfilled once every position is
   filled, with the value of position i at place i.
   */
  ghost predicate IsVerdict(n: nat, h: seq<Event>, o: Outcome)
  {
    if FirstFail(h).Some? then o == Broken(FirstFail(h).value)
    else if AllHeld(h, n) then
      o.Fulfilled? && |o.values| == n && forall i: nat | i < n :: Some(o.values[i]) == Held(h, i)
    else o == Open
  }

  /** Each position settles at most once. */
  predicate Proper(n: nat, h: seq<Event>)
  {
    (forall k | 0 <= k < |h| :: h[k].i < n) &&
    forall j, k | 0 <= j < k < |h| :: h[j].i != h[k].i
  }

  predicate Untouched(h: seq<Event>, i: nat)
  {
    forall k | 0 <= k < |h| :: h[k].i != i
  }

  lemma {:induction false} FirstFailAppend(h: seq<Event>, e: Event)
    ensures FirstFail(h + [e]) ==
      if FirstFail(h).Some? then FirstFail(h) else if e.Fail? then Some(e.args) else None
  {
    if h == [] {
      assert h + [e] == [e];
    } else {
      FirstFailAppend(h[1..], e);
      assert (h + [e])[1..] == h[1..] + [e];
    }
  }

  lemma HeldAppend(h: seq<Event>, e: Event, i: nat)
    ensures Held(h + [e], i) == if e.Fill? && e.i == i then Some(e.slot) else Held(h, i)
  {
    assert (h + [e])[..|h|] == h;
  }

  lemma {:induction false} HeldUntouched(h: seq<Event>, i: nat)
    requires Untouched(h, i)
    ensures Held(h, i).None?
  {
    if h != [] {
      HeldUntouched(h[..|h| - 1], i);
    }
  }

  lemma {:induction false} MissingAppend(h: seq<Event>, e: Event, n: nat)
    requires Untouched(h, e.i)
    ensures Missing(h + [e], n) == Missing(h, n) - if e.Fill? && e.i < n then 1 else 0
  {
    HeldUntouched(h, e.i);
    if n > 0 {
      MissingAppend(h, e, n - 1);
      HeldAppend(h, e, n - 1);
    }
  }

  lemma {:induction false} NothingMissing(h: seq<Event>, n: nat)
    ensures Missing(h, n) == 0 <==> AllHeld(h, n)
  {
    if n > 0 {
      NothingMissing(h, n - 1);
      assert AllHeld(h, n) <==> AllHeld(h, n - 1) && Held(h, n - 1).Some?;
    }
  }

  lemma {:induction false} FailLeavesGap(n: nat, h: seq<Event>, k: nat)
    requires Proper(n, h) && k < |h| && h[k].Fail?
    ensures Held(h, h[k].i).None? && Missing(h, n) > 0
  {
    HeldNoneAt(h, k);
    NothingMissing(h, n);
  }

  lemma {:induction false} HeldNoneAt(h: seq<Event>, k: nat)
    requires k < |h| && h[k].Fail? && forall j | 0 <= j < |h| && j != k :: h[j].i != h[k].i
    ensures Held(h, h[k].i).None?
  {
    if k == |h| - 1 {
      HeldUntouched(h[..k], h[k].i);
    } else {
      HeldNoneAt(h[..|h| - 1], k);
    }
  }

  lemma {:induction false} FailExists(h: seq<Event>) returns (k: nat)
    requires FirstFail(h).Some?
    ensures k < |h| && h[k].Fail?
  {
    if h[0].Fail? {
      k := 0;
    } else {
      var j := FailExists(h[1..]);
      k := j + 1;
    }
  }

  // ---------- what the verdict says about the countdown ----------

  /** A filled position fulfils the master exactly if it was the last one missing. */
  lemma FulfilledExactlyAtTheLast(n: nat, h: seq<Event>, i: nat, slot: Slot, o: Outcome)
    requires Proper(n, h) && i < n && Untouched(h, i) && IsVerdict(n, h + [Fill(i, slot)], o)
    ensures o.Fulfilled? <==> Missing(h, n) == 1
    ensures o.Fulfilled? ==> |o.values| == n && o.values[i] == slot
  {
    Settled(n, h, Fill(i, slot));
    HeldAppend(h, Fill(i, slot), i);
  }

  /** Once the master is fulfilled or broken, no further settlement changes that. */
  lemma VerdictIsFinal(n: nat, h: seq<Event>, e: Event, o: Outcome)
    requires Proper(n, h + [e]) && IsVerdict(n, h, o) && o != Open
    ensures IsVerdict(n, h + [e], o)
  {
    FirstFailAppend(h, e);
    assert (h + [e])[|h|] == e;
    assert forall k | 0 <= k < |h| :: (h + [e])[k] == h[k];
    if FirstFail(h).None? {
      assert Untouched(h, e.i);
      HeldUntouched(h, e.i);
      assert false;
    }
  }

  // ---------- notifications ----------

  /** The master is neither fulfilled nor broken by history `h`. */
  predicate IsOpen(n: nat, h: seq<Event>)
  {
    FirstFail(h).None? && !AllHeld(h, n)
  }

  function Latest(heard: seq<Heard>, i: nat): Option<Slot>
  {
    if heard == [] then None
    else
      var last := heard[|heard| - 1];
      if last.i == i then Some(last.slot) else Latest(heard[..|heard| - 1], i)
  }

  /** Each place with the latest notification of its position. */
  function LatestOfAll(n: nat, heard: seq<Heard>): seq<Option<Slot>>
  {
    seq(n, i requires 0 <= i < n => Latest(heard, i))
  }

  /** The notifications came in the course of history `h`. */
  predicate During(h: seq<Event>, heard: seq<Heard>)
  {
    (forall k | 0 <= k < |heard| :: heard[k].after <= |h|) &&
    forall j, k | 0 <= j < k < |heard| :: heard[j].after <= heard[k].after
  }

  /** What was settled by a part of the history is settled by the whole. */
  lemma {:induction false} StaysSettled(n: nat, h: seq<Event>, k: nat)
    requires Proper(n, h) && k <= |h| && IsOpen(n, h)
    ensures IsOpen(n, h[..k])
    decreases |h|
  {
    var last := |h| - 1;
    if k == |h| {
      assert h[..k] == h;
    } else {
      assert h == h[..last] + [h[last]];
      FirstFailAppend(h[..last], h[last]);
      assert Untouched(h[..last], h[last].i);
      forall i: nat
        ensures Held(h[..last], i).Some? ==> Held(h, i).Some?
      {
        HeldAppend(h[..last], h[last], i);
      }
      StaysSettled(n, h[..last], k);
      assert h[..last][..k] == h[..k];
    }
  }

  lemma OpenBefore(n: nat, h: seq<Event>, t: nat, u: nat)
    requires Proper(n, h) && t <= u <= |h|
    ensures IsOpen(n, h[..u]) ==> IsOpen(n, h[..t])
  {
    if IsOpen(n, h[..u]) {
      StaysSettled(n, h[..u], t);
      assert h[..u][..t] == h[..t];
    }
  }

  /**
   The notifications passed on are the first ones, up to the settlement and none after it, and
   each carries at every place the latest notification of that position.
   */
  ghost predicate PassedOn(n: nat, h: seq<Event>, heard: seq<Heard>, notified: seq<seq<Option<Slot>>>)
    requires During(h, heard)
  {
    |notified| <= |heard| &&
    (forall k | 0 <= k < |heard| :: k < |notified| <==> IsOpen(n, h[..heard[k].after])) &&
    (forall k | 0 <= k < |notified| :: notified[k] == LatestOfAll(n, heard[..k + 1]))
  }

  lemma PassedOnExtends(n: nat, h: seq<Event>, e: Event, heard: seq<Heard>, notified: seq<seq<Option<Slot>>>)
    requires During(h, heard) && PassedOn(n, h, heard, notified)
    ensures During(h + [e], heard) && PassedOn(n, h + [e], heard, notified)
  {
    forall k | 0 <= k < |heard|
      ensures k < |notified| <==> IsOpen(n, (h + [e])[..heard[k].after])
    {
      assert (h + [e])[..heard[k].after] == h[..heard[k].after];
    }
  }

  lemma PassedOnAppend(n: nat, h: seq<Event>, heard: seq<Heard>, note: Heard, notified: seq<seq<Option<Slot>>>)
    requires Proper(n, h) && During(h, heard) && PassedOn(n, h, heard, notified) && note.after == |h|
    ensures During(h, heard + [note])
    ensures PassedOn(n, h, heard + [note], if IsOpen(n, h) then notified + [LatestOfAll(n, heard + [note])] else notified)
  {
    var all, now := heard + [note], LatestOfAll(n, heard + [note]);
    var passed := if IsOpen(n, h) then notified + [now] else notified;
    assert h[..|h|] == h;
    if IsOpen(n, h) && heard != [] {
      StaysSettled(n, h, heard[|heard| - 1].after);
    }
    forall k | 0 <= k < |all|
      ensures k < |passed| <==> IsOpen(n, h[..all[k].after])
    {
      assert all[k] == if k < |heard| then heard[k] else note;
    }
    forall k | 0 <= k < |passed|
      ensures passed[k] == LatestOfAll(n, all[..k + 1])
    {
      assert all[..k + 1] == if k < |heard| then heard[..k + 1] else all;
    }
  }

  lemma LatestAppend(n: nat, heard: seq<Heard>, note: Heard)
    requires note.i < n
    ensures LatestOfAll(n, heard + [note]) == LatestOfAll(n, heard)[note.i := Some(note.slot)]
  {
    assert (heard + [note])[..|heard|] == heard;
  }

  // ---------- the object ----------

  /** What the variables of `when` say about history `h`, all of it about positions below `next`. */
  ghost predicate Tally(n: nat, h: seq<Event>, next: nat, remaining: int, values: seq<Slot>, o: Outcome)
  {
    next <= n && |values| == n && Proper(n, h) &&
    (forall k | 0 <= k < |h| :: h[k].i < next) &&
    remaining == Missing(h, n) &&
    (forall i: nat | i < n && Held(h, i).Some? :: Some(values[i]) == Held(h, i)) &&
    if FirstFail(h).Some? then o == Broken(FirstFail(h).value)
    else o == Open || (remaining == 0 && o == Fulfilled(values))
  }

  lemma TallyFail(n: nat, h: seq<Event>, i: nat, args: seq<Value>, earlier: nat, next: nat,
                  remaining: int, values: seq<Slot>, o: Outcome)
    requires Tally(n, h, earlier, remaining, values, o) && earlier <= next && i < next <= n && Untouched(h, i)
    ensures Tally(n, h + [Fail(i, args)], next, remaining, values, if o.Open? then Broken(args) else o)
  {
    var e := Fail(i, args);
    Settled(n, h, e);
    NothingMissing(h, n);
    HeldUntouched(h, i);
    forall k | 0 <= k < |h + [e]|
      ensures (h + [e])[k].i < next
    {
      assert (h + [e])[k] == if k < |h| then h[k] else e;
    }
  }

  /** Before the loop nothing is counted. */
  lemma TallyStarts(n: nat, values: seq<Slot>)
    requires |values| == n
    ensures Tally(n, [], 0, n, values, Open)
  {
    NoneHeld(n);
  }

  lemma TallyFill(n: nat, h: seq<Event>, i: nat, slot: Slot, earlier: nat, next: nat,
                  remaining: int, values: seq<Slot>, o: Outcome)
    requires Tally(n, h, earlier, remaining, values, o) && earlier <= next && i < next <= n && Untouched(h, i)
    ensures remaining > 0 && (FirstFail(h).None? ==> o == Open)
    ensures var now := values[i := slot];
            Tally(n, h + [Fill(i, slot)], next, remaining - 1, now, o) &&
            (remaining == 1 ==> FirstFail(h).None?) &&
            (remaining == 1 ==> Tally(n, h + [Fill(i, slot)], next, 0, now, Fulfilled(now)))
  {
    var e := Fill(i, slot);
    Settled(n, h, e);
    NothingMissing(h, n);
    HeldUntouched(h, i);
    forall j: nat | j < n
      ensures Held(h + [e], j) == if j == i then Some(slot) else Held(h, j)
    {
      HeldAppend(h, e, j);
    }
    forall k | 0 <= k < |h + [e]|
      ensures (h + [e])[k].i < next
    {
      assert (h + [e])[k] == if k < |h| then h[k] else e;
    }
  }

  /** What a resolution makes of the variables, and of the master if it was the last one missing. */
  lemma TallyDone(n: nat, h: seq<Event>, i: nat, slot: Slot, earlier: nat, next: nat,
                  remaining: int, values: seq<Slot>, o: Outcome)
    requires Tally(n, h, earlier, remaining, values, o) && earlier <= next && i < next <= n && Untouched(h, i)
    ensures remaining > 0 && |values| == n
    ensures var now := values[i := slot];
            var o' := if remaining == 1 && o.Open? then Fulfilled(now) else o;
            Tally(n, h + [Fill(i, slot)], next, remaining - 1, now, o') && (o'.Open? ==> remaining > 1)
  {
    TallyFill(n, h, i, slot, earlier, next, remaining, values, o);
  }

  lemma SlotShows(args: seq<Value>)
    ensures Shows(SlotOf(args), args)
  {
  }

  /** The progress values and what was passed on are those of the notifications heard. */
  ghost predicate Noted(n: nat, h: seq<Event>, heard: seq<Heard>, values: seq<Option<Slot>>,
                        notified: seq<seq<Option<Slot>>>)
  {
    During(h, heard) && values == LatestOfAll(n, heard) && PassedOn(n, h, heard, notified)
  }

  lemma NotedExtends(n: nat, h: seq<Event>, e: Event, heard: seq<Heard>, values: seq<Option<Slot>>,
                     notified: seq<seq<Option<Slot>>>)
    requires Noted(n, h, heard, values, notified)
    ensures Noted(n, h + [e], heard, values, notified)
  {
    PassedOnExtends(n, h, e, heard, notified);
  }

  lemma NotedAppend(n: nat, h: seq<Event>, heard: seq<Heard>, i: nat, slot: Slot, values: seq<Option<Slot>>,
                    notified: seq<seq<Option<Slot>>>)
    requires Proper(n, h) && Noted(n, h, heard, values, notified) && i < n
    ensures var now := values[i := Some(slot)];
            Noted(n, h, heard + [Heard(i, slot, |h|)], now, if IsOpen(n, h) then notified + [now] else notified)
  {
    var note := Heard(i, slot, |h|);
    PassedOnAppend(n, h, heard, note, notified);
    LatestAppend(n, heard, note);
  }

  /** An object's outcome is open exactly if its history leaves the master open. */
  lemma OpenIff(n: nat, h: seq<Event>, next: nat, remaining: int, values: seq<Slot>, o: Outcome)
    requires Tally(n, h, next, remaining, values, o) && (o.Open? ==> remaining > 0)
    ensures o.Open? <==> IsOpen(n, h)
  {
    NothingMissing(h, n);
  }

  class Master {
    const n: nat
    var remaining: int
    var resolveValues: seq<Slot>
    var progressValues: seq<Option<Slot>>
    var outcome: Outcome
    var notified: seq<seq<Option<Slot>>>
    ghost var history: seq<Event>
    ghost var heard: seq<Heard>

    /** The countdown and the slots agree with the history; all of it is about positions below `next`. */
    ghost predicate Counting(next: nat)
      reads this
    {
      Tally(n, history, next, remaining, resolveValues, outcome)
    }

    /** So do the progress values and what was passed on with the notifications heard. */
    ghost predicate Noting()
      reads this
    {
      Noted(n, history, heard, progressValues, notified)
    }

    /** What holds once `when` has returned. */
    ghost predicate Valid()
      reads this
    {
      Counting(n) && Noting() && (outcome.Open? ==> remaining > 0)
    }

    /** Then the master's state is the verdict on all settlements so far. */
    lemma StateIsVerdict()
      requires Valid()
      ensures IsVerdict(n, history, outcome)
    {
      NothingMissing(history, n);
    }

    /**
     A notification is passed on exactly if it came before settlement `t`, the one that settled
     the master; place i of what is passed on is then the latest notification of position i.
     */
    lemma PassesOnUntilSettled(t: nat, k: nat, i: nat)
      requires Valid() && k < |heard| && i < n
      requires t <= |history| && !IsOpen(n, history[..t]) && (t > 0 ==> IsOpen(n, history[..t - 1]))
      ensures k < |notified| <==> heard[k].after < t
      ensures k < |notified| ==> |notified[k]| == n && notified[k][i] == Latest(heard[..k + 1], i)
    {
      var u := heard[k].after;
      if u < t {
        OpenBefore(n, history, u, t - 1);
      } else {
        OpenBefore(n, history, t, u);
      }
      assert k < |notified| ==> notified[k] == LatestOfAll(n, heard[..k + 1]);
    }

    /** As long as the master is open, every notification is passed on. */
    lemma AllPassedOnWhileOpen()
      requires Valid() && outcome.Open?
      ensures |notified| == |heard|
    {
      OpenIff(n, history, n, remaining, resolveValues, outcome);
      if heard != [] {
        StaysSettled(n, history, heard[|heard| - 1].after);
      }
    }

    /** `when` itself, except for a single promise, which `when` hands back as it is. */
    constructor (args: seq<Arg>)
      requires |args| == 1 ==> args[0].Plain?
      ensures Valid() && n == |args| && IsVerdict(n, history, outcome)
      ensures history == AtCall(args) && heard == NotesAtCall(args)
      ensures IsOutcomeOf(args, outcome)
      ensures forall i | 0 <= i < n :: IsNoteOf(args[i], progressValues[i])
    {
      n := |args|;
      remaining := |args|;
      resolveValues := seq(|args|, i requires 0 <= i < |args| => if args[i].Plain? then One(args[i].value) else Undefined);
      progressValues := seq(|args|, i => None);
      outcome, notified, history, heard := Open, [], [], [];
      new;
      TallyStarts(n, resolveValues);
      RegisterAll(args);
      ResolveIfDone(args);
    }

    /** If nothing is waited for, the master is resolved. */
    method ResolveIfDone(ghost args: seq<Arg>)
      requires |args| == n && Counting(n) && Noting() && history == AtCall(args)
      modifies this`outcome
      ensures Valid() && IsVerdict(n, history, outcome) && IsOutcomeOf(args, outcome)
    {
      if remaining == 0 {
        Resolve();
      }
      StateIsVerdict();
      CallHasArguments(args);
      CallDecides(args, history, outcome);
    }

    /** The loop of `when`. */
    method RegisterAll(args: seq<Arg>)
      requires |args| == n && Counting(0) && Noting() && history == [] && heard == []
      requires forall j | 0 <= j < n && args[j].Plain? :: resolveValues[j] == One(args[j].value)
      modifies this
      ensures Counting(n) && Noting() && history == AtCall(args) && heard == NotesAtCall(args)
      ensures forall i | 0 <= i < n :: IsNoteOf(args[i], progressValues[i])
    {
      var i := 0;
      while i < n
        invariant 0 <= i <= n && Counting(i) && Noting()
        invariant history == AtCall(args[..i]) && heard == NotesAtCall(args[..i])
        invariant forall j | i <= j < n && args[j].Plain? :: resolveValues[j] == One(args[j].value)
        decreases n - i
      {
        assert args[..i + 1][..i] == args[..i];
        Register(i, args[i]);
        i := i + 1;
      }
      assert args[..n] == args;
      NotesAreShown(args);
    }

    /** One turn of the loop of `when`; a promise already settled answers at once, and one that notified, again. */
    method Register(i: nat, arg: Arg)
      requires i < n && Counting(i) && Noting() && (arg.Plain? ==> resolveValues[i] == One(arg.value))
      modifies this
      ensures Counting(i + 1) && Noting() && history == old(history) + EventsOf(i, arg)
      ensures heard == old(heard) + NotesOf(i, arg, |history|)
      ensures forall j | 0 <= j < n && j != i :: resolveValues[j] == old(resolveValues[j])
    {
      if arg.Plain? {
        Count(i, arg.value);
      } else {
        Listen(i, arg);
        Repeat(i, arg);
      }
    }

    /** The promise repeats its last notification. */
    method Repeat(i: nat, arg: Arg)
      requires i < n && Counting(i + 1) && Noting() && !arg.Plain? && (outcome.Open? ==> remaining > 0)
      modifies this`progressValues, this`notified, this`heard
      ensures Counting(i + 1) && Noting() && heard == old(heard) + NotesOf(i, arg, |history|)
    {
      if arg.note.Some? {
        OnProgress(i, arg.note.value, i + 1);
      }
    }

    /** A plain value counts as resolved. */
    method Count(i: nat, v: Value)
      requires i < n && Counting(i) && Noting() && resolveValues[i] == One(v)
      modifies this`remaining, this`history
      ensures Counting(i + 1) && Noting() && history == old(history) + [Fill(i, One(v))]
    {
      ghost var e := Fill(i, One(v));
      TallyFill(n, history, i, One(v), i, i + 1, remaining, resolveValues, outcome);
      NotedExtends(n, history, e, heard, progressValues, notified);
      assert resolveValues[i := One(v)] == resolveValues;
      history := history + [e];
      remaining := remaining - 1;
    }

    /** The handlers of a promise's outcome. */
    method Listen(i: nat, arg: Arg)
      requires i < n && Counting(i) && Noting() && !arg.Plain?
      modifies this`resolveValues, this`remaining, this`outcome, this`history
      ensures Counting(i + 1) && Noting() && history == old(history) + EventsOf(i, arg)
      ensures outcome.Open? ==> remaining > 0
      ensures forall j | 0 <= j < n && j != i :: resolveValues[j] == old(resolveValues[j])
    {
      match arg {
        case Waiting(_, _) => StillMissing(i, i);
        case Resolved(_, a, _) => OnDone(i, a, i, i + 1);
        case Rejected(_, a, _) => OnFail(i, a, i, i + 1);
      }
    }

    /** A position that has not settled is missing. */
    lemma StillMissing(i: nat, next: nat)
      requires i < n && Untouched(history, i) && Counting(next)
      ensures remaining > 0
    {
      NothingMissing(history, n);
      HeldUntouched(history, i);
    }

    /** `deferred.resolveWith`, which a settled deferred ignores. */
    method Resolve()
      modifies this`outcome
      ensures outcome == if old(outcome).Open? then Fulfilled(resolveValues) else old(outcome)
    {
      if outcome.Open? {
        outcome := Fulfilled(resolveValues);
      }
    }

    /** The `done` handler of position `i`. */
    method OnDone(i: nat, args: seq<Value>, ghost earlier: nat, ghost next: nat)
      requires i < next <= n && Untouched(history, i)
      requires earlier <= next && Counting(earlier) && Noting()
      modifies this`resolveValues, this`remaining, this`outcome, this`history
      ensures history == old(history) + [Fill(i, SlotOf(args))]
      ensures Counting(next) && Noting() && (outcome.Open? ==> remaining > 0)
      ensures Shows(resolveValues[i], args)
      ensures forall j | 0 <= j < n && j != i :: resolveValues[j] == old(resolveValues[j])
      ensures remaining == old(remaining) - 1
      ensures outcome == if remaining == 0 && old(outcome).Open? then Fulfilled(resolveValues) else old(outcome)
    {
      ghost var e := Fill(i, SlotOf(args));
      TallyDone(n, history, i, SlotOf(args), earlier, next, remaining, resolveValues, outcome);
      NotedExtends(n, history, e, heard, progressValues, notified);
      SlotShows(args);
      resolveValues := resolveValues[i := SlotOf(args)];
      history := history + [e];
      remaining := remaining - 1;
      if remaining == 0 {
        Resolve();
      }
    }

    /** The `fail` handler of every position: `deferred.reject`. */
    method OnFail(i: nat, args: seq<Value>, ghost earlier: nat, ghost next: nat)
      requires i < next <= n && Untouched(history, i)
      requires earlier <= next && Counting(earlier) && Noting()
      modifies this`outcome, this`history
      ensures history == old(history) + [Fail(i, args)]
      ensures Counting(next) && Noting() && outcome != Open
      ensures outcome == if old(outcome).Open? then Broken(args) else old(outcome)
    {
      TallyFail(n, history, i, args, earlier, next, remaining, resolveValues, outcome);
      NotedExtends(n, history, Fail(i, args), heard, progressValues, notified);
      history := history + [Fail(i, args)];
      if outcome.Open? {
        outcome := Broken(args);
      }
    }

    /** The `progress` handler of position `i`; a settled master ignores the notification. */
    method OnProgress(i: nat, args: seq<Value>, ghost next: nat)
      requires i < n && Counting(next) && Noting() && (outcome.Open? ==> remaining > 0)
      modifies this`progressValues, this`notified, this`heard
      ensures Counting(next) && Noting() && heard == old(heard) + [Heard(i, SlotOf(args), |history|)]
      ensures progressValues[i].Some? && Shows(progressValues[i].value, args)
    {
      OpenIff(n, history, next, remaining, resolveValues, outcome);
      NotedAppend(n, history, heard, i, SlotOf(args), progressValues, notified);
      heard := heard + [Heard(i, SlotOf(args), |history|)];
      progressValues := progressValues[i := Some(SlotOf(args))];
      if outcome.Open? {
        notified := notified + [progressValues];
      }
    }
  }

  /** The settlements `when` finds already made, in the order of the positions. */
  function AtCall(args: seq<Arg>): seq<Event>
  {
    if args == [] then []
    else
      var i := |args| - 1;
      AtCall(args[..i]) + EventsOf(i, args[i])
  }

  function EventsOf(i: nat, arg: Arg): seq<Event>
  {
    match arg
    case Plain(v) => [Fill(i, One(v))]
    case Waiting(_, _) => []
    case Resolved(_, a, _) => [Fill(i, SlotOf(a))]
    case Rejected(_, a, _) => [Fail(i, a)]
  }

  /**
   What becomes of the call, said of its arguments: the first rejected one breaks the master;
   else it is fulfilled if nothing is waiting, each place with the plain value or what its promise
   was resolved with; else it is open.
   */
  ghost predicate IsOutcomeOf(args: seq<Arg>, o: Outcome)
  {
    if exists k :: FirstRejected(args, k) then exists k :: FirstRejected(args, k) && o == Broken(args[k].args)
    else if exists k :: 0 <= k < |args| && args[k].Waiting? then o == Open
    else o.Fulfilled? && |o.values| == |args| && forall i | 0 <= i < |args| :: Shows(o.values[i], ValuesOf(args[i]))
  }

  predicate FirstRejected(args: seq<Arg>, k: int)
  {
    0 <= k < |args| && args[k].Rejected? && forall j | 0 <= j < k :: !args[j].Rejected?
  }

  function ValuesOf(arg: Arg): seq<Value>
  {
    match arg
    case Plain(v) => [v]
    case Waiting(_, _) => []
    case Resolved(_, a, _) => a
    case Rejected(_, a, _) => a
  }

  /** What one argument adds to a history. */
  lemma OneArgument(h: seq<Event>, i: nat, arg: Arg)
    ensures FirstFail(h + EventsOf(i, arg)) ==
      if FirstFail(h).Some? then FirstFail(h) else if arg.Rejected? then Some(arg.args) else None
    ensures forall j: nat | j != i :: Held(h + EventsOf(i, arg), j) == Held(h, j)
    ensures if arg.Plain? || arg.Resolved? then
              Held(h + EventsOf(i, arg), i).Some? && Shows(Held(h + EventsOf(i, arg), i).value, ValuesOf(arg))
            else Held(h + EventsOf(i, arg), i) == Held(h, i)
  {
    var events := EventsOf(i, arg);
    if events == [] {
      assert h + events == h;
    } else {
      assert events == [events[0]];
      FirstFailAppend(h, events[0]);
      forall j: nat
        ensures Held(h + events, j) == if events[0].Fill? && i == j then Some(events[0].slot) else Held(h, j)
      {
        HeldAppend(h, events[0], j);
      }
    }
  }

  /** History `h` has what arguments settled before the call give. */
  ghost predicate HasArguments(args: seq<Arg>, h: seq<Event>)
  {
    ((forall i | 0 <= i < |args| :: !args[i].Rejected?) ==> FirstFail(h).None?) &&
    (forall k | FirstRejected(args, k) :: FirstFail(h) == Some(args[k].args)) &&
    (forall i: nat | i < |args| && (args[i].Plain? || args[i].Resolved?) ::
      Held(h, i).Some? && Shows(Held(h, i).value, ValuesOf(args[i]))) &&
    (forall i: nat | i >= |args| || args[i].Waiting? || args[i].Rejected? :: Held(h, i).None?)
  }

  lemma OneArgumentMore(args: seq<Arg>, h: seq<Event>, arg: Arg)
    requires HasArguments(args, h)
    ensures HasArguments(args + [arg], h + EventsOf(|args|, arg))
  {
    OneArgument(h, |args|, arg);
    SomeRejected(args);
    var all := args + [arg];
    assert forall i | 0 <= i < |args| :: all[i] == args[i];
    assert all[|args|] == arg;
    forall k | FirstRejected(all, k)
      ensures k < |args| ==> FirstRejected(args, k)
    {
    }
  }

  lemma {:induction false} CallHasArguments(args: seq<Arg>)
    ensures HasArguments(args, AtCall(args))
  {
    if args != [] {
      var last := |args| - 1;
      CallHasArguments(args[..last]);
      OneArgumentMore(args[..last], AtCall(args[..last]), args[last]);
      assert args == args[..last] + [args[last]];
    }
  }

  lemma {:induction false} SomeRejected(args: seq<Arg>)
    ensures (exists k :: FirstRejected(args, k)) <==> exists i :: 0 <= i < |args| && args[i].Rejected?
  {
    if args != [] {
      var last := |args| - 1;
      var init := args[..last];
      SomeRejected(init);
      if k :| FirstRejected(init, k) {
        assert FirstRejected(args, k);
      } else if args[last].Rejected? {
        assert forall j | 0 <= j < last :: init[j] == args[j];
        assert FirstRejected(args, last);
      }
    }
  }

  lemma CallDecides(args: seq<Arg>, h: seq<Event>, o: Outcome)
    requires HasArguments(args, h) && IsVerdict(|args|, h, o)
    ensures IsOutcomeOf(args, o)
  {
    SomeRejected(args);
    if k :| FirstRejected(args, k) {
      assert FirstFail(h) == Some(args[k].args);
    } else if k :| 0 <= k < |args| && args[k].Waiting? {
      assert Held(h, k).None?;
      assert !AllHeld(h, |args|);
    } else {
      assert AllHeld(h, |args|);
    }
  }

  /** The notifications repeated during the call, each behind the settlement of its own position. */
  function NotesAtCall(args: seq<Arg>): seq<Heard>
  {
    if args == [] then []
    else
      var i := |args| - 1;
      NotesAtCall(args[..i]) + NotesOf(i, args[i], |AtCall(args)|)
  }

  function NotesOf(i: nat, arg: Arg, after: nat): seq<Heard>
  {
    if arg.Plain? || arg.note.None? then [] else [Heard(i, SlotOf(arg.note.value), after)]
  }

  lemma {:induction false} NoneHeld(n: nat)
    ensures Missing([], n) == n
  {
    if n > 0 {
      NoneHeld(n - 1);
    }
  }

  /** A place shows the last notification its promise gave before the call. */
  predicate IsNoteOf(arg: Arg, place: Option<Slot>)
  {
    if arg.Plain? || arg.note.None? then place == None
    else place.Some? && Shows(place.value, arg.note.value)
  }

  lemma {:induction false} NotesAreShown(args: seq<Arg>)
    ensures forall i | 0 <= i < |args| :: IsNoteOf(args[i], Latest(NotesAtCall(args), i))
    ensures forall i: nat | i >= |args| :: Latest(NotesAtCall(args), i) == None
  {
    if args != [] {
      var last := |args| - 1;
      NotesAreShown(args[..last]);
      OneNote(NotesAtCall(args[..last]), last, args[last], |AtCall(args)|);
    }
  }

  lemma OneNote(before: seq<Heard>, i: nat, arg: Arg, after: nat)
    requires Latest(before, i) == None
    ensures forall j: nat | j != i :: Latest(before + NotesOf(i, arg, after), j) == Latest(before, j)
    ensures IsNoteOf(arg, Latest(before + NotesOf(i, arg, after), i))
  {
    var notes := NotesOf(i, arg, after);
    if notes == [] {
      assert before + notes == before;
    } else {
      var note := Heard(i, SlotOf(arg.note.value), after);
      assert notes == [note];
      forall j: nat
        ensures Latest(before + [note], j) == if j == i then Some(note.slot) else Latest(before, j)
      {
        LatestMore(before, note, j);
      }
    }
  }

  lemma LatestMore(heard: seq<Heard>, note: Heard, j: nat)
    ensures Latest(heard + [note], j) == if note.i == j then Some(note.slot) else Latest(heard, j)
  {
    assert (heard + [note])[..|heard|] == heard;
  }

  /** The bookkeeping facts for one more settlement of a position not settled before. */
  lemma Settled(n: nat, h: seq<Event>, e: Event)
    requires Proper(n, h) && e.i < n && Untouched(h, e.i)
    ensures Proper(n, h + [e])
    ensures Missing(h + [e], n) == Missing(h, n) - if e.Fill? then 1 else 0
    ensures Missing(h + [e], n) == 0 <==> AllHeld(h + [e], n)
    ensures FirstFail(h + [e]) == if FirstFail(h).Some? then FirstFail(h) else if e.Fail? then Some(e.args) else None
    ensures FirstFail(h).Some? ==> Missing(h + [e], n) > 0
  {
    MissingAppend(h, e, n);
    NothingMissing(h + [e], n);
    FirstFailAppend(h, e);
    if FirstFail(h).Some? {
      var k := FailExists(h);
      assert (h + [e])[k] == h[k];
      FailLeavesGap(n, h + [e], k);
    }
  }
}
