/**
 The object `jQuery.Deferred` returns: three callback lists, the `state` variable of the closure,
 and methods whose effect on them is the step of the machine in `Deferreds`.
 */
module DeferredObject {
  import opened Wrappers
  import opened Callbacks
  import opened CallbackList
  import Deferreds

  type Which = Deferreds.Which

  class Object {
    const done: List
    const fail: List
    const progress: List
    var state: Deferreds.Status
    var frames: seq<Which>

    ghost function D(): Deferreds.Deferred
      reads this, done, fail, progress
    {
      Deferreds.Deferred(done.M(), fail.M(), progress.M(), state, frames)
    }

    ghost predicate Valid()
      reads this, done, fail, progress
    {
      done != fail && done != progress && fail != progress &&
      done.options == fail.options == Deferreds.ONCE_MEMORY && progress.options == Deferreds.MEMORY &&
      Deferreds.Sane(D())
    }

    constructor ()
      ensures Valid() && fresh(done) && fresh(fail) && fresh(progress) && D() == Deferreds.New()
    {
      var d := new List(Deferreds.ONCE_MEMORY);
      var f := new List(Deferreds.ONCE_MEMORY);
      var p := new List(Deferreds.MEMORY);
      var own := [Deferreds.SET_STATE, Deferreds.DISABLE_OTHER, Deferreds.LOCK_PROGRESS];
      var _ := d.Add(own);
      var _ := f.Add(own);
      done, fail, progress := d, f, p;
      state, frames := Deferreds.Pending, [];
    }

    function ListOf(w: Which): List
    {
      match w
      case Done => done
      case Fail => fail
      case Progress => progress
    }

    /** `done`, `fail` and `progress`. */
    method Register(w: Which, fns: seq<Fn>)
      requires Valid()
      modifies this, done, fail, progress
      ensures Valid() && D() == Deferreds.UserStep(old(D()), Deferreds.Register(w, fns))
    {
      Deferreds.UserStepStaysSane(D(), Deferreds.Register(w, fns));
      Deferreds.OperationStaysSane(D(), w, DoAdd(Deferreds.AsUser(fns)));
      var list := ListOf(w);
      var wasFiring := list.firing;
      var called := list.Add(Deferreds.AsUser(fns));
      if !wasFiring && list.firing {
        frames := frames + [w];
        Proceed(called);
      }
    }

    /** `resolveWith`, `rejectWith` and `notifyWith`. */
    method SettleWith(w: Which, data: Data)
      requires Valid()
      modifies this, done, fail, progress
      ensures Valid() && D() == Deferreds.UserStep(old(D()), Deferreds.Settle(w, data))
    {
      Deferreds.UserStepStaysSane(D(), Deferreds.Settle(w, data));
      Deferreds.OperationStaysSane(D(), w, DoFire(data));
      var list := ListOf(w);
      var wasFiring := list.firing;
      var called := list.FireWith(data);
      if !wasFiring && list.firing {
        frames := frames + [w];
        Proceed(called);
      }
    }

    /** The user's callback that is executing returns. */
    method CallbackReturned()
      requires Valid()
      modifies this, done, fail, progress
      ensures Valid() && D() == Deferreds.UserStep(old(D()), Deferreds.Return)
    {
      Deferreds.UserStepStaysSane(D(), Deferreds.Return);
      if frames != [] {
        var w := frames[|frames| - 1];
        var list := ListOf(w);
        if list.firing {
          Deferreds.OperationStaysSane(D(), w, DoReturn(false));
          var called := list.CallbackReturned(false);
          Proceed(called);
        }
      }
    }

    /** The innermost loop runs the deferred's own functions until a user's is called or it ends. */
    method Proceed(called: Option<Fn>)
      requires Valid() && frames != []
      requires called == Executing(ListOf(frames[|frames| - 1]).M())
      modifies this, done, fail, progress
      ensures D() == Deferreds.Proceed(old(D())) && Valid()
      decreases Deferreds.Left(ListOf(frames[|frames| - 1]).M())
    {
      Deferreds.ProceedStaysSane(D());
      var w := frames[|frames| - 1];
      var list := ListOf(w);
      if !list.firing {
        frames := frames[..|frames| - 1];
      } else if w != Deferreds.Progress && called.Some? && called.value < Deferreds.USER {
        var next := CallOwn(w, called.value);
        Proceed(next);
      }
    }

    /** A settling list calls one of its own functions, which returns to the loop. */
    method CallOwn(w: Which, fn: Fn) returns (called: Option<Fn>)
      requires Valid() && w != Deferreds.Progress && ListOf(w).firing
      modifies this, done, fail, progress
      ensures Valid() && called == Executing(ListOf(w).M())
      ensures D() == Deferreds.Set(Deferreds.Effect(old(D()), w, fn), w,
                                   Return(Deferreds.ONCE_MEMORY, old(ListOf(w).M()), false))
      ensures Deferreds.Left(ListOf(w).M()) < old(Deferreds.Left(ListOf(w).M()))
    {
      Deferreds.ReturnWithoutStack(Deferreds.ONCE_MEMORY, ListOf(w).M());
      RunOwn(w, fn);
      called := ListOf(w).CallbackReturned(false);
    }

    /** One of the three functions a settling list starts with. */
    method RunOwn(w: Which, fn: Fn)
      requires Valid() && w != Deferreds.Progress
      modifies this, done, fail, progress
      ensures D() == Deferreds.Effect(old(D()), w, fn) && Valid()
      ensures ListOf(w).M() == old(ListOf(w).M())
    {
      Deferreds.EffectStaysSane(D(), w, fn);
      if fn == Deferreds.SET_STATE {
        state := if w.Done? then Deferreds.Resolved else Deferreds.Rejected;
      } else if fn == Deferreds.DISABLE_OTHER {
        if w.Done? {
          fail.Disable();
        } else {
          done.Disable();
        }
      } else {
        progress.Lock();
      }
    }
  }
}
