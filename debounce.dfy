/** The single-slot debounce used by the filter form: each call cancels the timer that is
    still pending, if any, and arms a new one carrying the latest arguments; when a timer
    elapses, the wrapped function runs with the arguments that timer carries. */
module Debounce {
  import opened Wrappers

  /** What can happen to a debounced function: it is called, or its pending timer elapses. */
  datatype Event<A> = Trigger(args: A) | Elapse

  /** The pending timer's arguments, if a timer is armed, and every run of the wrapped function so far. */
  datatype Timer<A> = Timer(pending: Option<A>, executed: seq<A>)

  /** One event: a call replaces whatever is pending and runs nothing; an elapsed timer
      runs its arguments once, appended after the earlier runs, and leaves nothing pending. */
  function Step<A>(t: Timer<A>, e: Event<A>): (r: Timer<A>)
    ensures e.Trigger? ==> r.pending == Some(e.args) && r.executed == t.executed
    ensures e.Elapse? ==> r.pending == None
    ensures e.Elapse? && t.pending.Some? ==> r.executed == t.executed + [t.pending.value]
    ensures e.Elapse? && t.pending.None? ==> r.executed == t.executed
  {
    match e
    case Trigger(a) => Timer(Some(a), t.executed)
    case Elapse => if t.pending.Some? then Timer(None, t.executed + [t.pending.value]) else t
  }

  function Run<A>(t: Timer<A>, es: seq<Event<A>>): Timer<A>
    decreases |es|
  {
    if es == [] then t else Run(Step(t, es[0]), es[1..])
  }

  lemma {:induction false} RunAppend<A>(t: Timer<A>, es: seq<Event<A>>, fs: seq<Event<A>>)
    ensures Run(t, es + fs) == Run(Run(t, es), fs)
    decreases |es|
  {
    if es != [] {
      assert (es + fs)[0] == es[0] && (es + fs)[1..] == es[1..] + fs;
      RunAppend(Step(t, es[0]), es[1..], fs);
    } else {
      assert es + fs == fs;
    }
  }

  /** One call per element of `args`, in order. */
  function Triggers<A>(args: seq<A>): (es: seq<Event<A>>)
    ensures |es| == |args|
    ensures forall i :: 0 <= i < |args| ==> es[i] == Trigger(args[i])
  {
    if args == [] then [] else [Trigger(args[0])] + Triggers(args[1..])
  }

  function Elapses<A>(es: seq<Event<A>>): nat {
    if es == [] then 0 else (if es[0] == Elapse then 1 else 0) + Elapses(es[1..])
  }

  /** A burst of calls leaves nothing run yet and only the last call's arguments pending. */
  lemma {:induction false} BurstArmsLast<A>(t: Timer<A>, args: seq<A>)
    requires |args| > 0
    ensures Run(t, Triggers(args)) == Timer(Some(args[|args| - 1]), t.executed)
    decreases |args|
  {
    var es := Triggers(args);
    assert es[1..] == Triggers(args[1..]);
    if |args| > 1 {
      BurstArmsLast(Step(t, es[0]), args[1..]);
    }
  }

  /** Calls in quick succession followed by one elapsed delay run the function exactly
      once, with the arguments of the last call, and leave nothing pending. */
  lemma BurstCoalesces<A>(t: Timer<A>, args: seq<A>)
    requires |args| > 0
    ensures Run(t, Triggers(args) + [Elapse]) == Timer(None, t.executed + [args[|args| - 1]])
  {
    RunAppend(t, Triggers(args), [Elapse]);
    BurstArmsLast(t, args);
  }

  /** Runs only ever append; each elapsed delay adds at most one run; and every argument
      that runs was passed to a call (or was already pending). */
  lemma {:induction false} OnlyCalledArgumentsRun<A>(t: Timer<A>, es: seq<Event<A>>)
    ensures var r := Run(t, es);
      && |t.executed| <= |r.executed| <= |t.executed| + Elapses(es)
      && r.executed[..|t.executed|] == t.executed
      && (forall x :: x in r.executed[|t.executed|..] ==> t.pending == Some(x) || Trigger(x) in es)
      && (r.pending.Some? ==> t.pending == r.pending || Trigger(r.pending.value) in es)
    decreases |es|
  {
    if es != [] {
      var t1 := Step(t, es[0]);
      OnlyCalledArgumentsRun(t1, es[1..]);
      var r := Run(t, es);
      assert r == Run(t1, es[1..]);
      assert t1.executed[..|t.executed|] == t.executed;
      assert r.executed[..|t.executed|] == t.executed by {
        assert r.executed[..|t1.executed|] == t1.executed;
      }
      forall x | x in r.executed[|t.executed|..]
        ensures t.pending == Some(x) || Trigger(x) in es
      {
        var i :| |t.executed| <= i < |r.executed| && r.executed[i] == x;
        if i >= |t1.executed| {
          assert x in r.executed[|t1.executed|..];
          assert t1.pending == Some(x) || Trigger(x) in es[1..];
        } else {
          assert t1.executed[i] == x;
        }
      }
    }
  }

  /** The most recent call's arguments are the ones pending. */
  lemma LatestCallPending<A>(t: Timer<A>, es: seq<Event<A>>, a: A)
    ensures Run(t, es + [Trigger(a)]) == Timer(Some(a), Run(t, es).executed)
  {
    RunAppend(t, es, [Trigger(a)]);
  }

  /** The closure `debounce(func, delay)` returns, with its captured `timeoutId`. */
  class Debouncer<A> {
    const delay: nat
    /** The armed timer and the arguments it will pass; None when no timer is pending. */
    var pending: Option<A>
    /** The arguments of every run of the wrapped function so far. */
    var executed: seq<A>

    function State(): Timer<A>
      reads this
    {
      Timer(pending, executed)
    }

    constructor (delay: nat)
      ensures this.delay == delay
      ensures State() == Timer(None, [])
    {
      this.delay := delay;
      pending := None;
      executed := [];
    }

    /** A call of the debounced function: clear the pending timeout, arm a new one. */
    method Call(args: A)
      modifies this
      ensures State() == Step(old(State()), Trigger(args))
      ensures pending == Some(args) && executed == old(executed)
    {
      if pending.Some? {
        pending := None;
      }
      pending := Some(args);
    }

    /** The delay of the armed timer has passed: the wrapped function runs. */
    method TimerElapsed()
      modifies this
      ensures State() == Step(old(State()), Elapse)
      ensures pending == None
    {
      if pending.Some? {
        executed := executed + [pending.value];
        pending := None;
      }
    }
  }
}
