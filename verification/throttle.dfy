/**
 * The leading- and trailing-edge throttle of src/utils.js.
 *
 * The closure state is `previous` (time of the last invocation) and `timeout`
 * (the handle of a pending timer, or none). Time is explicit: every call
 * carries its `now`, and the event loop's turns are `Tick(t)` events that run
 * a timer whose deadline has passed. The timers the throttle has handed to
 * setTimeout and not yet cleared or run are kept in `queue`, so that "at most
 * one timer is pending" is a property of the code rather than of the type.
 */
module Throttling {
  import opened Wrappers

  /** Where an invocation of the wrapped function came from. */
  datatype Source = Leading | Trailing(handle: nat)

  /** One call of the wrapped function: when, with which arguments, and why. */
  datatype Invocation<A> = Invocation(at: int, args: A, source: Source)

  /** A timer as the event loop holds it: its handle, when it is due, and the
      arguments its callback captured. */
  datatype Timer<A> = Timer(handle: nat, deadline: int, args: A)

  /** The closure variables plus this throttle's share of the event loop. */
  datatype State<A> = State(previous: int, timeout: Option<nat>, queue: seq<Timer<A>>, nextHandle: nat)

  /** The state after a step and the invocations the step made. */
  datatype Outcome<A> = Outcome(state: State<A>, invoked: seq<Invocation<A>>)

  datatype Event<A> = Invoke(now: int, args: A) | Tick(t: int) | Cancelled

  /** A fresh throttle: `timeout = null`, `previous = 0`. */
  function Initial<A>(): State<A> {
    State(0, None, [], 1)
  }

  function Remaining(wait: int, previous: int, now: int): int {
    wait - (now - previous)
  }

  /** A call fires at once exactly when it falls outside the window
      [previous, previous + wait): the window has elapsed or the clock went back. */
  function Immediate(wait: int, previous: int, now: int): (b: bool)
    ensures b <==> now < previous || previous + wait <= now
  {
    var remaining := Remaining(wait, previous, now);
    remaining <= 0 || remaining > wait
  }

  /** clearTimeout: the event loop drops the timer with this handle. */
  function ClearTimer<A>(queue: seq<Timer<A>>, handle: nat): (r: seq<Timer<A>>)
    ensures forall tm :: tm in r ==> tm in queue && tm.handle != handle
    ensures forall tm :: tm in queue && tm.handle != handle ==> tm in r
    ensures |r| <= |queue|
  {
    if queue == [] then []
    else if queue[0].handle == handle then ClearTimer(queue[1..], handle)
    else [queue[0]] + ClearTimer(queue[1..], handle)
  }

  /** The `throttled` call path. */
  function CallStep<A>(wait: int, s: State<A>, now: int, args: A): (o: Outcome<A>)
    ensures o.invoked != [] <==> Immediate(wait, s.previous, now)
    ensures Immediate(wait, s.previous, now) ==>
      && o.invoked == [Invocation(now, args, Leading)]
      && o.state.previous == now
      && o.state.timeout == None
      && o.state.nextHandle == s.nextHandle
      && (s.timeout.Some? ==> forall tm :: tm in o.state.queue ==> tm.handle != s.timeout.value)
      && (s.timeout.None? ==> o.state.queue == s.queue)
    ensures !Immediate(wait, s.previous, now) && s.timeout.Some? ==> o.state == s
    ensures !Immediate(wait, s.previous, now) && s.timeout.None? ==>
      && 0 < Remaining(wait, s.previous, now) <= wait
      && o.state.previous == s.previous
      && o.state.timeout == Some(s.nextHandle)
      && o.state.queue == s.queue + [Timer(s.nextHandle, s.previous + wait, args)]
      && o.state.nextHandle > s.nextHandle
  {
    var remaining := Remaining(wait, s.previous, now);
    if remaining <= 0 || remaining > wait then
      var queue := if s.timeout.Some? then ClearTimer(s.queue, s.timeout.value) else s.queue;
      Outcome(s.(previous := now, timeout := None, queue := queue), [Invocation(now, args, Leading)])
    else if s.timeout.None? then
      var timer := Timer(s.nextHandle, now + remaining, args);
      Outcome(s.(timeout := Some(s.nextHandle), queue := s.queue + [timer], nextHandle := s.nextHandle + 1), [])
    else
      Outcome(s, [])
  }

  /** The event loop has a timer of this throttle to run at time `t`. */
  predicate Due<A>(s: State<A>, t: int) {
    s.queue != [] && s.queue[0].deadline <= t
  }

  /** The setTimeout callback, run by the event loop at time `t`. */
  function FireStep<A>(s: State<A>, t: int): (o: Outcome<A>)
    requires Due(s, t)
    ensures o.invoked == [Invocation(t, s.queue[0].args, Trailing(s.queue[0].handle))]
    ensures o.state.previous == t && o.state.timeout == None
    ensures o.state.queue == s.queue[1..] && o.state.nextHandle == s.nextHandle
  {
    Outcome(State(t, None, s.queue[1..], s.nextHandle), [Invocation(t, s.queue[0].args, Trailing(s.queue[0].handle))])
  }

  /** `throttled.cancel`. */
  function CancelStep<A>(s: State<A>): (r: State<A>)
    ensures r.timeout == None && r.previous == s.previous && r.nextHandle == s.nextHandle
    ensures s.timeout.Some? ==> forall tm :: tm in r.queue ==> tm.handle != s.timeout.value
    ensures s.timeout.None? ==> r == s
  {
    if s.timeout.Some? then s.(queue := ClearTimer(s.queue, s.timeout.value), timeout := None) else s
  }

  function Step<A>(wait: int, s: State<A>, e: Event<A>): Outcome<A> {
    match e
    case Invoke(now, args) => CallStep(wait, s, now, args)
    case Tick(t) => if Due(s, t) then FireStep(s, t) else Outcome(s, [])
    case Cancelled => Outcome(CancelStep(s), [])
  }

  /** Steps taken one after another from `s`, collecting what they invoke. */
  function Fold<A>(step: (State<A>, Event<A>) -> Outcome<A>, s: State<A>, events: seq<Event<A>>): Outcome<A>
    decreases |events|
  {
    if events == [] then Outcome(s, [])
    else
      var first := step(s, events[0]);
      var rest := Fold(step, first.state, events[1..]);
      Outcome(rest.state, first.invoked + rest.invoked)
  }

  /** The throttle's run over a sequence of events. */
  function Run<A>(wait: int, s: State<A>, events: seq<Event<A>>): Outcome<A> {
    Fold((st, e) => Step(wait, st, e), s, events)
  }

  /** At most one timer is pending; `timeout` is its handle; it is due at
      `previous + wait`; its handle is older than any handle to come. */
  ghost predicate Invariant<A>(wait: int, s: State<A>) {
    && |s.queue| <= 1
    && (s.timeout == None <==> s.queue == [])
    && (s.queue != [] ==>
          && s.timeout == Some(s.queue[0].handle)
          && s.queue[0].handle < s.nextHandle
          && s.queue[0].deadline == s.previous + wait)
  }

  lemma InitialInvariant<A>(wait: int)
    ensures Invariant(wait, Initial<A>())
  {
  }

  lemma StepPreservesInvariant<A>(wait: int, s: State<A>, e: Event<A>)
    requires Invariant(wait, s)
    ensures Invariant(wait, Step(wait, s, e).state)
    ensures Step(wait, s, e).state.nextHandle >= s.nextHandle
  {
  }

  lemma {:induction false} RunPreservesInvariant<A>(wait: int, s: State<A>, events: seq<Event<A>>)
    requires Invariant(wait, s)
    ensures Invariant(wait, Run(wait, s, events).state)
    ensures Run(wait, s, events).state.nextHandle >= s.nextHandle
    decreases |events|
  {
    if events != [] {
      StepPreservesInvariant(wait, s, events[0]);
      RunPreservesInvariant(wait, Step(wait, s, events[0]).state, events[1..]);
    }
  }

  /** A run is its first step followed by the run of the rest. */
  lemma RunFirst<A>(wait: int, s: State<A>, events: seq<Event<A>>)
    requires events != []
    ensures var first := Step(wait, s, events[0]);
      && Run(wait, s, events).state == Run(wait, first.state, events[1..]).state
      && Run(wait, s, events).invoked == first.invoked + Run(wait, first.state, events[1..]).invoked
  {
  }

  /** Folding two event sequences one after the other is folding their concatenation. */
  lemma {:induction false} FoldAppend<A>(step: (State<A>, Event<A>) -> Outcome<A>, s: State<A>, xs: seq<Event<A>>, ys: seq<Event<A>>)
    ensures Fold(step, s, xs + ys).state == Fold(step, Fold(step, s, xs).state, ys).state
    ensures Fold(step, s, xs + ys).invoked == Fold(step, s, xs).invoked + Fold(step, Fold(step, s, xs).state, ys).invoked
    decreases |xs|
  {
    if xs == [] {
      assert xs + ys == ys;
    } else {
      assert (xs + ys)[0] == xs[0];
      assert (xs + ys)[1..] == xs[1..] + ys;
      FoldAppend(step, step(s, xs[0]).state, xs[1..], ys);
    }
  }

  /** Running two event sequences one after the other is running their concatenation. */
  lemma RunAppend<A>(wait: int, s: State<A>, xs: seq<Event<A>>, ys: seq<Event<A>>)
    ensures Run(wait, s, xs + ys).state == Run(wait, Run(wait, s, xs).state, ys).state
    ensures Run(wait, s, xs + ys).invoked == Run(wait, s, xs).invoked + Run(wait, Run(wait, s, xs).state, ys).invoked
  {
    FoldAppend((st, e) => Step(wait, st, e), s, xs, ys);
  }

  /** A timer whose handle was issued and is no longer queued never runs again. */
  lemma {:induction false} ClearedTimerNeverFires<A>(wait: int, s: State<A>, events: seq<Event<A>>, h: nat)
    requires Invariant(wait, s)
    requires h < s.nextHandle
    requires forall tm :: tm in s.queue ==> tm.handle != h
    ensures forall inv :: inv in Run(wait, s, events).invoked ==> inv.source != Trailing(h)
    decreases |events|
  {
    if events != [] {
      var first := Step(wait, s, events[0]);
      StepPreservesInvariant(wait, s, events[0]);
      assert forall tm :: tm in first.state.queue ==> tm.handle != h by {
        match events[0]
        case Invoke(now, args) =>
        case Tick(t) =>
          if Due(s, t) { assert forall tm :: tm in s.queue[1..] ==> tm in s.queue; }
        case Cancelled =>
      }
      assert forall inv :: inv in first.invoked ==> inv.source != Trailing(h) by {
        if events[0].Tick? && Due(s, events[0].t) { assert s.queue[0] in s.queue; }
      }
      ClearedTimerNeverFires(wait, first.state, events[1..], h);
    }
  }

  /** A call that fires at once discards the trailing call pending before it:
      that timer never runs, whatever happens afterwards. */
  lemma LeadingCallDiscardsPending<A>(wait: int, s: State<A>, now: int, args: A, later: seq<Event<A>>)
    requires Invariant(wait, s)
    requires s.timeout.Some?
    requires Immediate(wait, s.previous, now)
    ensures CallStep(wait, s, now, args).state.queue == []
    ensures forall inv :: inv in Run(wait, s, [Invoke(now, args)] + later).invoked ==>
              inv.source != Trailing(s.timeout.value)
  {
    var h := s.timeout.value;
    var first := CallStep(wait, s, now, args);
    StepPreservesInvariant(wait, s, Invoke(now, args));
    assert first.state.queue == [];
    ClearedTimerNeverFires(wait, first.state, later, h);
    assert ([Invoke(now, args)] + later)[1..] == later;
  }

  /** Cancelling twice is cancelling once. */
  lemma CancelIdempotent<A>(s: State<A>)
    ensures CancelStep(CancelStep(s)) == CancelStep(s)
  {
  }

  /** Events that fall inside the window [p, p + wait), with no cancel among them. */
  predicate InWindow<A>(e: Event<A>, p: int, wait: int) {
    match e
    case Invoke(now, _) => p <= now < p + wait
    case Tick(t) => p <= t < p + wait
    case Cancelled => false
  }

  /** The arguments of the first call in a sequence of events, if there is one. */
  function FirstCall<A>(events: seq<Event<A>>): Option<A> {
    if events == [] then None
    else if events[0].Invoke? then Some(events[0].args)
    else FirstCall(events[1..])
  }

  /** Inside the window nothing is invoked and `previous` stays put; the one
      pending timer is the one that was pending before, or else the one the
      first call of the burst scheduled, carrying that call's arguments. */
  lemma {:induction false} QuietWindow<A>(wait: int, s: State<A>, burst: seq<Event<A>>)
    requires Invariant(wait, s)
    requires forall i :: 0 <= i < |burst| ==> InWindow(burst[i], s.previous, wait)
    ensures Run(wait, s, burst).invoked == []
    ensures Run(wait, s, burst).state.previous == s.previous
    ensures Invariant(wait, Run(wait, s, burst).state)
    ensures s.queue != [] ==> Run(wait, s, burst).state.queue == s.queue
    ensures s.queue == [] && FirstCall(burst).None? ==> Run(wait, s, burst).state.queue == []
    ensures s.queue == [] && FirstCall(burst).Some? ==>
      Run(wait, s, burst).state.queue == [Timer(s.nextHandle, s.previous + wait, FirstCall(burst).value)]
    decreases |burst|
  {
    if burst != [] {
      var first := Step(wait, s, burst[0]);
      assert InWindow(burst[0], s.previous, wait);
      StepPreservesInvariant(wait, s, burst[0]);
      assert first.invoked == [] && first.state.previous == s.previous;
      assert forall i :: 0 <= i < |burst[1..]| ==> InWindow(burst[1..][i], s.previous, wait) by {
        forall i | 0 <= i < |burst[1..]| ensures InWindow(burst[1..][i], s.previous, wait) {
          assert burst[1..][i] == burst[i + 1];
        }
      }
      QuietWindow(wait, first.state, burst[1..]);
    }
  }

  /** Event-loop turns alone run at most the one pending timer, with its
      arguments, and not before its deadline. */
  lemma {:induction false} TicksFireAtMostOnce<A>(wait: int, s: State<A>, ticks: seq<Event<A>>)
    requires Invariant(wait, s)
    requires forall i :: 0 <= i < |ticks| ==> ticks[i].Tick?
    ensures var o := Run(wait, s, ticks);
      && |o.invoked| <= |s.queue|
      && forall inv :: inv in o.invoked ==>
           && inv.args == s.queue[0].args
           && inv.source == Trailing(s.queue[0].handle)
           && inv.at >= s.queue[0].deadline
    decreases |ticks|
  {
    if ticks != [] {
      var first := Step(wait, s, ticks[0]);
      StepPreservesInvariant(wait, s, ticks[0]);
      assert forall i :: 0 <= i < |ticks[1..]| ==> ticks[1..][i].Tick? by {
        forall i | 0 <= i < |ticks[1..]| ensures ticks[1..][i].Tick? {
          assert ticks[1..][i] == ticks[i + 1];
        }
      }
      TicksFireAtMostOnce(wait, first.state, ticks[1..]);
      if Due(s, ticks[0].t) {
        assert first.state.queue == [];
      } else {
        assert first.state == s;
      }
    }
  }

  /** A call at `p` that fires at once, then a burst inside [p, p + wait):
      one leading invocation, and at most the one timer the burst's first call
      scheduled, due when the window closes. */
  lemma LeadThenWindow<A>(wait: int, s: State<A>, p: int, a: A, burst: seq<Event<A>>)
    requires Invariant(wait, s)
    requires Immediate(wait, s.previous, p)
    requires forall i :: 0 <= i < |burst| ==> InWindow(burst[i], p, wait)
    ensures Run(wait, s, [Invoke(p, a)] + burst).invoked == [Invocation(p, a, Leading)]
    ensures Run(wait, s, [Invoke(p, a)] + burst).state.previous == p
    ensures Invariant(wait, Run(wait, s, [Invoke(p, a)] + burst).state)
    ensures FirstCall(burst).None? ==> Run(wait, s, [Invoke(p, a)] + burst).state.queue == []
    ensures FirstCall(burst).Some? ==>
      Run(wait, s, [Invoke(p, a)] + burst).state.queue == [Timer(s.nextHandle, p + wait, FirstCall(burst).value)]
  {
    var events := [Invoke(p, a)] + burst;
    assert events[0] == Invoke(p, a) && events[1..] == burst;
    RunFirst(wait, s, events);
    var lead := Step(wait, s, Invoke(p, a));
    StepPreservesInvariant(wait, s, Invoke(p, a));
    assert lead.state.queue == [] && lead.state.nextHandle == s.nextHandle && lead.state.previous == p;
    QuietWindow(wait, lead.state, burst);
  }

  /**
   * The rate-limiting contract. A call at `p` that fires at once, followed by
   * any burst of calls and event-loop turns inside the window [p, p + wait),
   * followed by any number of event-loop turns, invokes the wrapped function
   * at most twice, however long the burst: once at `p` with the first call's
   * arguments, and at most once more, as the trailing call, once the window
   * has elapsed, with the arguments of the first call of the burst.
   */
  lemma BurstInvokesAtMostTwice<A>(wait: int, s: State<A>, p: int, a: A, burst: seq<Event<A>>, ticks: seq<Event<A>>)
    requires Invariant(wait, s)
    requires Immediate(wait, s.previous, p)
    requires forall i :: 0 <= i < |burst| ==> InWindow(burst[i], p, wait)
    requires forall i :: 0 <= i < |ticks| ==> ticks[i].Tick?
    ensures var o := Run(wait, s, [Invoke(p, a)] + burst + ticks);
      && 1 <= |o.invoked| <= 2
      && o.invoked[0] == Invocation(p, a, Leading)
      && (|o.invoked| == 2 ==>
            && o.invoked[1].source.Trailing?
            && FirstCall(burst) == Some(o.invoked[1].args)
            && o.invoked[1].at >= p + wait)
  {
    LeadThenWindow(wait, s, p, a, burst);
    var mid := Run(wait, s, [Invoke(p, a)] + burst);
    TicksFireAtMostOnce(wait, mid.state, ticks);
    var tail := Run(wait, mid.state, ticks);
    RunAppend(wait, s, [Invoke(p, a)] + burst, ticks);
    var o := Run(wait, s, [Invoke(p, a)] + burst + ticks);
    assert o.invoked == [Invocation(p, a, Leading)] + tail.invoked;
    if |o.invoked| == 2 {
      assert tail.invoked[0] in tail.invoked;
    }
  }

  /** A burst containing a call is coalesced into exactly one trailing
      invocation: the first event-loop turn at or after `p + wait` runs it,
      at that turn's time, with the arguments of the burst's first call. */
  lemma BurstThenExpiryInvokesTwice<A>(wait: int, s: State<A>, p: int, a: A, burst: seq<Event<A>>, t: int)
    requires Invariant(wait, s)
    requires Immediate(wait, s.previous, p)
    requires forall i :: 0 <= i < |burst| ==> InWindow(burst[i], p, wait)
    requires FirstCall(burst).Some?
    requires p + wait <= t
    ensures Run(wait, s, [Invoke(p, a)] + burst + [Tick(t)]).invoked ==
      [Invocation(p, a, Leading), Invocation(t, FirstCall(burst).value, Trailing(s.nextHandle))]
  {
    LeadThenWindow(wait, s, p, a, burst);
    var mid := Run(wait, s, [Invoke(p, a)] + burst);
    assert Due(mid.state, t);
    var fired := FireStep(mid.state, t);
    var last: seq<Event<A>> := [Tick(t)];
    assert Run(wait, mid.state, last).invoked == fired.invoked by {
      assert last[1..] == [];
      RunFirst(wait, mid.state, last);
    }
    RunAppend(wait, s, [Invoke(p, a)] + burst, last);
  }

  /**
   * The throttled wrapper. `previous` and `timeout` are the closure variables
   * of src/utils.js; `queue` and `nextHandle` are what the event loop holds
   * for this throttle (the timers it was handed, and the next handle it will
   * issue); `invocations` records every call of the wrapped function.
   */
  class Throttle<A> {
    const wait: int
    var previous: int
    var timeout: Option<nat>
    var queue: seq<Timer<A>>
    var nextHandle: nat
    ghost var invocations: seq<Invocation<A>>

    ghost function Current(): State<A>
      reads this
    {
      State(previous, timeout, queue, nextHandle)
    }

    ghost predicate Valid()
      reads this
    {
      Invariant(wait, Current())
    }

    constructor (wait: int)
      ensures this.wait == wait && Valid()
      ensures Current() == Initial() && invocations == []
    {
      this.wait := wait;
      previous := 0;
      timeout := None;
      queue := [];
      nextHandle := 1;
      invocations := [];
    }

    /** One call of the throttled function at time `now`. */
    method Call(now: int, args: A)
      requires Valid()
      modifies this
      ensures Valid()
      ensures Current() == CallStep(wait, old(Current()), now, args).state
      ensures invocations == old(invocations) + CallStep(wait, old(Current()), now, args).invoked
    {
      StepPreservesInvariant(wait, Current(), Invoke(now, args));
      var remaining := wait - (now - previous);
      if remaining <= 0 || remaining > wait {
        if timeout.Some? {
          queue := ClearTimer(queue, timeout.value);
          timeout := None;
        }
        previous := now;
        invocations := invocations + [Invocation(now, args, Leading)];
      } else if timeout.None? {
        queue := queue + [Timer(nextHandle, now + remaining, args)];
        timeout := Some(nextHandle);
        nextHandle := nextHandle + 1;
      }
    }

    /** The event loop runs the pending timer's callback at time `t`. */
    method Fire(t: int)
      requires Valid() && Due(Current(), t)
      modifies this
      ensures Valid()
      ensures Current() == FireStep(old(Current()), t).state
      ensures invocations == old(invocations) + FireStep(old(Current()), t).invoked
    {
      StepPreservesInvariant(wait, Current(), Tick(t));
      var timer := queue[0];
      queue := queue[1..];
      previous := t;
      timeout := None;
      invocations := invocations + [Invocation(t, timer.args, Trailing(timer.handle))];
    }

    /** `throttled.cancel()`. */
    method Cancel()
      requires Valid()
      modifies this
      ensures Valid()
      ensures Current() == CancelStep(old(Current()))
      ensures invocations == old(invocations)
    {
      StepPreservesInvariant(wait, Current(), Cancelled);
      if timeout.Some? {
        queue := ClearTimer(queue, timeout.value);
        timeout := None;
      }
    }
  }
}
