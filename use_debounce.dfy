/** The debounce hook: a settled copy of a value that catches up with it once
    the value, the delay and the callback have stayed the same for the delay.
    The hook's effect schedules one timer per run of its dependencies and
    cancels it when they change or the component goes away. Time is a
    discrete clock; callbacks are known by identity. */
module Debounce {
  import opened Types

  /** The delay when none is given (`delay ?? 500`). */
  const DefaultDelay: nat := 500

  function DelayOf(delay: Maybe<nat>): nat {
    delay.GetOr(DefaultDelay)
  }

  /** The effect's dependency list `[value, delay, callback]`. */
  datatype Deps<T> = Deps(value: T, delay: Maybe<nat>, callback: Maybe<nat>)

  /** A scheduled `setTimeout`: what it will settle, when, and whom it calls. */
  datatype Timer<T> = Timer(value: T, deadline: nat, callback: Maybe<nat>)

  /** One invocation of a callback. */
  datatype Call<T> = Call(callback: nat, value: T)

  /** The hook's state: the clock, the settled value (`debouncedValue`), the
      single pending timer, the dependencies of the last effect run, whether
      the component is mounted, and every callback invocation so far. */
  datatype State<T> = State(
    clock: nat,
    settled: T,
    pending: Maybe<Timer<T>>,
    deps: Deps<T>,
    mounted: bool,
    calls: seq<Call<T>>)

  /** What the hook keeps true: a pending timer belongs to the current
      dependencies and runs out within one delay from now; with nothing
      pending, a mounted hook has caught up with its value. */
  ghost predicate Consistent<T>(s: State<T>) {
    && (s.pending.Present? ==>
          && s.mounted
          && s.pending.value.value == s.deps.value
          && s.pending.value.callback == s.deps.callback
          && s.clock <= s.pending.value.deadline <= s.clock + DelayOf(s.deps.delay))
    && (s.mounted && s.pending.Absent? ==> s.settled == s.deps.value)
  }

  /** The timer the effect schedules at time `now` for `deps`. */
  function Schedule<T>(now: nat, deps: Deps<T>): Timer<T> {
    Timer(deps.value, now + DelayOf(deps.delay), deps.callback)
  }

  /** The calls a firing timer makes: one, to its callback, if it has one. */
  function Invoked<T>(t: Timer<T>): seq<Call<T>> {
    match t.callback
    case Absent => []
    case Present(c) => [Call(c, t.value)]
  }

  /** Mounting at time `now`: the settled value starts as the value, and the
      first effect run schedules a timer. */
  function AfterMount<T>(value: T, delay: Maybe<nat>, callback: Maybe<nat>, now: nat): (s: State<T>)
    ensures Consistent(s)
    ensures s.settled == value && s.calls == [] && s.mounted
    ensures s.pending == Present(Timer(value, now + DelayOf(delay), callback))
  {
    var deps := Deps(value, delay, callback);
    State(now, value, Present(Schedule(now, deps)), deps, true, [])
  }

  /** The clock moves to `now`; a timer due by then fires. */
  function AfterTick<T>(s: State<T>, now: nat): (r: State<T>)
    requires s.clock <= now
    ensures Consistent(s) ==> Consistent(r)
    ensures r.clock == now && r.deps == s.deps && r.mounted == s.mounted
  {
    match s.pending
    case Present(t) =>
      if t.deadline <= now then
        s.(clock := now, settled := t.value, pending := Absent, calls := s.calls + Invoked(t))
      else s.(clock := now)
    case Absent => s.(clock := now)
  }

  /** A re-render with these dependencies. Only a change of one of them
      re-runs the effect, whose cleanup cancels the pending timer before a new
      one is scheduled. An unmounted hook is never rendered again. */
  function AfterChange<T(==)>(s: State<T>, value: T, delay: Maybe<nat>, callback: Maybe<nat>): (r: State<T>)
    ensures Consistent(s) ==> Consistent(r)
    ensures r.clock == s.clock && r.settled == s.settled && r.calls == s.calls && r.mounted == s.mounted
    ensures s.mounted && Deps(value, delay, callback) != s.deps ==>
      r.deps == Deps(value, delay, callback) && r.pending == Present(Schedule(s.clock, r.deps))
    ensures !s.mounted || Deps(value, delay, callback) == s.deps ==> r == s
  {
    var deps := Deps(value, delay, callback);
    if !s.mounted || deps == s.deps then s
    else s.(deps := deps, pending := Present(Schedule(s.clock, deps)))
  }

  /** Unmounting: the effect's cleanup cancels the pending timer. */
  function AfterTeardown<T>(s: State<T>): (r: State<T>)
    ensures Consistent(r)
    ensures r.pending.Absent? && !r.mounted
    ensures r.settled == s.settled && r.calls == s.calls && r.clock == s.clock
  {
    s.(pending := Absent, mounted := false)
  }

  /** Something that happens to a mounted hook. */
  datatype Event<T> =
    | Render(value: T, delay: Maybe<nat>, callback: Maybe<nat>)  // a re-render
    | Elapse(dt: nat)                                            // the clock moves on by dt
    | Unmount                                                    // the component goes away

  function Step<T(==)>(s: State<T>, e: Event<T>): State<T> {
    match e
    case Render(v, d, c) => AfterChange(s, v, d, c)
    case Elapse(dt) => AfterTick(s, s.clock + dt)
    case Unmount => AfterTeardown(s)
  }

  function Run<T(==)>(s: State<T>, events: seq<Event<T>>): State<T>
    decreases |events|
  {
    if events == [] then s else Run(Step(s, events[0]), events[1..])
  }

  /** Before its deadline a pending timer does nothing. */
  lemma BeforeDeadline<T>(s: State<T>, now: nat)
    requires s.clock <= now && s.pending.Present? && now < s.pending.value.deadline
    ensures AfterTick(s, now) == s.(clock := now)
  {
  }

  /** When the timer fires, the settled value becomes the value it was
      scheduled with, and its callback receives that same value, once. */
  lemma Fires<T>(s: State<T>, now: nat)
    requires s.clock <= now && s.pending.Present? && s.pending.value.deadline <= now
    ensures AfterTick(s, now).settled == s.pending.value.value
    ensures AfterTick(s, now).calls == s.calls + Invoked(s.pending.value)
    ensures AfterTick(s, now).pending.Absent?
  {
  }

  /** Even without any change, the timer of the first effect run fires after
      the delay and calls the callback with the initial value. */
  lemma MountFires<T>(value: T, delay: Maybe<nat>, callback: nat, now: nat)
    ensures AfterTick(AfterMount(value, delay, Present(callback), now), now + DelayOf(delay)).calls
      == [Call(callback, value)]
    ensures AfterTick(AfterMount(value, delay, Present(callback), now), now + DelayOf(delay)).settled
      == value
  {
  }

  /** With no further change, the settled value has caught up with the value
      one delay from now. */
  lemma Converges<T>(s: State<T>)
    requires Consistent(s) && s.mounted
    ensures AfterTick(s, s.clock + DelayOf(s.deps.delay)).settled == s.deps.value
  {
  }

  /** Nothing fires after teardown, whatever happens next. */
  lemma {:induction false} SilentAfterTeardown<T>(s: State<T>, events: seq<Event<T>>)
    ensures Run(AfterTeardown(s), events).calls == s.calls
    ensures Run(AfterTeardown(s), events).settled == s.settled
  {
    Silent(AfterTeardown(s), events);
  }

  lemma {:induction false} Silent<T>(s: State<T>, events: seq<Event<T>>)
    requires !s.mounted && s.pending.Absent?
    ensures Run(s, events).calls == s.calls && Run(s, events).settled == s.settled
    ensures !Run(s, events).mounted && Run(s, events).pending.Absent?
    decreases |events|
  {
    if events != [] {
      Silent(Step(s, events[0]), events[1..]);
    }
  }

  /** A burst: the values arrive one after the other, each `gaps[i]` after
      the one before, with the same delay and callback. */
  function Burst<T>(values: seq<T>, gaps: seq<nat>, delay: Maybe<nat>, callback: Maybe<nat>): (r: seq<Event<T>>)
    requires |gaps| == |values|
    ensures |r| == 2 * |values|
    decreases |values|
  {
    if values == [] then []
    else [Elapse(gaps[0]), Render(values[0], delay, callback)] + Burst(values[1..], gaps[1..], delay, callback)
  }

  /** A burst of changes, each closer to the one before than the delay,
      settles nothing and calls nobody while it lasts; afterwards exactly one
      timer is pending, for the last value, one delay after it. */
  lemma {:induction false} BurstDefers<T>(
    s: State<T>, values: seq<T>, gaps: seq<nat>, delay: Maybe<nat>, callback: Maybe<nat>)
    requires Consistent(s) && s.mounted && s.deps.delay == delay && s.deps.callback == callback
    requires |values| == |gaps| > 0
    requires s.pending.Present? ==> s.clock + gaps[0] < s.pending.value.deadline
    requires values[0] != s.deps.value
    requires forall i :: 0 < i < |values| ==> values[i] != values[i - 1] && gaps[i] < DelayOf(delay)
    ensures Run(s, Burst(values, gaps, delay, callback)).settled == s.settled
    ensures Run(s, Burst(values, gaps, delay, callback)).calls == s.calls
    ensures Run(s, Burst(values, gaps, delay, callback)).pending
      == Present(Timer(values[|values| - 1], Run(s, Burst(values, gaps, delay, callback)).clock + DelayOf(delay), callback))
    ensures Run(s, Burst(values, gaps, delay, callback)).deps.value == values[|values| - 1]
    decreases |values|
  {
    var events := Burst(values, gaps, delay, callback);
    var t := AfterTick(s, s.clock + gaps[0]);
    var u := AfterChange(t, values[0], delay, callback);
    assert Run(s, events) == Run(u, Burst(values[1..], gaps[1..], delay, callback)) by {
      assert events[0] == Elapse(gaps[0]) && events[1] == Render(values[0], delay, callback);
      assert events[2..] == Burst(values[1..], gaps[1..], delay, callback);
    }
    assert u.pending == Present(Timer(values[0], u.clock + DelayOf(delay), callback));
    if |values| > 1 {
      BurstDefers(u, values[1..], gaps[1..], delay, callback);
    }
  }

  /** After the burst, one delay of quiet settles the last value and calls the
      callback once, with that value. */
  lemma {:induction false} BurstSettlesLast<T>(
    s: State<T>, values: seq<T>, gaps: seq<nat>, delay: Maybe<nat>, callback: nat)
    requires Consistent(s) && s.mounted && s.deps.delay == delay && s.deps.callback == Present(callback)
    requires |values| == |gaps| > 0
    requires s.pending.Present? ==> s.clock + gaps[0] < s.pending.value.deadline
    requires values[0] != s.deps.value
    requires forall i :: 0 < i < |values| ==> values[i] != values[i - 1] && gaps[i] < DelayOf(delay)
    ensures Run(s, Burst(values, gaps, delay, Present(callback)) + [Elapse(DelayOf(delay))]).settled
      == values[|values| - 1]
    ensures Run(s, Burst(values, gaps, delay, Present(callback)) + [Elapse(DelayOf(delay))]).calls
      == s.calls + [Call(callback, values[|values| - 1])]
  {
    var events := Burst(values, gaps, delay, Present(callback));
    BurstDefers(s, values, gaps, delay, Present(callback));
    RunAppend(s, events, [Elapse(DelayOf(delay))]);
  }

  /** Changing only the delay replaces a pending timer: the new one runs out
      one new delay from now, and until then nothing settles and nobody is
      called, even past the deadline the old timer had. */
  lemma DelayChangeRestarts<T>(s: State<T>, delay: Maybe<nat>, now: nat)
    requires Consistent(s) && s.mounted && delay != s.deps.delay
    requires s.clock <= now < s.clock + DelayOf(delay)
    ensures AfterChange(s, s.deps.value, delay, s.deps.callback).pending
      == Present(Timer(s.deps.value, s.clock + DelayOf(delay), s.deps.callback))
    ensures AfterTick(AfterChange(s, s.deps.value, delay, s.deps.callback), now).settled == s.settled
    ensures AfterTick(AfterChange(s, s.deps.value, delay, s.deps.callback), now).calls == s.calls
  {
  }

  /** Changing only the callback hands the pending value to the new
      callback: one delay from now the new callback is called with the
      value, and the old one is not called. */
  lemma CallbackChangeRedirects<T>(s: State<T>, callback: nat)
    requires Consistent(s) && s.mounted && Present(callback) != s.deps.callback
    ensures AfterTick(AfterChange(s, s.deps.value, s.deps.delay, Present(callback)),
                      s.clock + DelayOf(s.deps.delay)).calls
      == s.calls + [Call(callback, s.deps.value)]
  {
  }

  lemma {:induction false} RunAppend<T>(s: State<T>, a: seq<Event<T>>, b: seq<Event<T>>)
    ensures Run(s, a + b) == Run(Run(s, a), b)
    decreases |a|
  {
    if a == [] {
      assert a + b == b;
    } else {
      assert (a + b)[0] == a[0] && (a + b)[1..] == a[1..] + b;
      RunAppend(Step(s, a[0]), a[1..], b);
    }
  }

  /** The hook's state cells, updated in place by its events. */
  class Debouncer<T(==)> {
    var clock: nat
    var settled: T
    var pending: Maybe<Timer<T>>
    var deps: Deps<T>
    var mounted: bool
    var calls: seq<Call<T>>

    function Model(): State<T>
      reads this
    {
      State(clock, settled, pending, deps, mounted, calls)
    }

    ghost predicate Valid()
      reads this
    {
      Consistent(Model())
    }

    /** The first render at time `now`. */
    constructor(value: T, delay: Maybe<nat>, callback: Maybe<nat>, now: nat)
      ensures Model() == AfterMount(value, delay, callback, now) && Valid()
    {
      clock := now;
      settled := value;
      deps := Deps(value, delay, callback);
      pending := Present(Schedule(now, Deps(value, delay, callback)));
      mounted := true;
      calls := [];
    }

    /** A re-render with these dependencies (`Change`). */
    method Change(value: T, delay: Maybe<nat>, callback: Maybe<nat>)
      requires Valid()
      modifies this
      ensures Model() == AfterChange(old(Model()), value, delay, callback) && Valid()
    {
      if mounted && Deps(value, delay, callback) != deps {
        // the effect's cleanup, then the next effect run
        pending := Absent;
        deps := Deps(value, delay, callback);
        pending := Present(Schedule(clock, deps));
      }
    }

    /** The clock moves to `now`, and a due timer fires. */
    method Tick(now: nat)
      requires Valid() && clock <= now
      modifies this
      ensures Model() == AfterTick(old(Model()), now) && Valid()
    {
      clock := now;
      if pending.Present? && pending.value.deadline <= now {
        var t := pending.value;
        settled := t.value;
        if t.callback.Present? {
          calls := calls + [Call(t.callback.value, t.value)];
        }
        pending := Absent;
      }
    }

    /** The component unmounts. */
    method Teardown()
      modifies this
      ensures Model() == AfterTeardown(old(Model())) && Valid()
    {
      pending := Absent;
      mounted := false;
    }
  }
}
