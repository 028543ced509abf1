/** The debounced text input: a live value that follows every keystroke, a
    settled copy of it from the debounce hook, and an effect that mirrors the
    settled value into the URL's query string once it has caught up. */
module DebouncedInput {
  import opened Types
  import opened SearchParams
  import opened Debounce

  /** The component's own default for `debounceMs`. */
  const DefaultDebounceMs: nat := 500

  /** The initial live value, `value ?? searchParams.get(queryKey ?? "") ?? ""`:
      the `value` prop if given, else the query parameter, else "". With no
      `queryKey` the parameter read is the one whose name is "". */
  function InitialValue(value: Maybe<string>, queryKey: Maybe<string>, params: Params): (r: string)
    ensures value.Present? ==> r == value.value
    ensures value.Absent? ==> r == Get(params, queryKey.GetOr("")).GetOr("")
    ensures value.Absent? && !Has(params, queryKey.GetOr("")) ==> r == ""
    ensures value.Absent? ==> forall i ::
      (0 <= i < |params| && params[i].name == queryKey.GetOr("") && !Has(params[..i], queryKey.GetOr("")))
      ==> r == params[i].value
  {
    var fromQuery := Get(params, queryKey.GetOr(""));
    forall i | value.Absent? && 0 <= i < |params| && params[i].name == queryKey.GetOr("")
      && !Has(params[..i], queryKey.GetOr(""))
      ensures fromQuery == Present(params[i].value)
    {
      GetAt(params, queryKey.GetOr(""), i);
    }
    value.GetOr(fromQuery.GetOr(""))
  }

  /** The mirror is on: `queryKey` is truthy, so neither missing nor "". */
  predicate Mirrors(queryKey: Maybe<string>) {
    queryKey.Present? && queryKey.value != ""
  }

  /** The query parameters the mirror effect builds from the current ones, or
      nothing when it returns early: without a key, and while the settled
      value still differs from the live one. A non-empty settled value is
      `set` under the key; an empty one `delete`s it. */
  function Mirror(queryKey: Maybe<string>, live: string, settled: string, params: Params): (r: Maybe<Params>)
    ensures r.Present? <==> Mirrors(queryKey) && settled == live
  {
    if !Mirrors(queryKey) then Absent
    else if settled != live then Absent
    else if settled != "" then Present(Set(params, queryKey.value, settled))
    else Present(Delete(params, queryKey.value))
  }

  /** The navigation the effect asks for: `router.replace` runs only inside
      `startTransition`, so nothing is asked for when it is not supplied. */
  function Request(queryKey: Maybe<string>, live: string, settled: string, params: Params, hasTransition: bool): Maybe<Params> {
    if hasTransition then Mirror(queryKey, live, settled, params) else Absent
  }

  function AsSeq<T>(m: Maybe<T>): seq<T> {
    match m
    case Absent => []
    case Present(v) => [v]
  }

  /** `!queryKey` holds of the empty key as well as of a missing one: both
      turn the mirror off, and every other key mirrors a caught-up value. */
  lemma FalsyKeyDisablesMirror(live: string, settled: string, params: Params)
    ensures Mirror(Absent, live, settled, params) == Absent
    ensures Mirror(Present(""), live, settled, params) == Absent
    ensures forall key :: key != "" ==> Mirror(Present(key), live, live, params).Present?
  {
  }

  /** A settled, non-empty value ends up as the one pair under the key. */
  lemma MirrorSets(key: string, value: string, params: Params)
    requires key != "" && value != ""
    ensures Mirror(Present(key), value, value, params).Present?
    ensures Get(Mirror(Present(key), value, value, params).value, key) == Present(value)
    ensures Count(Mirror(Present(key), value, value, params).value, key) == 1
  {
    SetGet(params, key, value);
    SetCount(params, key, value);
  }

  /** A settled, empty value leaves no pair under the key. */
  lemma MirrorDeletes(key: string, params: Params)
    requires key != ""
    ensures Mirror(Present(key), "", "", params).Present?
    ensures !Has(Mirror(Present(key), "", "", params).value, key)
  {
  }

  /** The mirror never touches another parameter: the pairs under other names
      keep their values and their order. */
  lemma MirrorIsolated(queryKey: Maybe<string>, live: string, settled: string, params: Params)
    requires Mirror(queryKey, live, settled, params).Present?
    ensures Delete(Mirror(queryKey, live, settled, params).value, queryKey.value) == Delete(params, queryKey.value)
    ensures forall other :: other != queryKey.value ==>
      Get(Mirror(queryKey, live, settled, params).value, other) == Get(params, other)
  {
    var key := queryKey.value;
    if settled != "" {
      DeleteSetAt(params, key, settled);
      forall other | other != key
        ensures Get(Set(params, key, settled), other) == Get(params, other)
      {
        SetKeepsOthers(params, key, settled, other);
      }
    } else {
      DeleteIdempotent(params, key);
      forall other | other != key
        ensures Get(Delete(params, key), other) == Get(params, other)
      {
        DeleteKeepsOthers(params, key, other);
      }
    }
  }

  /** Mirroring the same settled value again changes nothing. */
  lemma MirrorIdempotent(queryKey: Maybe<string>, live: string, settled: string, params: Params)
    requires Mirror(queryKey, live, settled, params).Present?
    ensures Mirror(queryKey, live, settled, Mirror(queryKey, live, settled, params).value)
      == Mirror(queryKey, live, settled, params)
  {
    if settled != "" {
      SetIdempotent(params, queryKey.value, settled);
    } else {
      DeleteIdempotent(params, queryKey.value);
    }
  }

  /** One mounted input: its props, the URL parameters it reads, its live
      value, its debounce hook, and the navigations it has asked for. */
  class Input {
    const queryKey: Maybe<string>
    const delay: nat
    const callback: Maybe<nat>
    const hasTransition: bool
    var searchParams: Params
    var live: string
    const timer: Debouncer<string>
    var requests: seq<Params>

    /** The hook tracks the live value with the input's delay and callback. */
    ghost predicate Valid()
      reads this, timer
    {
      && timer.Valid()
      && timer.mounted
      && timer.deps == Deps(live, Present(delay), callback)
    }

    /** Mounting at time `now`: the live value starts from the initial-value
        rule, the hook schedules its first timer, and the mirror effect runs
        once, with the settled value equal to the live one. */
    constructor(value: Maybe<string>, queryKey: Maybe<string>, debounceMs: Maybe<nat>,
                callback: Maybe<nat>, hasTransition: bool, params: Params, now: nat)
      ensures Valid() && fresh(timer)
      ensures this.queryKey == queryKey && delay == debounceMs.GetOr(DefaultDebounceMs)
      ensures this.callback == callback && this.hasTransition == hasTransition
      ensures searchParams == params && live == InitialValue(value, queryKey, params)
      ensures timer.Model() == AfterMount(live, Present(delay), callback, now)
      ensures requests == AsSeq(Request(queryKey, live, live, params, hasTransition))
      ensures !hasTransition || !Mirrors(queryKey) ==> requests == []
    {
      this.queryKey := queryKey;
      delay := debounceMs.GetOr(DefaultDebounceMs);
      this.callback := callback;
      this.hasTransition := hasTransition;
      searchParams := params;
      var initial := InitialValue(value, queryKey, params);
      live := initial;
      timer := new Debouncer(initial, Present(debounceMs.GetOr(DefaultDebounceMs)), callback, now);
      requests := [];
      new;
      Sync();
    }

    /** The mirror effect (`useEffect` on the live value, the settled value
        and the key). */
    method Sync()
      modifies this`requests
      ensures requests == old(requests) + AsSeq(Request(queryKey, live, timer.settled, searchParams, hasTransition))
      ensures !hasTransition || !Mirrors(queryKey) || timer.settled != live ==> requests == old(requests)
      ensures hasTransition && Mirrors(queryKey) && timer.settled == live ==>
        requests == old(requests) + [Mirror(queryKey, live, timer.settled, searchParams).value]
    {
      if queryKey.Absent? || queryKey.value == "" {
        return;
      }
      if timer.settled != live {
        return;
      }
      var newQueryString := searchParams;
      if timer.settled != "" {
        newQueryString := Set(newQueryString, queryKey.value, timer.settled);
      } else {
        newQueryString := Delete(newQueryString, queryKey.value);
      }
      if hasTransition {
        requests := requests + [newQueryString];
      }
    }

    /** A keystroke leaves `text` in the field. The live value follows at
        once; the settled value does not move. When the text really changed,
        the hook reschedules and the mirror effect runs. */
    method Type(text: string)
      requires Valid()
      modifies this, timer
      ensures Valid()
      ensures live == text && timer.settled == old(timer.settled)
      ensures timer.Model() ==
        if text == old(live) then old(timer.Model())
        else AfterChange(old(timer.Model()), text, Present(delay), callback)
      ensures searchParams == old(searchParams)
      ensures requests == old(requests) +
        (if text == old(live) then []
         else AsSeq(Request(queryKey, text, timer.settled, searchParams, hasTransition)))
      ensures !hasTransition || !Mirrors(queryKey) ==> requests == old(requests)
    {
      if text != live {
        live := text;
        timer.Change(text, Present(delay), callback);
        Sync();
      }
    }

    /** The clock moves to `now`. A timer that fires and changes the settled
        value re-renders the input, and the mirror effect runs. */
    method Tick(now: nat)
      requires Valid() && timer.clock <= now
      modifies this, timer
      ensures Valid()
      ensures timer.Model() == AfterTick(old(timer.Model()), now)
      ensures live == old(live) && searchParams == old(searchParams)
      ensures requests == old(requests) +
        (if timer.settled == old(timer.settled) then []
         else AsSeq(Request(queryKey, live, timer.settled, searchParams, hasTransition)))
      ensures !hasTransition || !Mirrors(queryKey) ==> requests == old(requests)
    {
      var before := timer.settled;
      timer.Tick(now);
      if timer.settled != before {
        Sync();
      }
    }

    /** The URL changes under the input. The parameters are not a dependency
        of the mirror effect, so nothing else happens. */
    method UrlChanged(params: Params)
      modifies this`searchParams
      ensures searchParams == params
    {
      searchParams := params;
    }
  }

  /** Typing "Par" and then "Paris" 200 ms apart with the default 500 ms delay
      and the key "search": the mount writes the initial (empty) state once,
      the keystrokes write nothing, and 500 ms after the last one a single
      write puts search=Paris and the callback runs once, with "Paris". */
  method ParisScenario()
  {
    var box := new Input(Absent, Present("search"), Absent, Present(7), true, [], 0);
    assert box.requests == [[]];
    box.Tick(100);
    box.Type("Par");
    box.Tick(300);
    box.Type("Paris");
    box.Tick(799);
    assert box.requests == [[]] && box.timer.calls == [];
    box.Tick(800);
    assert Set([], "search", "Paris") == [] + [Pair("search", "Paris")] == [Pair("search", "Paris")];
    assert box.requests == [[], [Pair("search", "Paris")]];
    assert box.timer.calls == [Call(7, "Paris")];
  }
}
