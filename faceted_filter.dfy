/** The multi-select faceted filter: a selection of option values that
    choosing an option toggles, "Clear filters" empties, and the trigger
    button summarises with badges. */
module FacetedFilter {
  import opened Types

  predicate NoDuplicates(s: seq<string>) {
    forall i, j :: 0 <= i < j < |s| ==> s[i] != s[j]
  }

  /** The members of `new Set(values)` in the Set's insertion order: the
      first occurrence of each value, in order. */
  function Dedup(values: seq<string>): (r: seq<string>)
    ensures NoDuplicates(r)
    ensures forall x :: x in r <==> x in values
    ensures |r| <= |values|
  {
    if values == [] then []
    else
      var d := Dedup(values[..|values| - 1]);
      var last := values[|values| - 1];
      assert forall x :: x in values <==> x in values[..|values| - 1] || x == last by {
        assert values == values[..|values| - 1] + [last];
      }
      if last in d then d else d + [last]
  }

  /** `Set.delete(x)`: every element but `x`, in order. */
  function Without(s: seq<string>, x: string): (r: seq<string>)
    ensures forall y :: y in r <==> y in s && y != x
    ensures NoDuplicates(s) ==> NoDuplicates(r)
    ensures |r| <= |s|
  {
    if s == [] then []
    else if s[0] == x then Without(s[1..], x)
    else
      var t := Without(s[1..], x);
      assert NoDuplicates(s) ==> NoDuplicates(s[1..]) && s[0] !in s[1..];
      [s[0]] + t
  }

  /** The filter value written back after choosing an option whose value is
      `v`: the selection's members with `v` deleted when it was selected,
      appended when it was not, copied out with `Array.from`. */
  function Toggled(values: seq<string>, v: string): (r: seq<string>)
    ensures NoDuplicates(r)
    ensures v in r <==> v !in values
    ensures forall x :: x != v ==> (x in r <==> x in values)
  {
    var selected := Dedup(values);
    if v in selected then Without(selected, v) else selected + [v]
  }

  /** A list without duplicates is its own `Set` order. */
  lemma {:induction false} DedupNoDuplicates(values: seq<string>)
    requires NoDuplicates(values)
    ensures Dedup(values) == values
  {
    if values != [] {
      var init := values[..|values| - 1];
      assert NoDuplicates(init);
      DedupNoDuplicates(init);
      assert values == init + [values[|values| - 1]];
    }
  }

  /** Deleting an element that was just appended gives back the list. */
  lemma {:induction false} WithoutAppended(s: seq<string>, v: string)
    requires v !in s
    ensures Without(s + [v], v) == s
  {
    if s == [] {
      assert [] + [v] == [v];
    } else {
      assert (s + [v])[1..] == s[1..] + [v];
      WithoutAppended(s[1..], v);
    }
  }

  /** A list that does not hold `x` is left alone by deleting `x`. */
  lemma {:induction false} WithoutAbsent(s: seq<string>, x: string)
    requires x !in s
    ensures Without(s, x) == s
  {
    if s != [] {
      WithoutAbsent(s[1..], x);
    }
  }

  /** Choosing the same option twice restores the selection: the same values
      are selected; the written list is the original one when `v` was not
      selected and the list had no duplicates, and otherwise has `v` moved
      to the end of the Set's order. */
  lemma ToggleTwice(values: seq<string>, v: string)
    ensures forall x :: x in Toggled(Toggled(values, v), v) <==> x in values
    ensures NoDuplicates(values) && v !in values ==> Toggled(Toggled(values, v), v) == values
    ensures v in values ==> Toggled(Toggled(values, v), v) == Without(Dedup(values), v) + [v]
    ensures v !in values ==> Toggled(Toggled(values, v), v) == Dedup(values)
  {
    var once := Toggled(values, v);
    DedupNoDuplicates(once);
    if v in values {
      WithoutAbsent(Without(Dedup(values), v), v);
    } else {
      WithoutAppended(Dedup(values), v);
      if NoDuplicates(values) {
        DedupNoDuplicates(values);
      }
    }
  }

  /** The size of the Set is the number of distinct values. */
  lemma {:induction false} DedupSize(values: seq<string>)
    ensures |Dedup(values)| == |set x | x in values|
  {
    DistinctSize(Dedup(values));
    assert (set x | x in Dedup(values)) == (set x | x in values);
  }

  lemma {:induction false} DistinctSize(s: seq<string>)
    requires NoDuplicates(s)
    ensures |s| == |set x | x in s|
  {
    if s != [] {
      var init := s[..|s| - 1];
      var last := s[|s| - 1];
      assert NoDuplicates(init);
      DistinctSize(init);
      assert s == init + [last];
      assert last !in init;
      assert (set x | x in s) == (set x | x in init) + {last};
    }
  }

  /** The options whose value is selected, in option-list order
      (`options.filter((option) => selectedValues.has(option.value))`). */
  function Chosen(options: seq<Option>, selected: seq<string>): (r: seq<Option>)
    ensures forall o :: o in r <==> o in options && o.value in selected
    ensures |r| <= |options|
  {
    if options == [] then []
    else
      var rest := Chosen(options[1..], selected);
      assert forall o :: o in options <==> o == options[0] || o in options[1..] by {
        assert options == [options[0]] + options[1..];
      }
      if options[0].value in selected then [options[0]] + rest else rest
  }

  /** Choosing distributes over concatenation of option lists, so the chosen
      options appear in the order of the list. */
  lemma {:induction false} ChosenAppend(a: seq<Option>, b: seq<Option>, selected: seq<string>)
    ensures Chosen(a + b, selected) == Chosen(a, selected) + Chosen(b, selected)
  {
    if a == [] {
      assert a + b == b;
    } else {
      assert (a + b)[0] == a[0];
      assert (a + b)[1..] == a[1..] + b;
      ChosenAppend(a[1..], b, selected);
    }
  }

  /** Every option is chosen when all of their values are selected. */
  lemma {:induction false} ChosenAll(options: seq<Option>, selected: seq<string>)
    requires forall i :: 0 <= i < |options| ==> options[i].value in selected
    ensures Chosen(options, selected) == options
  {
    if options != [] {
      ChosenAll(options[1..], selected);
    }
  }

  /** The labels of a list of options (`.map((option) => option.label)`). */
  function Captions(options: seq<Option>): (r: seq<string>)
    ensures |r| == |options|
    ensures forall i :: 0 <= i < |r| ==> r[i] == options[i].caption
  {
    if options == [] then [] else [options[0].caption] + Captions(options[1..])
  }

  /** What the wide layout shows once something is selected. */
  datatype WideBadges =
    | CountSelected(n: nat)        // one "N selected" badge
    | Labels(labels: seq<string>)  // one badge per selected option

  /** What the trigger button shows after its children. */
  datatype TriggerView =
    | Plain                                   // nothing is selected: no badges
    | Badged(count: nat, wide: WideBadges)    // the narrow count badge and the wide badges

  /** The trigger's badges for the current filter value. */
  function Trigger(options: seq<Option>, values: seq<string>): (r: TriggerView)
    ensures r.Plain? <==> values == []
    ensures r.Badged? ==> r.count == |set x | x in values|
    ensures r.Badged? && r.count > 2 ==> r.wide == CountSelected(r.count)
    ensures r.Badged? && r.count <= 2 ==> r.wide == Labels(Captions(Chosen(options, values)))
  {
    var selected := Dedup(values);
    DedupSize(values);
    assert values != [] ==> values[0] in selected;
    if |selected| == 0 then Plain
    else if |selected| > 2 then Badged(|selected|, CountSelected(|selected|))
    else Badged(|selected|, Labels(Captions(Chosen(options, values))))
  }

  /** "Clear filters" is offered exactly when something is selected. */
  predicate ClearOffered(values: seq<string>)
    ensures ClearOffered(values) <==> values != []
  {
    assert values != [] ==> values[0] in Dedup(values);
    |Dedup(values)| > 0
  }

  /** The filter's state cell (`filterValues`). The controlled/uncontrolled
      resolution is not modelled: writing the cell stands for a request made
      through the setter. */
  class Filter {
    var filterValues: seq<string>

    constructor(initial: seq<string>)
      ensures filterValues == initial
    {
      filterValues := initial;
    }

    /** Choosing `option` in the list. */
    method Select(option: Option)
      modifies this
      ensures filterValues == Toggled(old(filterValues), option.value)
    {
      var selectedValues := Dedup(filterValues);
      var isSelected := option.value in selectedValues;
      if isSelected {
        selectedValues := Without(selectedValues, option.value);
      } else {
        selectedValues := selectedValues + [option.value];
      }
      filterValues := if |selectedValues| > 0 then selectedValues else [];
    }

    /** Choosing "Clear filters". */
    method Clear()
      modifies this
      ensures filterValues == []
      ensures !ClearOffered(filterValues)
    {
      filterValues := [];
    }
  }
}
