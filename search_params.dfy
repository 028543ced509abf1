/** The list of name-value pairs behind a URLSearchParams object, with the
    `get`, `set` and `delete` operations of section 6.2 of the WHATWG URL
    Standard. Percent-encoding and serialisation are not modelled. */
module SearchParams {
  import opened Types

  datatype Pair = Pair(name: string, value: string)

  type Params = seq<Pair>

  /** Some pair of `p` is called `name`. */
  predicate Has(p: Params, name: string) {
    exists i :: 0 <= i < |p| && p[i].name == name
  }

  /** The number of pairs of `p` called `name`. */
  function Count(p: Params, name: string): nat {
    if p == [] then 0 else (if p[0].name == name then 1 else 0) + Count(p[1..], name)
  }

  /** `Has` unfolded at the head of a non-empty list. */
  lemma HasCons(p: Params, name: string)
    requires p != []
    ensures Has(p, name) <==> p[0].name == name || Has(p[1..], name)
  {
    if Has(p[1..], name) {
      var i :| 0 <= i < |p[1..]| && p[1..][i].name == name;
      assert p[i + 1].name == name;
    }
    if Has(p, name) && p[0].name != name {
      var i :| 0 <= i < |p| && p[i].name == name;
      assert p[1..][i - 1].name == name;
    }
  }

  /** `Has` of a prefix, unfolded at its head. */
  lemma HasPrefixCons(p: Params, name: string, i: nat)
    requires 0 < i <= |p|
    ensures Has(p[..i], name) <==> p[0].name == name || Has(p[1..][..i - 1], name)
  {
    assert p[..i][1..] == p[1..][..i - 1];
    HasCons(p[..i], name);
  }

  /** `get(name)`: the value of the first pair called `name`, or null. */
  function Get(p: Params, name: string): (r: Maybe<string>)
    ensures r.Absent? <==> !Has(p, name)
  {
    if p == [] then Absent
    else
      HasCons(p, name);
      if p[0].name == name then Present(p[0].value) else Get(p[1..], name)
  }

  /** `get(name)` returns the value of the first pair called `name`. */
  lemma {:induction false} GetAt(p: Params, name: string, i: nat)
    requires i < |p| && p[i].name == name && !Has(p[..i], name)
    ensures Get(p, name) == Present(p[i].value)
  {
    if i > 0 {
      HasPrefixCons(p, name, i);
      GetAt(p[1..], name, i - 1);
    }
  }

  /** `delete(name)`: remove every pair called `name`, keeping the rest in order. */
  function Delete(p: Params, name: string): (r: Params)
    ensures forall i :: 0 <= i < |r| ==> r[i].name != name
    ensures forall x :: x in r <==> x in p && x.name != name
    ensures |r| <= |p|
  {
    if p == [] then []
    else if p[0].name == name then Delete(p[1..], name)
    else [p[0]] + Delete(p[1..], name)
  }

  /** The WHATWG "set" step for a list that holds `name`: replace the value
      of the first pair called `name` and remove the later ones. */
  function ReplaceFirst(p: Params, name: string, value: string): Params {
    if p == [] then []
    else if p[0].name == name then [Pair(name, value)] + Delete(p[1..], name)
    else [p[0]] + ReplaceFirst(p[1..], name, value)
  }

  /** `set(name, value)`: overwrite the first pair called `name` and remove
      the others; append a new pair at the end when there is none. */
  function Set(p: Params, name: string, value: string): (r: Params)
    ensures Pair(name, value) in r
    ensures !Has(p, name) ==> r == p + [Pair(name, value)]
    ensures Has(p, name) ==> |r| <= |p|
  {
    ReplaceFirstContents(p, name, value);
    if Has(p, name) then ReplaceFirst(p, name, value) else p + [Pair(name, value)]
  }

  /** What the replacing step leaves: the new pair, as the only one called
      `name` when the list held `name`, every pair with another name, and
      nothing more. */
  lemma {:induction false} ReplaceFirstContents(p: Params, name: string, value: string)
    ensures Has(p, name) ==> Pair(name, value) in ReplaceFirst(p, name, value)
    ensures forall x :: x in ReplaceFirst(p, name, value) && x.name == name ==> x == Pair(name, value)
    ensures forall x: Pair :: x.name != name ==> (x in ReplaceFirst(p, name, value) <==> x in p)
    ensures |ReplaceFirst(p, name, value)| <= |p|
  {
    if p != [] && p[0].name != name {
      ReplaceFirstContents(p[1..], name, value);
      HasCons(p, name);
      assert p == [p[0]] + p[1..];
    }
  }

  /** What `set(name, value)` leaves: the new pair is the only one called
      `name`, and the pairs with another name are those of the input. */
  lemma SetContents(p: Params, name: string, value: string)
    ensures forall x :: x in Set(p, name, value) && x.name == name ==> x == Pair(name, value)
    ensures forall x: Pair :: x.name != name ==> (x in Set(p, name, value) <==> x in p)
  {
    ReplaceFirstContents(p, name, value);
    if !Has(p, name) {
      assert forall x :: x in p ==> x.name != name;
    }
  }

  /** `delete` distributes over concatenation: what survives keeps its order. */
  lemma {:induction false} DeleteAppend(a: Params, b: Params, name: string)
    ensures Delete(a + b, name) == Delete(a, name) + Delete(b, name)
  {
    if a != [] {
      assert (a + b)[0] == a[0];
      assert (a + b)[1..] == a[1..] + b;
      DeleteAppend(a[1..], b, name);
    } else {
      assert a + b == b;
    }
  }

  /** A list without `name` is left alone by `delete(name)`. */
  lemma {:induction false} DeleteAbsent(p: Params, name: string)
    requires !Has(p, name)
    ensures Delete(p, name) == p
  {
    if p != [] {
      HasCons(p, name);
      DeleteAbsent(p[1..], name);
    }
  }

  /** Deleting twice is deleting once. */
  lemma DeleteIdempotent(p: Params, name: string)
    ensures Delete(Delete(p, name), name) == Delete(p, name)
  {
    DeleteAbsent(Delete(p, name), name);
  }

  /** Deleting one name keeps what `get` returns for every other name. */
  lemma {:induction false} DeleteKeepsOthers(p: Params, name: string, other: string)
    requires other != name
    ensures Get(Delete(p, name), other) == Get(p, other)
  {
    if p != [] {
      DeleteKeepsOthers(p[1..], name, other);
    }
  }

  /** `set` with an existing name, at the first index `i` holding it: the pairs
      before `i` stay, the pair at `i` takes the new value, the later pairs
      called `name` go and the other later pairs stay in order. */
  lemma {:induction false} SetAtFirst(p: Params, name: string, value: string, i: nat)
    requires i < |p| && p[i].name == name && !Has(p[..i], name)
    ensures Set(p, name, value) == p[..i] + [Pair(name, value)] + Delete(p[i + 1..], name)
  {
    assert Has(p, name);
    ReplaceFirstAt(p, name, value, i);
  }

  lemma {:induction false} ReplaceFirstAt(p: Params, name: string, value: string, i: nat)
    requires i < |p| && p[i].name == name && !Has(p[..i], name)
    ensures ReplaceFirst(p, name, value) == p[..i] + [Pair(name, value)] + Delete(p[i + 1..], name)
  {
    var x := Pair(name, value);
    if i == 0 {
      assert p[..0] + [x] == [x];
    } else {
      HasPrefixCons(p, name, i);
      var q := p[1..];
      ReplaceFirstAt(q, name, value, i - 1);
      var front, rest := q[..i - 1], Delete(q[i..], name);
      assert ReplaceFirst(p, name, value) == [p[0]] + (front + [x] + rest);
      assert q[i..] == p[i + 1..];
      assert p[..i] == [p[0]] + front;
      assert [p[0]] + (front + [x] + rest) == ([p[0]] + front) + [x] + rest;
    }
  }

  /** After `set(name, value)`, `get(name)` returns `value`. */
  lemma {:induction false} SetGet(p: Params, name: string, value: string)
    ensures Get(Set(p, name, value), name) == Present(value)
  {
    if Has(p, name) {
      ReplaceFirstGet(p, name, value);
    } else {
      AppendGet(p, Pair(name, value));
    }
  }

  lemma {:induction false} ReplaceFirstGet(p: Params, name: string, value: string)
    requires Has(p, name)
    ensures Get(ReplaceFirst(p, name, value), name) == Present(value)
  {
    HasCons(p, name);
    if p[0].name != name {
      ReplaceFirstGet(p[1..], name, value);
    }
  }

  lemma {:induction false} AppendGet(p: Params, x: Pair)
    requires !Has(p, x.name)
    ensures Get(p + [x], x.name) == Present(x.value)
  {
    if p != [] {
      assert (p + [x])[0] == p[0];
      assert (p + [x])[1..] == p[1..] + [x];
      HasCons(p, x.name);
      AppendGet(p[1..], x);
    }
  }

  /** After `set(name, value)` exactly one pair is called `name`. */
  lemma SetCount(p: Params, name: string, value: string)
    ensures Count(Set(p, name, value), name) == 1
  {
    DeleteSetAt(p, name, value);
    if Has(p, name) {
      var i := FirstIndex(p, name);
      SetAtFirst(p, name, value, i);
      CountAppend(p[..i] + [Pair(name, value)], Delete(p[i + 1..], name), name);
      CountAppend(p[..i], [Pair(name, value)], name);
      CountAbsent(p[..i], name);
      CountAbsent(Delete(p[i + 1..], name), name);
    } else {
      CountAppend(p, [Pair(name, value)], name);
      CountAbsent(p, name);
    }
  }

  /** The pairs not called `name` survive `set(name, value)` unchanged and in order. */
  lemma DeleteSetAt(p: Params, name: string, value: string)
    ensures Delete(Set(p, name, value), name) == Delete(p, name)
  {
    if Has(p, name) {
      var i := FirstIndex(p, name);
      SetAtFirst(p, name, value, i);
      assert p == p[..i] + [p[i]] + p[i + 1..];
      DeleteAppend(p[..i] + [Pair(name, value)], Delete(p[i + 1..], name), name);
      DeleteAppend(p[..i], [Pair(name, value)], name);
      DeleteAppend(p[..i] + [p[i]], p[i + 1..], name);
      DeleteAppend(p[..i], [p[i]], name);
      DeleteIdempotent(p[i + 1..], name);
    } else {
      DeleteAppend(p, [Pair(name, value)], name);
    }
  }

  /** `set` keeps what `get` returns for every other name. */
  lemma SetKeepsOthers(p: Params, name: string, value: string, other: string)
    requires other != name
    ensures Get(Set(p, name, value), other) == Get(p, other)
  {
    DeleteSetAt(p, name, value);
    DeleteKeepsOthers(Set(p, name, value), name, other);
    DeleteKeepsOthers(p, name, other);
  }

  /** Setting the same pair twice is setting it once. */
  lemma SetIdempotent(p: Params, name: string, value: string)
    ensures Set(Set(p, name, value), name, value) == Set(p, name, value)
  {
    var q := Set(p, name, value);
    var i := SetFirstIndex(p, name, value);
    var before, after := q[..i], q[i + 1..];
    assert q == before + [q[i]] + after;
    SetAtFirst(q, name, value, i);
    DeleteAbsent(after, name);
  }

  /** Where `set(name, value)` puts its pair: no pair before it and no pair
      after it is called `name`. */
  lemma SetFirstIndex(p: Params, name: string, value: string) returns (i: nat)
    ensures i < |Set(p, name, value)|
    ensures Set(p, name, value)[i] == Pair(name, value)
    ensures !Has(Set(p, name, value)[..i], name)
    ensures !Has(Set(p, name, value)[i + 1..], name)
  {
    var q := Set(p, name, value);
    if Has(p, name) {
      i := FirstIndex(p, name);
      SetAtFirst(p, name, value, i);
      assert q[..i] == p[..i];
      assert q[i + 1..] == Delete(p[i + 1..], name);
    } else {
      i := |p|;
      assert q[..i] == p;
      assert q[i + 1..] == [];
    }
  }

  /** The index of the first pair called `name`. */
  lemma {:induction false} FirstIndex(p: Params, name: string) returns (i: nat)
    requires Has(p, name)
    ensures i < |p| && p[i].name == name && !Has(p[..i], name)
  {
    HasCons(p, name);
    if p[0].name == name {
      i := 0;
    } else {
      var j := FirstIndex(p[1..], name);
      i := j + 1;
      HasPrefixCons(p, name, i);
    }
  }

  lemma {:induction false} CountAppend(a: Params, b: Params, name: string)
    ensures Count(a + b, name) == Count(a, name) + Count(b, name)
  {
    if a != [] {
      assert (a + b)[0] == a[0];
      assert (a + b)[1..] == a[1..] + b;
      CountAppend(a[1..], b, name);
    } else {
      assert a + b == b;
    }
  }

  lemma {:induction false} CountAbsent(p: Params, name: string)
    requires !Has(p, name)
    ensures Count(p, name) == 0
  {
    if p != [] {
      HasCons(p, name);
      CountAbsent(p[1..], name);
    }
  }
}
