/**
 * A parsed URL and the `URLSearchParams` operations the engine uses.
 * Parsing and serialisation (the WHATWG URL Standard, and section 5.2 of it
 * for application/x-www-form-urlencoded queries) are not modelled: a query is
 * kept as its list of decoded name/value pairs.
 */
module Urls {
  import opened Base

  /** One decoded `name=value` pair of a query string. */
  datatype Param = Param(name: string, value: string)

  /** A parsed URL; `host` includes the port, as `URL.host` does. */
  datatype Url = Url(protocol: string, host: string, path: string, query: seq<Param>, hash: string)

  /** `searchParams.keys()`: every name in order, repeats kept. */
  function Keys(q: seq<Param>): (ks: seq<string>)
    ensures |ks| == |q|
    ensures forall i :: 0 <= i < |q| ==> ks[i] == q[i].name
  {
    if q == [] then [] else [q[0].name] + Keys(q[1..])
  }

  /** `searchParams.getAll(name)`: the values of every pair named `name`, in order. */
  function GetAll(q: seq<Param>, name: string): (vs: seq<string>)
    ensures |vs| <= |q|
  {
    if q == [] then []
    else (if q[0].name == name then [q[0].value] else []) + GetAll(q[1..], name)
  }

  /** `getAll` yields exactly the values paired with `name`, and nothing when the name is absent. */
  lemma {:induction false} GetAllMembers(q: seq<Param>, name: string)
    ensures forall v :: v in GetAll(q, name) <==> Param(name, v) in q
    ensures GetAll(q, name) == [] <==> name !in Keys(q)
  {
    if q != [] {
      GetAllMembers(q[1..], name);
      assert q == [q[0]] + q[1..];
    }
  }

  lemma {:induction false} GetAllConcat(a: seq<Param>, b: seq<Param>, name: string)
    ensures GetAll(a + b, name) == GetAll(a, name) + GetAll(b, name)
  {
    if a == [] {
      assert a + b == b;
    } else {
      assert (a + b)[0] == a[0] && (a + b)[1..] == a[1..] + b;
      GetAllConcat(a[1..], b, name);
      var h := if a[0].name == name then [a[0].value] else [];
      assert GetAll(a + b, name) == h + (GetAll(a[1..], name) + GetAll(b, name));
      assert GetAll(a, name) == h + GetAll(a[1..], name);
    }
  }

  lemma GetAllConcatAll(a: seq<Param>, b: seq<Param>)
    ensures forall n :: GetAll(a + b, n) == GetAll(a, n) + GetAll(b, n)
  {
    forall n ensures GetAll(a + b, n) == GetAll(a, n) + GetAll(b, n) {
      GetAllConcat(a, b, n);
    }
  }

  /** `i` is the position of the first pair named `name` in `q`. */
  predicate FirstNamed(q: seq<Param>, name: string, i: int)
  {
    0 <= i < |q| && q[i].name == name && forall j :: 0 <= j < i ==> q[j].name != name
  }

  /** The first value `getAll` yields is the value of the first pair named `name`. */
  lemma {:induction false} GetAllFirst(q: seq<Param>, name: string)
    requires GetAll(q, name) != []
    ensures exists i :: FirstNamed(q, name, i) && q[i].value == GetAll(q, name)[0]
  {
    if q[0].name == name {
      assert FirstNamed(q, name, 0);
    } else {
      GetAllFirst(q[1..], name);
      var i :| FirstNamed(q[1..], name, i) && q[1..][i].value == GetAll(q[1..], name)[0];
      assert FirstNamed(q, name, i + 1);
    }
  }

  /** `searchParams.get(name)`: the first value named `name`, or null. */
  function Get(q: seq<Param>, name: string): (r: Option<string>)
    ensures r.None? <==> name !in Keys(q)
    ensures r.Some? ==> Param(name, r.value) in q
    ensures r.Some? ==> exists i :: FirstNamed(q, name, i) && q[i].value == r.value
  {
    var vs := GetAll(q, name);
    GetAllMembers(q, name);
    if vs == [] then None else GetAllFirst(q, name); Some(vs[0])
  }

  /** The pairs of `q` not named `name`, in their order. */
  function Drop(q: seq<Param>, name: string): (r: seq<Param>)
    ensures forall p :: p in r <==> p in q && p.name != name
  {
    if q == [] then []
    else
      assert q == [q[0]] + q[1..];
      (if q[0].name == name then [] else [q[0]]) + Drop(q[1..], name)
  }

  /**
   * `searchParams.set(name, value)` on the pairs still to be visited, where
   * `seen` records whether a pair named `name` was already rewritten: the
   * first such pair takes `value`, later ones are dropped, and when there is
   * none the pair is appended.
   */
  function SetFrom(q: seq<Param>, name: string, value: string, seen: bool): seq<Param>
  {
    if q == [] then (if seen then [] else [Param(name, value)])
    else
      var head := if q[0].name != name then [q[0]] else if seen then [] else [Param(name, value)];
      head + SetFrom(q[1..], name, value, seen || q[0].name == name)
  }

  /** After `set`, the name has the one new value (none once it was seen); other names keep theirs. */
  lemma {:induction false} SetFromValues(q: seq<Param>, name: string, value: string, seen: bool)
    ensures GetAll(SetFrom(q, name, value, seen), name) == if seen then [] else [value]
    ensures forall n :: n != name ==> GetAll(SetFrom(q, name, value, seen), n) == GetAll(q, n)
  {
    if q != [] {
      var head := if q[0].name != name then [q[0]] else if seen then [] else [Param(name, value)];
      var rest := SetFrom(q[1..], name, value, seen || q[0].name == name);
      SetFromValues(q[1..], name, value, seen || q[0].name == name);
      GetAllConcatAll(head, rest);
      GetAllConcatAll([q[0]], q[1..]);
      assert q == [q[0]] + q[1..];
    }
  }

  /** Once the named pair has been rewritten, every later pair of that name is dropped. */
  lemma {:induction false} SetFromSeen(q: seq<Param>, name: string, value: string)
    ensures SetFrom(q, name, value, true) == Drop(q, name)
  {
    if q != [] {
      SetFromSeen(q[1..], name, value);
    }
  }

  /** With no pair of that name, `set` appends one at the end. */
  lemma {:induction false} SetFromAbsent(q: seq<Param>, name: string, value: string)
    requires forall j :: 0 <= j < |q| ==> q[j].name != name
    ensures SetFrom(q, name, value, false) == q + [Param(name, value)]
  {
    if q != [] {
      SetFromAbsent(q[1..], name, value);
      assert q + [Param(name, value)] == [q[0]] + (q[1..] + [Param(name, value)]);
    }
  }

  /** The first pair of that name takes the new value in place; later ones are dropped. */
  lemma {:induction false} SetFromFirst(q: seq<Param>, name: string, value: string, i: int)
    requires FirstNamed(q, name, i)
    ensures SetFrom(q, name, value, false) == q[..i] + [Param(name, value)] + Drop(q[i + 1..], name)
  {
    var p := Param(name, value);
    if i == 0 {
      SetFromSeen(q[1..], name, value);
      assert SetFrom(q, name, value, false) == [p] + SetFrom(q[1..], name, value, true);
      assert q[..i] == [];
    } else {
      var t := q[1..];
      assert FirstNamed(t, name, i - 1);
      SetFromFirst(t, name, value, i - 1);
      assert t[..i - 1] == q[1..i] && t[i - 1 + 1..] == q[i + 1..];
      assert SetFrom(q, name, value, false) == [q[0]] + SetFrom(t, name, value, false);
      assert q[..i] == [q[0]] + q[1..i];
      SeqAssoc([q[0]], q[1..i], [p], Drop(q[i + 1..], name));
    }
  }

  lemma SeqAssoc<T>(a: seq<T>, b: seq<T>, c: seq<T>, d: seq<T>)
    ensures a + (b + c + d) == (a + b) + c + d
  {
  }

  lemma SetFromPlacement(q: seq<Param>, name: string, value: string)
    ensures name !in Keys(q) ==> SetFrom(q, name, value, false) == q + [Param(name, value)]
    ensures forall i :: FirstNamed(q, name, i) ==>
      SetFrom(q, name, value, false) == q[..i] + [Param(name, value)] + Drop(q[i + 1..], name)
  {
    if name !in Keys(q) {
      forall j | 0 <= j < |q| ensures q[j].name != name {
        assert Keys(q)[j] == q[j].name;
      }
      SetFromAbsent(q, name, value);
    }
    forall i | FirstNamed(q, name, i)
      ensures SetFrom(q, name, value, false) == q[..i] + [Param(name, value)] + Drop(q[i + 1..], name)
    {
      SetFromFirst(q, name, value, i);
    }
  }

  /**
   * `searchParams.set(name, value)`: the first pair named `name` takes
   * `value` where it stands and later pairs of that name are removed; with
   * no such pair, the new pair goes at the end.
   */
  function Set(q: seq<Param>, name: string, value: string): (r: seq<Param>)
    ensures GetAll(r, name) == [value]
    ensures forall n :: n != name ==> GetAll(r, n) == GetAll(q, n)
    ensures name !in Keys(q) ==> r == q + [Param(name, value)]
    ensures forall i :: FirstNamed(q, name, i) ==> r == q[..i] + [Param(name, value)] + Drop(q[i + 1..], name)
  {
    SetFromValues(q, name, value, false);
    SetFromPlacement(q, name, value);
    SetFrom(q, name, value, false)
  }
}
