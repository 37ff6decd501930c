/** Shared vocabulary: optional values, results, filtering and counting over
    sequences, Python slicing, and the insertion-ordered dictionary of Python. */
module Common {

  datatype Option<+T> = None | Some(value: T)

  datatype Result<+T, +E> = Ok(value: T) | Err(error: E)

  function Min(a: int, b: int): int {
    if a <= b then a else b
  }

  /** The elements of `s` that satisfy `p`, in order. */
  function Filter<T(!new)>(p: T -> bool, s: seq<T>): (r: seq<T>)
    ensures |r| <= |s|
    ensures forall x :: x in r <==> x in s && p(x)
  {
    if s == [] then []
    else
      var n := |s| - 1;
      assert s == s[..n] + [s[n]];
      Filter(p, s[..n]) + if p(s[n]) then [s[n]] else []
  }

  /** How many elements of `s` satisfy `p`. */
  function CountIf<T>(p: T -> bool, s: seq<T>): (r: nat)
    ensures r <= |s|
  {
    if s == [] then 0
    else CountIf(p, s[..|s| - 1]) + if p(s[|s| - 1]) then 1 else 0
  }

  lemma CountSnoc<T>(p: T -> bool, s: seq<T>, i: nat)
    requires i < |s|
    ensures CountIf(p, s[..i + 1]) == CountIf(p, s[..i]) + if p(s[i]) then 1 else 0
  {
    assert s[..i + 1][..i] == s[..i];
  }

  lemma {:induction false} CountZero<T>(p: T -> bool, s: seq<T>)
    ensures CountIf(p, s) == 0 <==> forall i :: 0 <= i < |s| ==> !p(s[i])
  {
    if s != [] {
      CountZero(p, s[..|s| - 1]);
      assert forall i :: 0 <= i < |s| - 1 ==> s[..|s| - 1][i] == s[i];
    }
  }

  /** A count of one means one position and no other. */
  lemma {:induction false} CountOne<T>(p: T -> bool, s: seq<T>)
    ensures CountIf(p, s) == 1 <==> exists i :: 0 <= i < |s| && p(s[i]) && forall j :: 0 <= j < |s| && p(s[j]) ==>
      j == i
  {
    if s != [] {
      var n := |s| - 1;
      var t := s[..n];
      assert forall i :: 0 <= i < n ==> t[i] == s[i];
      CountOne(p, t);
      CountZero(p, t);
      if CountIf(p, s) == 1 {
        if p(s[n]) {
          assert forall j :: 0 <= j < |s| && p(s[j]) ==> j == n;
        } else {
          var i :| 0 <= i < |t| && p(t[i]) && forall j :: 0 <= j < |t| && p(t[j]) ==> j == i;
          assert p(s[i]) && forall j :: 0 <= j < |s| && p(s[j]) ==> j == i;
        }
      }
      if i :| 0 <= i < |s| && p(s[i]) && forall j :: 0 <= j < |s| && p(s[j]) ==> j == i {
        if i < n {
          assert p(t[i]) && forall j :: 0 <= j < |t| && p(t[j]) ==> j == i;
        }
      }
    }
  }

  /** Python's index normalisation in a slice: negative counts from the end,
      and everything is clamped to the text. */
  function ClampIndex(i: int, n: nat): (r: nat)
    ensures r <= n
    ensures 0 <= i <= n ==> r == i
    ensures i < 0 && 0 <= i + n ==> r == i + n
    ensures i + n < 0 ==> r == 0
    ensures i > n ==> r == n
  {
    if i < 0 then (if i + n < 0 then 0 else i + n)
    else if i > n then n
    else i
  }

  /** Python's `text[lo:hi]`, total on all integers. */
  function PySlice(text: string, lo: int, hi: int): (r: string)
    ensures 0 <= lo <= hi <= |text| ==> r == text[lo..hi]
  {
    var a := ClampIndex(lo, |text|);
    var b := ClampIndex(hi, |text|);
    if a <= b then text[a..b] else ""
  }

  predicate Distinct<T(==)>(s: seq<T>) {
    forall i, j :: 0 <= i < j < |s| ==> s[i] != s[j]
  }

  lemma {:induction false} FilterDistinct<T(!new)>(p: T -> bool, s: seq<T>)
    requires Distinct(s)
    ensures Distinct(Filter(p, s))
  {
    if s != [] {
      var n := |s| - 1;
      FilterDistinct(p, s[..n]);
      var kept := Filter(p, s[..n]);
      forall i | 0 <= i < |kept| ensures kept[i] != s[n] {
        assert kept[i] in kept;
      }
    }
  }
}

/** A Python dictionary with string keys: lookups plus insertion order. */
module PyDict {
  import opened Common

  datatype Dict<V> = Dict(keys: seq<string>, at: map<string, V>) {

    ghost predicate Valid() {
      && Distinct(keys)
      && (forall k :: k in keys <==> k in at)
    }

    /** `d[k] = v`: an existing key keeps its place. */
    function Put(k: string, v: V): (d: Dict<V>)
      ensures Valid() ==> d.Valid()
    {
      if k in at then Dict(keys, at[k := v]) else Dict(keys + [k], at[k := v])
    }

    /** `d.setdefault(k, v)`. */
    function SetDefault(k: string, v: V): (d: Dict<V>)
      ensures Valid() ==> d.Valid()
    {
      if k in at then this else Dict(keys + [k], at[k := v])
    }

    /** `list(d.values())`. */
    function Values(): (vs: seq<V>)
      requires forall k :: k in keys ==> k in at
      ensures |vs| == |keys| && forall i :: 0 <= i < |keys| ==> vs[i] == at[keys[i]]
    {
      seq(|keys|, i requires 0 <= i < |keys| => at[keys[i]])
    }
  }

  function Empty<V>(): (d: Dict<V>)
    ensures d.Valid()
  {
    Dict([], map[])
  }
}
