/** The pieces of JavaScript that the request handlers rely on: values read
    from a parsed JSON body and their truthiness, and the array methods
    `find` and `filter`. */
module Js {

  datatype Option<T> = None | Some(value: T)

  /** A value read from a parsed JSON request body. `Object` stands for any
      JSON object or array, whose contents the handlers never inspect. */
  datatype Value = Undefined | Null | Bool(b: bool) | Number(x: real) | Str(s: string) | Object

  /** JavaScript's ToBoolean. JSON never yields NaN, so a number is truthy
      exactly when it is not zero. */
  predicate Truthy(v: Value): (b: bool)
    ensures b <==> v !in {Undefined, Null, Bool(false), Number(0.0), Str("")}
  {
    match v
    case Undefined => false
    case Null => false
    case Bool(b) => b
    case Number(x) => x != 0.0
    case Str(s) => s != ""
    case Object => true
  }

  /** `s.find(p)`, given as the index of the element it returns: the first
      element that satisfies `p`, or None when no element does. */
  function FindIndex<T>(s: seq<T>, p: T -> bool): (r: Option<nat>)
    ensures r.Some? ==> r.value < |s| && p(s[r.value])
    ensures r.Some? ==> forall j :: 0 <= j < r.value ==> !p(s[j])
    ensures r.None? <==> forall j :: 0 <= j < |s| ==> !p(s[j])
  {
    if s == [] then None
    else if p(s[0]) then Some(0)
    else match FindIndex(s[1..], p)
      case None => None
      case Some(i) => Some(i + 1)
  }

  /** `s.filter(keep)`: the elements that satisfy `keep`, in their order. */
  function Filter<T(==,!new)>(s: seq<T>, keep: T -> bool): (r: seq<T>)
    ensures |r| <= |s|
  {
    if s == [] then []
    else if keep(s[0]) then [s[0]] + Filter(s[1..], keep)
    else Filter(s[1..], keep)
  }

  /** `filter` returns exactly the elements that pass the test. */
  lemma {:induction false} FilterMembers<T(!new)>(s: seq<T>, keep: T -> bool)
    ensures forall x :: x in Filter(s, keep) <==> x in s && keep(x)
  {
    if s != [] {
      FilterMembers(s[1..], keep);
      assert s == [s[0]] + s[1..];
    }
  }

  /** `filter` keeps every copy of a kept value and no copy of a dropped one. */
  lemma {:induction false} FilterCounts<T(!new)>(s: seq<T>, keep: T -> bool)
    ensures forall x :: multiset(Filter(s, keep))[x] == if keep(x) then multiset(s)[x] else 0
  {
    if s != [] {
      FilterCounts(s[1..], keep);
      assert s == [s[0]] + s[1..];
    }
  }

  /** Two sequences on which `p` agrees element by element have the same
      first match. */
  lemma FindIndexAgrees<T>(s: seq<T>, t: seq<T>, p: T -> bool)
    requires |s| == |t|
    requires forall j :: 0 <= j < |s| ==> p(s[j]) == p(t[j])
    ensures FindIndex(s, p) == FindIndex(t, p)
  {
  }

  /** Filtering distributes over concatenation, which is how `filter`
      keeps the order of what it keeps. */
  lemma {:induction false} FilterConcat<T(!new)>(a: seq<T>, b: seq<T>, keep: T -> bool)
    ensures Filter(a + b, keep) == Filter(a, keep) + Filter(b, keep)
  {
    if a == [] {
      assert a + b == b;
    } else {
      assert (a + b)[1..] == a[1..] + b;
      FilterConcat(a[1..], b, keep);
    }
  }

  /** Filtering leaves a sequence as it is exactly when every element is kept. */
  lemma {:induction false} FilterKeepsAllIff<T(!new)>(s: seq<T>, keep: T -> bool)
    ensures Filter(s, keep) == s <==> forall i :: 0 <= i < |s| ==> keep(s[i])
  {
    if s != [] {
      FilterKeepsAllIff(s[1..], keep);
      if keep(s[0]) {
        assert (forall i :: 0 <= i < |s| ==> keep(s[i]))
          <==> (forall i :: 0 <= i < |s[1..]| ==> keep(s[1..][i]));
        assert Filter(s, keep) == s <==> Filter(s[1..], keep) == s[1..];
      } else {
        assert |Filter(s, keep)| < |s|;
      }
    }
  }

  /** Dropping an element makes the result strictly shorter. */
  lemma {:induction false} FilterShrinks<T(!new)>(s: seq<T>, keep: T -> bool, i: nat)
    requires i < |s| && !keep(s[i])
    ensures |Filter(s, keep)| < |s|
  {
    if i > 0 {
      FilterShrinks(s[1..], keep, i - 1);
    }
  }

  /** Filtering twice with the same test is filtering once. */
  lemma FilterIdempotent<T(!new)>(s: seq<T>, keep: T -> bool)
    ensures Filter(Filter(s, keep), keep) == Filter(s, keep)
  {
    var r := Filter(s, keep);
    FilterMembers(s, keep);
    assert forall i :: 0 <= i < |r| ==> keep(r[i]) by {
      forall i | 0 <= i < |r| ensures keep(r[i]) { assert r[i] in r; }
    }
    FilterKeepsAllIff(r, keep);
  }

  /** When exactly one element fails the test, filtering removes that
      element and nothing else. */
  lemma {:induction false} FilterDropsOne<T(!new)>(s: seq<T>, keep: T -> bool, i: nat)
    requires i < |s| && !keep(s[i])
    requires forall j :: 0 <= j < |s| && j != i ==> keep(s[j])
    ensures Filter(s, keep) == s[..i] + s[i + 1..]
  {
    var rest := s[1..];
    assert forall j :: 0 <= j < |rest| ==> rest[j] == s[j + 1];
    if i == 0 {
      FilterKeepsAllIff(rest, keep);
    } else {
      FilterDropsOne(rest, keep, i - 1);
      calc {
        Filter(s, keep);
        { assert keep(s[0]); }
        [s[0]] + Filter(rest, keep);
        [s[0]] + (rest[..i - 1] + rest[i..]);
        { assert s[..i] == [s[0]] + rest[..i - 1]; assert s[i + 1..] == rest[i..]; }
        s[..i] + s[i + 1..];
      }
    }
  }
}
