/** The failure-carrying datatypes and the sequence facts every other module uses. */
module Basics {

  datatype Option<+T> = None | Some(value: T)

  datatype Result<+T, +E> = Ok(value: T) | Err(error: E)

  /** The first position at which `p` holds, as Rust's `iter().position(p)`. */
  function Position<T>(s: seq<T>, p: T -> bool): (r: Option<nat>)
    ensures r.None? ==> forall i :: 0 <= i < |s| ==> !p(s[i])
    ensures r.Some? ==> r.value < |s| && p(s[r.value]) && forall i :: 0 <= i < r.value ==> !p(s[i])
  {
    if s == [] then None
    else if p(s[0]) then Some(0)
    else
      match Position(s[1..], p)
      case None => None
      case Some(i) => Some(i + 1)
  }

  function Filter<T>(s: seq<T>, p: T -> bool): (r: seq<T>)
  {
    if s == [] then [] else (if p(s[0]) then [s[0]] else []) + Filter(s[1..], p)
  }

  lemma {:induction false} FilterMembers<T>(s: seq<T>, p: T -> bool, x: T)
    ensures x in Filter(s, p) <==> x in s && p(x)
  {
    if s != [] {
      FilterMembers(s[1..], p, x);
      assert x in s <==> x == s[0] || x in s[1..];
    }
  }

  predicate Increasing(at: seq<nat>) {
    forall i, j | 0 <= i < j < |at| :: at[i] < at[j]
  }

  ghost predicate Picks<T(!new)>(s: seq<T>, kept: seq<T>, at: seq<nat>) {
    |at| == |kept| && forall i :: 0 <= i < |at| ==> at[i] < |s| && s[at[i]] == kept[i]
  }

  ghost predicate ExactlyAt<T(!new)>(s: seq<T>, p: T -> bool, at: seq<nat>) {
    forall k: nat :: k < |s| ==> (p(s[k]) <==> k in at)
  }

  /** `kept` is `s` without the elements `p` refuses, each kept one at its position in `at`, in order. */
  ghost predicate KeepsAt<T(!new)>(s: seq<T>, kept: seq<T>, p: T -> bool, at: seq<nat>) {
    Increasing(at) && Picks(s, kept, at) && ExactlyAt(s, p, at)
  }

  function Moved(rest: seq<nat>): seq<nat> {
    Map(rest, (k: nat) => k + 1)
  }

  lemma MovedMembers(rest: seq<nat>, k: nat)
    ensures k in Moved(rest) <==> k > 0 && k - 1 in rest
  {
    if k > 0 && k - 1 in rest {
      var i :| 0 <= i < |rest| && rest[i] == k - 1;
      assert Moved(rest)[i] == k;
    }
  }

  lemma PicksMoved<T(!new)>(s: seq<T>, kept: seq<T>, rest: seq<nat>)
    requires s != [] && Picks(s[1..], kept, rest)
    ensures Picks(s, kept, Moved(rest)) && Picks(s, [s[0]] + kept, [0] + Moved(rest))
  {
  }

  lemma ExactlyMoved<T(!new)>(s: seq<T>, p: T -> bool, rest: seq<nat>)
    requires s != [] && ExactlyAt(s[1..], p, rest)
    ensures ExactlyAt(s, p, if p(s[0]) then [0] + Moved(rest) else Moved(rest))
  {
    forall k: nat | k < |s| ensures p(s[k]) <==> k in if p(s[0]) then [0] + Moved(rest) else Moved(rest) {
      MovedMembers(rest, k);
      assert k > 0 ==> s[k] == s[1..][k - 1];
    }
  }

  lemma IncreasingMoved(rest: seq<nat>)
    requires Increasing(rest)
    ensures Increasing(Moved(rest)) && Increasing([0] + Moved(rest))
  {
  }

  lemma KeepsAtFirst<T(!new)>(s: seq<T>, kept: seq<T>, p: T -> bool, rest: seq<nat>)
    requires s != [] && KeepsAt(s[1..], kept, p, rest)
    ensures p(s[0]) ==> KeepsAt(s, [s[0]] + kept, p, [0] + Moved(rest))
    ensures !p(s[0]) ==> KeepsAt(s, kept, p, Moved(rest))
  {
    IncreasingMoved(rest);
    PicksMoved(s, kept, rest);
    ExactlyMoved(s, p, rest);
  }

  lemma FilterFirst<T>(s: seq<T>, p: T -> bool)
    requires s != []
    ensures Filter(s, p) == if p(s[0]) then [s[0]] + Filter(s[1..], p) else Filter(s[1..], p)
  {
    assert [] + Filter(s[1..], p) == Filter(s[1..], p);
  }

  /** Filtering keeps exactly the elements it is asked for, where they stood to each other. */
  lemma {:induction false} FilterKeeps<T(!new)>(s: seq<T>, p: T -> bool) returns (at: seq<nat>)
    ensures KeepsAt(s, Filter(s, p), p, at)
  {
    at := [];
    if s != [] {
      var rest := FilterKeeps(s[1..], p);
      KeepsAtFirst(s, Filter(s[1..], p), p, rest);
      FilterFirst(s, p);
      at := if p(s[0]) then [0] + Moved(rest) else Moved(rest);
    }
  }

  function Map<T, U>(s: seq<T>, f: T -> U): (r: seq<U>)
    ensures |r| == |s|
    ensures forall i :: 0 <= i < |s| ==> r[i] == f(s[i])
  {
    seq(|s|, i requires 0 <= i < |s| => f(s[i]))
  }
}
