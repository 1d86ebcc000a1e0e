/** Ascending iteration over the keys of an ordered map.
    The reconstruction keeps its observations in maps keyed by view id and
    the statistics count landmarks per view in a std::map; both are visited
    in ascending key order, which `Ascending` reproduces. */
module Keys {

  /** An index as used for view ids (IndexT); unbounded here. */
  type Index = nat

  lemma {:induction false} LeastElement(s: set<Index>) returns (m: Index)
    requires s != {}
    ensures m in s && forall x :: x in s ==> m <= x
    decreases |s|
  {
    var y :| y in s;
    var rest := s - {y};
    if rest == {} {
      m := y;
      forall x | x in s ensures m <= x { assert x !in rest; }
    } else {
      var r := LeastElement(rest);
      m := if y < r then y else r;
      forall x | x in s ensures m <= x {
        if x != y { assert x in rest; }
      }
    }
  }

  lemma LeastExists(s: set<Index>)
    requires s != {}
    ensures exists m :: m in s && forall x :: x in s ==> m <= x
  {
    var m := LeastElement(s);
  }

  /** The smallest key of a non-empty key set. */
  function Least(s: set<Index>): (m: Index)
    requires s != {}
    ensures m in s && forall x :: x in s ==> m <= x
  {
    LeastExists(s);
    var m :| m in s && forall x :: x in s ==> m <= x; m
  }

  predicate StrictlyIncreasing(ks: seq<Index>)
  {
    forall i, j :: 0 <= i < j < |ks| ==> ks[i] < ks[j]
  }

  /** The keys of `s` in the order an ordered map visits them: every key
      exactly once (see AscendingIncreasing), smallest first. */
  function Ascending(s: set<Index>): (ks: seq<Index>)
    ensures |ks| == |s|
    ensures forall k :: k in ks <==> k in s
    decreases |s|
  {
    if s == {} then [] else [Least(s)] + Ascending(s - {Least(s)})
  }

  /** A key below every key of an increasing sequence can lead it. */
  lemma ConsIncreasing(m: Index, rest: seq<Index>)
    requires StrictlyIncreasing(rest)
    requires forall k :: k in rest ==> m < k
    ensures StrictlyIncreasing([m] + rest)
  {
    var ks := [m] + rest;
    forall i, j | 0 <= i < j < |ks| ensures ks[i] < ks[j] {
      assert ks[j] == rest[j - 1] && rest[j - 1] in rest;
      if i > 0 {
        assert ks[i] == rest[i - 1];
      }
    }
  }

  /** Each key comes after every smaller one. */
  lemma {:induction false} AscendingIncreasing(s: set<Index>)
    ensures StrictlyIncreasing(Ascending(s))
    decreases |s|
  {
    if s != {} {
      var m := Least(s);
      AscendingIncreasing(s - {m});
      ConsIncreasing(m, Ascending(s - {m}));
    }
  }

  /** A strictly increasing sequence never repeats a key. */
  lemma IncreasingPrefixExcludes(ks: seq<Index>, n: nat)
    requires StrictlyIncreasing(ks) && n < |ks|
    ensures ks[n] !in ks[..n]
  {
  }
}
