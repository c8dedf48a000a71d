module Search {
  /** Index of the first element satisfying p, or the length when there is none. */
  function First<T>(s: seq<T>, p: T -> bool): (k: nat)
    ensures k <= |s|
    ensures forall i :: 0 <= i < k ==> !p(s[i])
    ensures k < |s| ==> p(s[k])
  {
    if s == [] then 0 else if p(s[0]) then 0 else
      var k := First(s[1..], p);
      assert forall i :: 0 < i < k + 1 ==> s[i] == s[1..][i - 1];
      k + 1
  }

  function One(b: bool): nat { if b then 1 else 0 }

  /** How many elements satisfy p. */
  function Count<T>(s: seq<T>, p: T -> bool): nat {
    if s == [] then 0 else Count(s[..|s| - 1], p) + One(p(s[|s| - 1]))
  }

  /** It is the number of their indices. */
  lemma {:induction false} CountIsSize<T>(s: seq<T>, p: T -> bool, indices: set<nat>)
    requires forall i: nat :: i in indices <==> i < |s| && p(s[i])
    ensures Count(s, p) == |indices|
    decreases |s|
  {
    if s == [] {
      assert indices == {};
    } else {
      var n := |s| - 1;
      CountIsSize(s[..n], p, indices - {n});
      if p(s[n]) {
        assert indices == (indices - {n}) + {n};
      } else {
        assert indices == indices - {n};
      }
    }
  }
}
