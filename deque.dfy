// A `collections.deque` with a `maxlen`, as sequences: appending to a full deque
// silently evicts its oldest element.
module BoundedDeque {

  /** The last `n` elements of `s` (all of them when there are fewer), in order. */
  function Recent<T>(s: seq<T>, n: nat): (r: seq<T>)
    ensures |r| == if |s| <= n then |s| else n
  {
    if |s| <= n then s else s[|s| - n..]
  }

  /** `Recent` keeps a suffix: its `i`-th element is the matching element of `s`. */
  lemma RecentAt<T>(s: seq<T>, n: nat, i: nat)
    requires i < |Recent(s, n)|
    ensures Recent(s, n)[i] == s[|s| - |Recent(s, n)| + i]
  {
  }

  /** `deque.append(v)` on a deque with `maxlen == cap`. */
  function BoundedAppend<T>(q: seq<T>, v: T, cap: nat): seq<T>
  {
    Recent(q + [v], cap)
  }

  /** Appending to a deque that is not full evicts nothing. */
  lemma AppendNoEviction<T>(q: seq<T>, v: T, cap: nat)
    requires |q| < cap
    ensures BoundedAppend(q, v, cap) == q + [v]
  {
  }

  /** A deque of capacity `cap` fed the values `s` holds exactly their last `cap`:
      keeping the recent window and appending is the same as taking the recent
      window of the longer history. */
  lemma RecentAppend<T>(s: seq<T>, v: T, cap: nat)
    ensures BoundedAppend(Recent(s, cap), v, cap) == Recent(s + [v], cap)
  {
    var a, b := BoundedAppend(Recent(s, cap), v, cap), Recent(s + [v], cap);
    assert |a| == |b|;
    forall i | 0 <= i < |a|
      ensures a[i] == b[i]
    {
      var t := Recent(s, cap) + [v];
      RecentAt(t, cap, i);
      RecentAt(s + [v], cap, i);
      if |t| - |a| + i < |t| - 1 {
        RecentAt(s, cap, |t| - |a| + i);
      }
    }
  }
}
