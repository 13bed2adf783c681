/** Counting the integer instants of a half-open interval that satisfy a property. */
module Instants {
  ghost function Count(p: int -> bool, lo: int, hi: int): nat
    decreases hi - lo
  {
    if hi <= lo then 0 else Count(p, lo, hi - 1) + (if p(hi - 1) then 1 else 0)
  }

  /** Count is the size of the set it describes. */
  lemma {:induction false} CountIsCardinality(p: int -> bool, lo: int, hi: int)
    ensures Count(p, lo, hi) == |set t | lo <= t < hi && p(t)|
    decreases hi - lo
  {
    if lo < hi {
      CountIsCardinality(p, lo, hi - 1);
      var before := set t | lo <= t < hi - 1 && p(t);
      var all := set t | lo <= t < hi && p(t);
      assert all == if p(hi - 1) then before + {hi - 1} else before;
    } else {
      assert (set t | lo <= t < hi && p(t)) == {};
    }
  }

  lemma {:induction false} CountSplit(p: int -> bool, lo: int, mid: int, hi: int)
    requires lo <= mid <= hi
    ensures Count(p, lo, hi) == Count(p, lo, mid) + Count(p, mid, hi)
    decreases hi - mid
  {
    if mid < hi {
      CountSplit(p, lo, mid, hi - 1);
    }
  }

  /** Over a stretch where the property does not change, the count is the length or nothing. */
  lemma {:induction false} CountConstant(p: int -> bool, v: bool, lo: int, hi: int)
    requires lo <= hi
    requires forall t | lo <= t < hi :: p(t) == v
    ensures Count(p, lo, hi) == if v then hi - lo else 0
    decreases hi - lo
  {
    if lo < hi {
      CountConstant(p, v, lo, hi - 1);
    }
  }

  lemma {:induction false} CountAgrees(p: int -> bool, q: int -> bool, lo: int, hi: int)
    requires forall t | lo <= t < hi :: p(t) == q(t)
    ensures Count(p, lo, hi) == Count(q, lo, hi)
    decreases hi - lo
  {
    if lo < hi {
      CountAgrees(p, q, lo, hi - 1);
    }
  }
}
