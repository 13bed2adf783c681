/** Lists without repetitions, and how many of their elements a set holds. */
module Sequences {
  ghost predicate Distinct<T>(s: seq<T>) {
    forall i, j | 0 <= i < j < |s| :: s[i] != s[j]
  }

  /** What a query for the listed elements finds of those that exist. */
  function Found<T(==)>(s: seq<T>, existing: set<T>): set<T> {
    set x | x in s && x in existing
  }

  /** As many are found as are listed exactly when all exist and none is listed twice. */
  lemma {:induction false} FoundAll<T>(s: seq<T>, existing: set<T>)
    ensures |Found(s, existing)| <= |s|
    ensures |Found(s, existing)| == |s| <==> Distinct(s) && forall x | x in s :: x in existing
  {
    if s == [] {
      assert Found(s, existing) == {};
    } else {
      var front, last := s[..|s| - 1], s[|s| - 1];
      FoundAll(front, existing);
      assert s == front + [last];
      DistinctOneMore(front, last);
      FoundOneMore(front, last, existing);
      assert last in Found(front, existing) <==> last in front && last in existing;
      hide Distinct, Found;
    }
  }

  lemma FoundOneMore<T>(front: seq<T>, last: T, existing: set<T>)
    ensures Found(front + [last], existing) == Found(front, existing) + if last in existing then {last} else {}
  {
  }

  lemma DistinctOneMore<T>(front: seq<T>, last: T)
    ensures Distinct(front + [last]) <==> Distinct(front) && last !in front
  {
    var s := front + [last];
    assert forall i | 0 <= i < |front| :: s[i] == front[i];
    if Distinct(s) {
      forall i | 0 <= i < |front| ensures front[i] != last {
        assert s[i] != s[|front|];
      }
    }
  }
}
