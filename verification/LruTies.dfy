/** What the bounded cache keeps when several requests may carry the same time stamp. */
module LruTies {
  import opened LruList

  /** When a key was last served, and which request last put it into the map. */
  datatype Use = Use(time: int, born: nat)

  /** The order in which the cache gives keys up: by time of use, and within one instant by map order. */
  predicate Before(a: Use, b: Use) {
    a.time < b.time || (a.time == b.time && a.born < b.born)
  }

  /** What is known of every key ever served, after the n-th request, which came at time `now`. */
  ghost function Served<K, V>(entries: seq<Entry<K, V>>, uses: map<K, Use>, made: Entry<K, V>, creatable: bool,
                              n: nat): map<K, Use> {
    if IndexOf(entries, made.key) < |entries| then
      (if made.key in uses then uses[made.key := Use(made.lastUsedAt, uses[made.key].born)] else uses)
    else if creatable then uses[made.key := Use(made.lastUsedAt, n)]
    else uses
  }

  /** The entry's stamp is its last use, and entries stand in the order they were put in. */
  ghost predicate Stamped<K(!new), V>(entries: seq<Entry<K, V>>, uses: map<K, Use>, n: nat, now: int) {
    && UniqueKeys(entries)
    && (forall i | 0 <= i < |entries| :: InStep(entries[i], uses, n, now))
    && (forall i, j | 0 <= i < j < |entries| && entries[i].key in uses && entries[j].key in uses ::
          uses[entries[i].key].born < uses[entries[j].key].born)
  }

  ghost predicate InStep<K(!new), V>(e: Entry<K, V>, uses: map<K, Use>, n: nat, now: int) {
    e.key in uses && uses[e.key].time == e.lastUsedAt <= now && uses[e.key].born < n
  }

  /** Every key that was given up was due before every key that is kept. */
  ghost predicate KeepsLatest<K(!new), V>(entries: seq<Entry<K, V>>, uses: map<K, Use>) {
    forall k, e | k in uses && e in entries && e.key in uses && IndexOf(entries, k) == |entries| ::
      Before(uses[k], uses[e.key])
  }

  /** The cache holds the keys served last, ties going by map order. */
  ghost predicate Ranked<K(!new), V>(entries: seq<Entry<K, V>>, uses: map<K, Use>, n: nat, now: int) {
    Stamped(entries, uses, n, now) && KeepsLatest(entries, uses)
  }

  lemma NotIndexed<K(!new), V>(entries: seq<Entry<K, V>>, k: K)
    ensures IndexOf(entries, k) == |entries| <==> forall e | e in entries :: e.key != k
  {
  }

  lemma TouchRanked<K(!new), V>(entries: seq<Entry<K, V>>, uses: map<K, Use>, n: nat, last: int, i: nat, now: int)
    requires Ranked(entries, uses, n, last) && last <= now && i < |entries|
    ensures entries[i].key in uses
    ensures Ranked(entries[i := entries[i].(lastUsedAt := now)],
                   uses[entries[i].key := Use(now, uses[entries[i].key].born)], n + 1, now)
  {
    assert InStep(entries[i], uses, n, last);
    TouchStamped(entries, uses, n, last, i, now);
    var key := entries[i].key;
    var after, later := entries[i := entries[i].(lastUsedAt := now)], uses[key := Use(now, uses[key].born)];
    hide IndexOf, Stamped, InStep, Before;
    forall k, e | k in later && e in after && e.key in later && IndexOf(after, k) == |after|
      ensures Before(later[k], later[e.key])
    {
      TouchedLater(entries, uses, n, last, i, now, k, e);
    }
  }

  lemma TouchStamped<K(!new), V>(entries: seq<Entry<K, V>>, uses: map<K, Use>, n: nat, last: int, i: nat, now: int)
    requires Stamped(entries, uses, n, last) && last <= now && i < |entries| && entries[i].key in uses
    ensures Stamped(entries[i := entries[i].(lastUsedAt := now)],
                    uses[entries[i].key := Use(now, uses[entries[i].key].born)], n + 1, now)
  {
    var after := entries[i := entries[i].(lastUsedAt := now)];
    assert forall j | 0 <= j < |after| :: after[j].key == entries[j].key && InStep(entries[j], uses, n, last);
  }

  lemma TouchedLater<K(!new), V>(entries: seq<Entry<K, V>>, uses: map<K, Use>, n: nat, last: int, i: nat, now: int,
                                 k: K, e: Entry<K, V>)
    requires Ranked(entries, uses, n, last) && last <= now && i < |entries| && entries[i].key in uses
    requires k in uses && e in entries[i := entries[i].(lastUsedAt := now)] && e.key in uses
    requires IndexOf(entries[i := entries[i].(lastUsedAt := now)], k) == |entries|
    ensures k != entries[i].key
    ensures Before(uses[k], if e.key == entries[i].key then Use(now, uses[e.key].born) else uses[e.key])
  {
    var after := entries[i := entries[i].(lastUsedAt := now)];
    SameKeysIndexed(entries, after, k);
    NotIndexed(entries, k);
    hide IndexOf, UniqueKeys;
    assert entries[i] in entries;
    var j :| 0 <= j < |after| && after[j] == e;
    assert entries[j] in entries && entries[j].key == e.key;
    assert InStep(entries[j], uses, n, last);
    assert Before(uses[k], uses[entries[j].key]);
  }

  lemma SameKeysIndexed<K(!new), V>(entries: seq<Entry<K, V>>, after: seq<Entry<K, V>>, k: K)
    requires |after| == |entries| && forall j | 0 <= j < |entries| :: after[j].key == entries[j].key
    ensures IndexOf(after, k) == IndexOf(entries, k)
  {
    var p, q := IndexOf(entries, k), IndexOf(after, k);
    hide IndexOf;
    assert p < |entries| ==> after[p].key == k;
    assert q < |entries| ==> entries[q].key == k;
  }

  lemma EvictRanked<K(!new), V>(entries: seq<Entry<K, V>>, uses: map<K, Use>, n: nat, last: int, max: int)
    requires Ranked(entries, uses, n, last)
    ensures Ranked(Evicted(entries, max), uses, n, last)
  {
    if |entries| >= max && entries != [] {
      var o := OldestIndex(entries);
      RemoveStamped(entries, uses, n, last, o);
      hide IndexOf, OldestIndex, Stamped, RemoveAt, IsOldest;
      var after := RemoveAt(entries, o);
      forall k, e | k in uses && e in after && e.key in uses && IndexOf(after, k) == |after|
        ensures Before(uses[k], uses[e.key])
      {
        GivenUpEarlier(entries, uses, n, last, o, k, e);
      }
    }
  }

  lemma RemoveStamped<K(!new), V>(entries: seq<Entry<K, V>>, uses: map<K, Use>, n: nat, last: int, o: nat)
    requires Stamped(entries, uses, n, last) && o < |entries|
    ensures Stamped(RemoveAt(entries, o), uses, n, last)
  {
    var after := RemoveAt(entries, o);
    assert forall j | 0 <= j < |after| :: after[j] == entries[if j < o then j else j + 1];
    hide InStep;
  }

  lemma RemovedMembers<K(!new), V>(entries: seq<Entry<K, V>>, o: nat, e: Entry<K, V>)
    requires UniqueKeys(entries) && o < |entries|
    ensures e in RemoveAt(entries, o) <==> e in entries && e.key != entries[o].key
  {
    var after := RemoveAt(entries, o);
    assert forall j | 0 <= j < |after| :: after[j] == entries[if j < o then j else j + 1];
    if e in entries && e.key != entries[o].key {
      var j :| 0 <= j < |entries| && entries[j] == e;
      assert after[if j < o then j else j - 1] == e;
    }
  }

  lemma GivenUpEarlier<K(!new), V>(entries: seq<Entry<K, V>>, uses: map<K, Use>, n: nat, last: int, o: nat, k: K,
                                         e: Entry<K, V>)
    requires Ranked(entries, uses, n, last) && IsOldest(entries, o) && k in uses && e.key in uses
    requires e in RemoveAt(entries, o) && IndexOf(RemoveAt(entries, o), k) == |RemoveAt(entries, o)|
    ensures Before(uses[k], uses[e.key])
  {
    RemovedMembers(entries, o, e);
    if k == entries[o].key {
      var j :| 0 <= j < |entries| && entries[j] == e;
      OldestIsDue(entries, uses, n, last, o, j);
    } else {
      NotIndexed(RemoveAt(entries, o), k);
      NotIndexed(entries, k);
      hide IndexOf, RemoveAt, IsOldest, Stamped;
      forall x | x in entries ensures x.key != k {
        RemovedMembers(entries, o, x);
      }
    }
  }

  lemma OldestIsDue<K(!new), V>(entries: seq<Entry<K, V>>, uses: map<K, Use>, n: nat, last: int, o: nat, j: nat)
    requires Stamped(entries, uses, n, last) && IsOldest(entries, o) && j < |entries| && j != o
    ensures entries[o].key in uses && entries[j].key in uses && Before(uses[entries[o].key], uses[entries[j].key])
  {
    assert InStep(entries[o], uses, n, last) && InStep(entries[j], uses, n, last);
  }

  lemma AddRanked<K(!new), V>(entries: seq<Entry<K, V>>, uses: map<K, Use>, n: nat, last: int, e: Entry<K, V>)
    requires Ranked(entries, uses, n, last) && last <= e.lastUsedAt && IndexOf(entries, e.key) == |entries|
    requires UsesBounded(uses, n, last)
    ensures Ranked(entries + [e], uses[e.key := Use(e.lastUsedAt, n)], n + 1, e.lastUsedAt)
  {
    var after, later := entries + [e], uses[e.key := Use(e.lastUsedAt, n)];
    NotIndexed(entries, e.key);
    AddStamped(entries, uses, n, last, e);
    hide IndexOf, Stamped;
    forall k, x | k in later && x in after && x.key in later && IndexOf(after, k) == |after|
      ensures Before(later[k], later[x.key])
    {
      NotIndexed(after, k);
      NotIndexed(entries, k);
      assert e in after && k != e.key;
      assert forall y | y in entries :: y in after;
      if x != e { assert x in entries; }
    }
  }

  lemma AddStamped<K(!new), V>(entries: seq<Entry<K, V>>, uses: map<K, Use>, n: nat, last: int, e: Entry<K, V>)
    requires Stamped(entries, uses, n, last) && last <= e.lastUsedAt && forall x | x in entries :: x.key != e.key
    ensures Stamped(entries + [e], uses[e.key := Use(e.lastUsedAt, n)], n + 1, e.lastUsedAt)
  {
    assert forall j | 0 <= j < |entries| :: entries[j] in entries && InStep(entries[j], uses, n, last);
  }

  ghost predicate UsesBounded<K>(uses: map<K, Use>, n: nat, now: int) {
    forall k | k in uses :: uses[k].time <= now && uses[k].born < n
  }

  /** One request under a clock that may stand still keeps exactly the keys served last, creation failures included. */
  lemma RequestRanked<K(!new), V>(entries: seq<Entry<K, V>>, uses: map<K, Use>, n: nat, last: int, max: int,
                                  made: Entry<K, V>, creatable: bool)
    requires Ranked(entries, uses, n, last) && UsesBounded(uses, n, last) && last <= made.lastUsedAt
    ensures var later := Served(entries, uses, made, creatable, n);
            Ranked(Requested(entries, max, made, creatable), later, n + 1, made.lastUsedAt)
            && UsesBounded(later, n + 1, made.lastUsedAt)
  {
    var i := IndexOf(entries, made.key);
    hide IndexOf, Evicted;
    if i < |entries| {
      TouchRanked(entries, uses, n, last, i, made.lastUsedAt);
    } else {
      EvictRanked(entries, uses, n, last, max);
      if creatable {
        StillNotIndexed(entries, made.key, max);
        AddRanked(Evicted(entries, max), uses, n, last, made);
      } else {
        LaterRanked(Evicted(entries, max), uses, n, last, n + 1, made.lastUsedAt);
      }
    }
  }

  lemma StillNotIndexed<K(!new), V>(entries: seq<Entry<K, V>>, key: K, max: int)
    requires IndexOf(entries, key) == |entries|
    ensures IndexOf(Evicted(entries, max), key) == |Evicted(entries, max)|
  {
    NotIndexed(entries, key);
    NotIndexed(Evicted(entries, max), key);
    hide IndexOf;
  }

  lemma LaterRanked<K(!new), V>(entries: seq<Entry<K, V>>, uses: map<K, Use>, n: nat, last: int, m: nat, now: int)
    requires Ranked(entries, uses, n, last) && n <= m && last <= now
    ensures Ranked(entries, uses, m, now)
  {
    assert forall i | 0 <= i < |entries| :: InStep(entries[i], uses, n, last);
  }

  /** The map is as full as the keys ever served allow. */
  ghost predicate Full<K(!new), V>(entries: seq<Entry<K, V>>, uses: map<K, Use>, max: int) {
    |entries| == if |uses| < max then |uses| else max
  }

  lemma RequestFull<K(!new), V>(entries: seq<Entry<K, V>>, uses: map<K, Use>, n: nat, last: int, max: int,
                                made: Entry<K, V>)
    requires Ranked(entries, uses, n, last) && Full(entries, uses, max) && 0 < max
    ensures Full(Requested(entries, max, made, true), Served(entries, uses, made, true, n), max)
  {
    var i := IndexOf(entries, made.key);
    NotIndexed(entries, made.key);
    KeysCounted(entries, uses, n, last);
    EvictedSize(entries, max);
    if i < |entries| {
      assert InStep(entries[i], uses, n, last);
      UpdateSize(uses, made.key, Use(made.lastUsedAt, uses[made.key].born));
    } else {
      UpdateSize(uses, made.key, Use(made.lastUsedAt, n));
      if made.key in uses {
        SpareKey(entries, uses.Keys, made.key);
      }
    }
    hide IndexOf, Ranked, Evicted, Keys;
  }

  lemma UpdateSize<K, V>(m: map<K, V>, k: K, v: V)
    ensures |m[k := v]| == |m| + if k in m then 0 else 1
  {
    assert m[k := v].Keys == m.Keys + {k};
    assert k in m ==> m.Keys + {k} == m.Keys;
    assert |m[k := v].Keys| == |m[k := v]| && |m.Keys| == |m|;
  }

  lemma EvictedSize<K(!new), V>(entries: seq<Entry<K, V>>, max: int)
    requires 0 < max && |entries| <= max
    ensures |Evicted(entries, max)| == if |entries| == max then max - 1 else |entries|
  {
  }

  lemma SpareKey<K(!new), V>(entries: seq<Entry<K, V>>, keys: set<K>, k: K)
    requires Keys(entries) <= keys && k in keys && forall e | e in entries :: e.key != k
    ensures |Keys(entries)| < |keys|
  {
    assert Keys(entries) <= keys - {k};
    SubsetSize(Keys(entries), keys - {k});
  }

  lemma {:induction false} SubsetSize<K>(a: set<K>, b: set<K>)
    requires a <= b
    ensures |a| <= |b|
  {
    if a != {} {
      var x :| x in a;
      SubsetSize(a - {x}, b - {x});
    }
  }

  lemma KeysCounted<K(!new), V>(entries: seq<Entry<K, V>>, uses: map<K, Use>, n: nat, last: int)
    requires Ranked(entries, uses, n, last)
    ensures Keys(entries) <= uses.Keys && |Keys(entries)| == |entries|
  {
    forall e | e in entries ensures e.key in uses {
      var i :| 0 <= i < |entries| && entries[i] == e;
      assert InStep(entries[i], uses, n, last);
    }
    UniqueCounted(entries);
  }

  lemma {:induction false} UniqueCounted<K(!new), V>(entries: seq<Entry<K, V>>)
    requires UniqueKeys(entries)
    ensures |Keys(entries)| == |entries|
  {
    if entries != [] {
      var front, last := entries[..|entries| - 1], entries[|entries| - 1];
      UniqueCounted(front);
      assert entries == front + [last];
      assert Keys(entries) == Keys(front) + {last.key};
    }
  }
}
