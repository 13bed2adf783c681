/** A bounded cache kept as a list in insertion order, and its reading as a recency list. */
module LruList {
  datatype Entry<K, V> = Entry(key: K, value: V, lastUsedAt: int)

  ghost function Keys<K, V>(entries: seq<Entry<K, V>>): set<K> {
    set e | e in entries :: e.key
  }

  ghost predicate UniqueKeys<K, V>(entries: seq<Entry<K, V>>) {
    forall i, j | 0 <= i < j < |entries| :: entries[i].key != entries[j].key
  }

  function IndexOf<K(==), V>(entries: seq<Entry<K, V>>, key: K): (i: nat)
    ensures i <= |entries|
    ensures i < |entries| ==> entries[i].key == key
    ensures forall j | 0 <= j < i :: entries[j].key != key
  {
    if entries == [] || entries[0].key == key then 0 else 1 + IndexOf(entries[1..], key)
  }

  function RemoveAt<K(==), V>(entries: seq<Entry<K, V>>, i: nat): seq<Entry<K, V>>
    requires i < |entries|
  {
    entries[..i] + entries[i + 1..]
  }

  /** The first entry of least lastUsedAt. */
  ghost predicate IsOldest<K, V>(entries: seq<Entry<K, V>>, i: nat) {
    && i < |entries|
    && (forall j | 0 <= j < |entries| :: entries[i].lastUsedAt <= entries[j].lastUsedAt)
    && (forall j | 0 <= j < i :: entries[i].lastUsedAt < entries[j].lastUsedAt)
  }

  ghost function OldestIndex<K, V>(entries: seq<Entry<K, V>>): (i: nat)
    requires entries != []
    ensures IsOldest(entries, i)
  {
    if |entries| == 1 then 0
    else
      var i := OldestIndex(entries[..|entries| - 1]);
      if entries[|entries| - 1].lastUsedAt < entries[i].lastUsedAt then |entries| - 1 else i
  }

  ghost function Evicted<K, V>(entries: seq<Entry<K, V>>, max: int): seq<Entry<K, V>> {
    if |entries| < max || entries == [] then entries else RemoveAt(entries, OldestIndex(entries))
  }

  /** The cache after a request: `made` is the entry that would be created for it, stamped with the current time. */
  ghost function Requested<K, V>(entries: seq<Entry<K, V>>, max: int, made: Entry<K, V>,
                                 creatable: bool): seq<Entry<K, V>> {
    var i := IndexOf(entries, made.key);
    if i < |entries| then entries[i := entries[i].(lastUsedAt := made.lastUsedAt)]
    else if creatable then Evicted(entries, max) + [made]
    else Evicted(entries, max)
  }

  lemma OldestIsUnique<K, V>(entries: seq<Entry<K, V>>, i: nat, j: nat)
    requires IsOldest(entries, i) && IsOldest(entries, j)
    ensures i == j
  {
    var usedI, usedJ := entries[i].lastUsedAt, entries[j].lastUsedAt;
  }

  method FindOldest<K(==), V>(entries: seq<Entry<K, V>>) returns (oldest: nat)
    requires entries != []
    ensures oldest == OldestIndex(entries)
  {
    oldest := 0;
    var i := 1;
    while i < |entries|
      invariant 1 <= i <= |entries| && oldest < i && IsOldest(entries[..i], oldest)
    {
      if entries[i].lastUsedAt < entries[oldest].lastUsedAt {
        oldest := i;
      }
      i := i + 1;
    }
    assert entries[..i] == entries;
    OldestIsUnique(entries, oldest, OldestIndex(entries));
  }

  // ---- Least recently used, over whole runs ------------------------------------------

  function Position<K(==)>(keys: seq<K>, key: K): (p: nat)
    ensures p <= |keys|
    ensures p < |keys| ==> keys[p] == key
    ensures forall q | 0 <= q < p :: keys[q] != key
    ensures p < |keys| <==> key in keys
  {
    if keys == [] || keys[0] == key then 0 else 1 + Position(keys[1..], key)
  }

  /** A list of distinct keys without one of them. */
  function Without<K(==)>(keys: seq<K>, key: K): seq<K> {
    var p := Position(keys, key);
    if p < |keys| then keys[..p] + keys[p + 1..] else keys
  }

  function Take<K(==)>(keys: seq<K>, n: int): seq<K> {
    if 0 <= n < |keys| then keys[..n] else keys
  }

  /** The distinct keys of a request history, the most recently requested first. */
  ghost function MostRecent<K>(history: seq<K>): seq<K> {
    if history == [] then []
    else
      var last := history[|history| - 1];
      [last] + Without(MostRecent(history[..|history| - 1]), last)
  }

  /** A recency list answering one request: the abstract cache. */
  ghost function RecencyStep<K>(recency: seq<K>, max: int, key: K, creatable: bool): seq<K> {
    if key in recency then [key] + Without(recency, key)
    else
      var kept := Take(recency, max - 1);
      if creatable then [key] + kept else kept
  }

  ghost predicate Distinct<K>(keys: seq<K>) {
    forall i, j | 0 <= i < j < |keys| :: keys[i] != keys[j]
  }

  /** When each cached key was last used. */
  ghost function Uses<K, V>(entries: seq<Entry<K, V>>): map<K, int> {
    map k | k in Keys(entries) :: entries[IndexOf(entries, k)].lastUsedAt
  }

  /** The list names exactly the map's keys, once each, the most recently used first. */
  ghost predicate Lists<K(!new)>(uses: map<K, int>, recency: seq<K>) {
    && Distinct(recency)
    && (forall k :: k in recency <==> k in uses)
    && Descends(uses, recency)
  }

  ghost predicate Descends<K>(uses: map<K, int>, recency: seq<K>)
    requires forall k | k in recency :: k in uses
  {
    forall i, j | 0 <= i < j < |recency| :: uses[recency[i]] > uses[recency[j]]
  }

  /** The cache holds exactly the listed keys, and they were used in the listed order. */
  ghost predicate Refines<K(!new), V>(entries: seq<Entry<K, V>>, recency: seq<K>) {
    UniqueKeys(entries) && |entries| == |recency| && Lists(Uses(entries), recency)
  }

  ghost predicate UsedBefore<K, V>(entries: seq<Entry<K, V>>, now: int) {
    forall i | 0 <= i < |entries| :: entries[i].lastUsedAt < now
  }

  ghost predicate AllBefore<K>(uses: map<K, int>, now: int) {
    forall k | k in uses :: uses[k] < now
  }

  lemma UsesAre<K(!new), V>(entries: seq<Entry<K, V>>, i: nat)
    requires UniqueKeys(entries) && i < |entries|
    ensures entries[i].key in Uses(entries) && Uses(entries)[entries[i].key] == entries[i].lastUsedAt
  {
  }

  lemma UsesWitness<K(!new), V>(entries: seq<Entry<K, V>>, k: K) returns (i: nat)
    requires UniqueKeys(entries) && k in Uses(entries)
    ensures i < |entries| && entries[i].key == k && Uses(entries)[k] == entries[i].lastUsedAt
  {
    i := IndexOf(entries, k);
    var e :| e in entries && e.key == k;
  }

  lemma TouchedEntry<K(!new), V>(entries: seq<Entry<K, V>>, i: nat, now: int, j: nat)
    requires UniqueKeys(entries) && i < |entries| && j < |entries|
    ensures var e := entries[i := entries[i].(lastUsedAt := now)][j];
            e.key == entries[j].key && e.lastUsedAt == if e.key == entries[i].key then now else entries[j].lastUsedAt
  {
  }

  lemma TouchUses<K(!new), V>(entries: seq<Entry<K, V>>, i: nat, now: int)
    requires UniqueKeys(entries) && i < |entries|
    ensures var after := entries[i := entries[i].(lastUsedAt := now)];
            UniqueKeys(after) && Uses(after) == Uses(entries)[entries[i].key := now]
  {
    var after := entries[i := entries[i].(lastUsedAt := now)];
    assert UniqueKeys(after);
    hide *;
    UsesAre(entries, i);
    var before, later := Uses(entries), Uses(after);
    forall k ensures k in later <==> k in before
             ensures k in later ==> later[k] == if k == entries[i].key then now else before[k] {
      if k in later { var j := UsesWitness(after, k); TouchedEntry(entries, i, now, j); UsesAre(entries, j); }
      if k in before { var j := UsesWitness(entries, k); TouchedEntry(entries, i, now, j); UsesAre(after, j); }
    }
  }

  lemma AddUses<K(!new), V>(entries: seq<Entry<K, V>>, e: Entry<K, V>)
    requires UniqueKeys(entries) && e.key !in Uses(entries)
    ensures UniqueKeys(entries + [e]) && Uses(entries + [e]) == Uses(entries)[e.key := e.lastUsedAt]
  {
    var after := entries + [e];
    forall j | 0 <= j < |entries| ensures entries[j].key != e.key { UsesAre(entries, j); }
    hide Uses;
    assert after[|entries|] == e;
    UsesAre(after, |entries|);
    forall k ensures k in Uses(after) <==> k in Uses(entries) || k == e.key
             ensures k in Uses(after) && k != e.key ==> Uses(after)[k] == Uses(entries)[k] {
      if k in Uses(after) && k != e.key { var j := UsesWitness(after, k); UsesAre(entries, j); }
      if k in Uses(entries) { var j := UsesWitness(entries, k); UsesAre(after, j); }
    }
  }

  lemma RemainingEntry<K(!new), V>(entries: seq<Entry<K, V>>, o: nat, j: nat)
    requires UniqueKeys(entries) && o < |entries| && j < |entries| && j != o
    ensures entries[j].key != entries[o].key
    ensures RemoveAt(entries, o)[if j < o then j else j - 1] == entries[j]
  {
  }

  lemma RemoveUses<K(!new), V>(entries: seq<Entry<K, V>>, o: nat)
    requires UniqueKeys(entries) && o < |entries|
    ensures UniqueKeys(RemoveAt(entries, o)) && Uses(RemoveAt(entries, o)) == Uses(entries) - {entries[o].key}
  {
    var after := RemoveAt(entries, o);
    assert UniqueKeys(after) && |after| == |entries| - 1;
    hide *;
    forall k ensures k in Uses(after) <==> k in Uses(entries) && k != entries[o].key
             ensures k in Uses(after) ==> Uses(after)[k] == Uses(entries)[k] {
      if k in Uses(after) {
        var j := UsesWitness(after, k);
        var was := if j < o then j else j + 1;
        RemainingEntry(entries, o, was);
        UsesAre(entries, was);
      }
      if k in Uses(entries) && k != entries[o].key {
        var j := UsesWitness(entries, k);
        RemainingEntry(entries, o, j);
        UsesAre(after, if j < o then j else j - 1);
      }
    }
  }

  lemma TouchLists<K(!new)>(uses: map<K, int>, recency: seq<K>, key: K, now: int)
    requires Lists(uses, recency) && AllBefore(uses, now) && key in uses
    ensures Lists(uses[key := now], [key] + Without(recency, key))
    ensures |Without(recency, key)| == |recency| - 1
  {
    WithoutRemoves(recency, key);
    WithoutDescends(uses, recency, key);
    hide Without;
    ConsLists(uses, Without(recency, key), key, now);
  }

  lemma WithoutDescends<K(!new)>(uses: map<K, int>, recency: seq<K>, key: K)
    requires Distinct(recency) && key in recency && (forall k | k in recency :: k in uses) && Descends(uses, recency)
    ensures |Without(recency, key)| == |recency| - 1
    ensures (forall k | k in Without(recency, key) :: k in uses) && Descends(uses, Without(recency, key))
  {
  }

  lemma ConsLists<K(!new)>(uses: map<K, int>, rest: seq<K>, key: K, now: int)
    requires Distinct(rest) && AllBefore(uses, now)
    requires forall k :: k in rest <==> k in uses && k != key
    requires Descends(uses, rest)
    ensures Lists(uses[key := now], [key] + rest)
  {
    var list, later := [key] + rest, uses[key := now];
    assert forall k :: k in list <==> k == key || k in rest;
    ConsDistinct(rest, key);
    hide Distinct, AllBefore;
    assert Descends(later, list) by {
      forall i, j | 0 <= i < j < |list| ensures later[list[i]] > later[list[j]] {
        ConsOrdered(uses, rest, key, now, i, j);
      }
    }
  }

  lemma ConsDistinct<K(!new)>(rest: seq<K>, key: K)
    requires Distinct(rest) && key !in rest
    ensures Distinct([key] + rest)
  {
  }

  lemma ConsOrdered<K(!new)>(uses: map<K, int>, rest: seq<K>, key: K, now: int, i: nat, j: nat)
    requires AllBefore(uses, now) && key !in rest && (forall k | k in rest :: k in uses) && Descends(uses, rest)
    requires i < j <= |rest|
    ensures var list, later := [key] + rest, uses[key := now];
            list[i] in later && list[j] in later && later[list[i]] > later[list[j]]
  {
    assert rest[j - 1] in rest;
    if i > 0 {
      assert rest[i - 1] in rest;
    }
  }

  lemma AddLists<K(!new)>(uses: map<K, int>, recency: seq<K>, key: K, now: int)
    requires Lists(uses, recency) && AllBefore(uses, now) && key !in uses
    ensures Lists(uses[key := now], [key] + recency)
  {
  }

  lemma DropLists<K(!new)>(uses: map<K, int>, recency: seq<K>)
    requires Lists(uses, recency) && recency != []
    ensures var n := |recency| - 1; Lists(uses - {recency[n]}, recency[..n])
  {
  }

  /** The entry evicted is the last of the recency list. */
  lemma OldestIsLast<K(!new), V>(entries: seq<Entry<K, V>>, recency: seq<K>, o: nat)
    requires Refines(entries, recency) && entries != [] && IsOldest(entries, o)
    ensures recency[|recency| - 1] == entries[o].key
  {
    UsesAre(entries, o);
    var p :| 0 <= p < |recency| && recency[p] == entries[o].key;
    var last := UsesWitness(entries, recency[|recency| - 1]);
    assert entries[o].lastUsedAt <= entries[last].lastUsedAt;
  }

  lemma EvictRefines<K(!new), V>(entries: seq<Entry<K, V>>, recency: seq<K>, max: int)
    requires Refines(entries, recency) && 0 < max && |entries| <= max
    ensures Refines(Evicted(entries, max), Take(recency, max - 1))
  {
    if |entries| == max {
      var o := OldestIndex(entries);
      OldestIsLast(entries, recency, o);
      hide Uses, Lists;
      RemoveUses(entries, o);
      DropLists(Uses(entries), recency);
    }
  }

  lemma RequestRefines<K(!new), V>(entries: seq<Entry<K, V>>, recency: seq<K>, max: int, made: Entry<K, V>,
                                         creatable: bool)
    requires Refines(entries, recency) && UsedBefore(entries, made.lastUsedAt) && 0 < max && |entries| <= max
    ensures var after := Requested(entries, max, made, creatable);
            && Refines(after, RecencyStep(recency, max, made.key, creatable))
            && UsedBefore(after, made.lastUsedAt + 1) && |after| <= max
  {
    var now := made.lastUsedAt;
    hide Uses, Lists, OldestIndex;
    UsesBound(entries, now);
    var i := IndexOf(entries, made.key);
    if i < |entries| {
      UsesAre(entries, i);
      TouchUses(entries, i, now);
      TouchLists(Uses(entries), recency, made.key, now);
      ListMembers(Uses(entries), recency, made.key);
    } else {
      EvictRefines(entries, recency, max);
      EvictedFrom(entries, max);
      NotCached(entries, made.key);
      NotCached(Evicted(entries, max), made.key);
      ListMembers(Uses(entries), recency, made.key);
      if creatable {
        AddUses(Evicted(entries, max), made);
        UsesBound(Evicted(entries, max), now);
        AddLists(Uses(Evicted(entries, max)), Take(recency, max - 1), made.key, now);
      }
    }
  }

  lemma ListMembers<K(!new)>(uses: map<K, int>, recency: seq<K>, key: K)
    requires Lists(uses, recency)
    ensures key in recency <==> key in uses
  {
  }

  lemma NotCached<K(!new), V>(entries: seq<Entry<K, V>>, key: K)
    requires UniqueKeys(entries) && forall e | e in entries :: e.key != key
    ensures key !in Uses(entries)
  {
  }

  lemma UsesBound<K(!new), V>(entries: seq<Entry<K, V>>, now: int)
    requires UniqueKeys(entries) && UsedBefore(entries, now)
    ensures AllBefore(Uses(entries), now)
  {
  }

  lemma EvictedFrom<K(!new), V>(entries: seq<Entry<K, V>>, max: int)
    requires 0 < max && |entries| <= max
    ensures forall e | e in Evicted(entries, max) :: e in entries
    ensures |Evicted(entries, max)| < max
  {
  }

  lemma WithoutRemoves<K(!new)>(keys: seq<K>, key: K)
    requires Distinct(keys)
    ensures Distinct(Without(keys, key))
    ensures forall k :: k in Without(keys, key) <==> k in keys && k != key
  {
  }

  lemma {:induction false} MostRecentDistinct<K(!new)>(history: seq<K>)
    ensures Distinct(MostRecent(history))
    ensures forall k :: k in MostRecent(history) <==> k in history
  {
    if history != [] {
      var front, last := history[..|history| - 1], history[|history| - 1];
      var rest := Without(MostRecent(front), last);
      MostRecentDistinct(front);
      WithoutRemoves(MostRecent(front), last);
      assert MostRecent(history) == [last] + rest;
      hide Without, Position, MostRecent;
      ConsDistinct(rest, last);
      hide Distinct;
      assert history == front + [last];
      forall k ensures k in [last] + rest <==> k in history {
        assert k in [last] + rest <==> k == last || k in rest;
        assert k in history <==> k in front || k == last;
      }
    }
  }

  lemma PositionTaken<K(!new)>(keys: seq<K>, n: nat, key: K)
    requires n <= |keys|
    ensures Position(keys[..n], key) == if Position(keys, key) < n then Position(keys, key) else n
  {
    var p, q := Position(keys, key), Position(keys[..n], key);
    hide Position;
    assert q < n ==> keys[q] == key;
    assert p < n ==> keys[..n][p] == key;
  }

  lemma TakeCons<K(!new)>(key: K, rest: seq<K>, n: nat)
    requires 0 < n
    ensures Take([key] + rest, n) == [key] + Take(rest, n - 1)
  {
  }

  lemma CutOut<T>(s: seq<T>, p: nat, n: nat)
    requires p < |s| && 0 < n <= |s|
    ensures (s[..p] + s[p + 1..])[..n - 1] == if p < n then s[..n][..p] + s[..n][p + 1..] else s[..n - 1]
  {
  }

  lemma TakeWithout<K(!new)>(full: seq<K>, n: nat, key: K)
    requires 0 < n < |full|
    ensures key in Take(full, n) ==> Without(Take(full, n), key) == Take(Without(full, key), n - 1)
    ensures key !in Take(full, n) ==> Take(Take(full, n), n - 1) == Take(Without(full, key), n - 1)
  {
    var p, front := Position(full, key), full[..n];
    PositionTaken(full, n, key);
    assert Without(front, key) == if p < n then front[..p] + front[p + 1..] else front;
    assert Without(full, key) == if p < |full| then full[..p] + full[p + 1..] else full;
    hide Position, Without;
    assert front[..n - 1] == full[..n - 1];
    if p < |full| {
      CutOut(full, p, n);
    }
  }

  /** Bounding the recency list loses nothing: one step on the bounded list is the bounded step on the full one. */
  lemma BoundedStep<K(!new)>(full: seq<K>, max: int, key: K)
    requires 0 < max
    ensures RecencyStep(Take(full, max), max, key, true) == Take([key] + Without(full, key), max)
  {
    TakeCons(key, Without(full, key), max);
    if max < |full| {
      hide Take, Without;
      TakeWithout(full, max, key);
    }
  }
}
