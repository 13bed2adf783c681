/** The attendant app's offline action queue: a batch submitted under idempotency keys. */
module SyncBatch {
  import opened Wrappers
  import Text

  datatype UserId = UserId(value: string)
  datatype IdempotencyKey = IdempotencyKey(value: string)
  datatype Name = Name(value: string)

  const QUEUED := Name("QUEUED")

  /** Rows are unique per user and idempotency key. */
  datatype Key = Key(userId: UserId, idempotencyKey: IdempotencyKey)

  datatype ActionDto = ActionDto(idempotencyKey: IdempotencyKey, actionType: Name, createdAt: Option<string>)

  datatype SyncAction = SyncAction(id: nat, actionType: Name, status: Name, sourceCreatedAt: Option<int>)

  datatype Item = Item(id: nat, idempotencyKey: IdempotencyKey, actionType: Name, status: Name, replayed: bool)

  datatype Error = NoAssignment | SyncDisabled | InvalidDate

  /** `parse` reads an ISO date-time string, if it is one. */
  function ParseOptionalIsoDate(value: Option<string>, parse: string -> Option<int>): Result<Option<int>, Error> {
    match value
    case None => Ok(None)
    case Some(v) =>
      var trimmed := Text.Trim(v, Text.JS_BLANKS);
      if trimmed == "" then Ok(None)
      else match parse(trimmed) case Some(t) => Ok(Some(t)) case None => Err(InvalidDate)
  }

  /** No date in no text or a blank one; otherwise the trimmed text must read as one. */
  lemma ParsedIff(value: Option<string>, parse: string -> Option<int>)
    ensures ParseOptionalIsoDate(value, parse) == Ok(None)
            <==> value.None? || Text.AllIn(value.value, Text.JS_BLANKS)
    ensures forall core, t | value.Some? && Text.IsCore(value.value, core, Text.JS_BLANKS) ::
              && (ParseOptionalIsoDate(value, parse) == Ok(Some(t)) <==> parse(core) == Some(t))
              && (ParseOptionalIsoDate(value, parse) == Err(InvalidDate) <==> parse(core) == None)
  {
    if value.Some? {
      Text.BlankIff(value.value, Text.JS_BLANKS);
      forall core | Text.IsCore(value.value, core, Text.JS_BLANKS)
        ensures Text.Trim(value.value, Text.JS_BLANKS) == core != ""
      {
        Text.CoreIff(value.value, core, Text.JS_BLANKS);
      }
    }
  }

  function KeyOf(userId: UserId, a: ActionDto): Key { Key(userId, a.idempotencyKey) }

  /** The keys a batch is submitted under. */
  ghost function BatchKeys(userId: UserId, actions: seq<ActionDto>): set<Key> {
    if actions == [] then {}
    else BatchKeys(userId, actions[..|actions| - 1]) + {KeyOf(userId, actions[|actions| - 1])}
  }

  lemma {:induction false} BatchKeysAre(userId: UserId, actions: seq<ActionDto>)
    ensures forall k ::
              k in BatchKeys(userId, actions) <==> exists j :: 0 <= j < |actions| && KeyOf(userId, actions[j]) == k
  {
    if actions != [] {
      var front := actions[..|actions| - 1];
      BatchKeysAre(userId, front);
      forall k
        ensures k in BatchKeys(userId, actions) <==> exists j :: 0 <= j < |actions| && KeyOf(userId, actions[j]) == k
      {
        if k in BatchKeys(userId, front) {
          var j :| 0 <= j < |front| && KeyOf(userId, front[j]) == k;
          assert KeyOf(userId, actions[j]) == k;
        }
        if j :| 0 <= j < |actions| && KeyOf(userId, actions[j]) == k {
          assert j < |front| ==> KeyOf(userId, front[j]) == k;
        }
      }
    }
  }

  /** The action is the batch's first under a key the store does not hold. */
  ghost predicate IsNew(store: map<Key, SyncAction>, userId: UserId, actions: seq<ActionDto>, i: int)
    requires 0 <= i < |actions|
  {
    KeyOf(userId, actions[i]) !in store && KeyOf(userId, actions[i]) !in BatchKeys(userId, actions[..i])
  }

  /** Only new actions have their date read, so only theirs can refuse the batch. */
  ghost predicate Readable(store: map<Key, SyncAction>, userId: UserId, actions: seq<ActionDto>,
                           parse: string -> Option<int>) {
    forall i | 0 <= i < |actions| && IsNew(store, userId, actions, i) ::
      ParseOptionalIsoDate(actions[i].createdAt, parse).Ok?
  }

  /** The row a new action leaves. */
  ghost predicate StoredFrom(row: SyncAction, a: ActionDto, parse: string -> Option<int>) {
    && row.actionType == a.actionType && row.status == Name("QUEUED")
    && Ok(row.sourceCreatedAt) == ParseOptionalIsoDate(a.createdAt, parse)
  }

  ghost predicate Answered(store: map<Key, SyncAction>, userId: UserId, actions: seq<ActionDto>,
                           after: map<Key, SyncAction>,
                           item: Item, i: int)
    requires 0 <= i < |actions|
  {
    var key := KeyOf(userId, actions[i]);
    && key in after
    && item == Item(after[key].id, actions[i].idempotencyKey, after[key].actionType, after[key].status,
                    !IsNew(store, userId, actions, i))
  }

  /**
   * What a successful batch does: old rows stay, each new key gets one row made from its first action, and the
   * results line up with the actions, equal keys sharing their row's id.
   */
  ghost predicate Batched(store: map<Key, SyncAction>, nextId: nat, userId: UserId, actions: seq<ActionDto>,
                          parse: string -> Option<int>, after: map<Key, SyncAction>, afterId: nat, items: seq<Item>) {
    && RowsBatched(store, nextId, userId, actions, parse, after, afterId)
    && ItemsBatched(store, userId, actions, after, items)
  }

  ghost predicate RowsBatched(store: map<Key, SyncAction>, nextId: nat, userId: UserId, actions: seq<ActionDto>,
                              parse: string -> Option<int>, after: map<Key, SyncAction>, afterId: nat) {
    && Kept(store, after)
    && after.Keys == store.Keys + BatchKeys(userId, actions)
    && AllQueued(store, nextId, userId, actions, parse, after, afterId)
    && nextId <= afterId && afterId - nextId == |after| - |store|
  }

  ghost predicate AllQueued(store: map<Key, SyncAction>, nextId: nat, userId: UserId, actions: seq<ActionDto>,
                            parse: string -> Option<int>, after: map<Key, SyncAction>, afterId: nat) {
    forall i | 0 <= i < |actions| && IsNew(store, userId, actions, i) ::
      Queued(after, nextId, afterId, KeyOf(userId, actions[i]), actions[i], parse)
  }

  ghost predicate ItemsBatched(store: map<Key, SyncAction>, userId: UserId, actions: seq<ActionDto>,
                               after: map<Key, SyncAction>, items: seq<Item>) {
    |items| == |actions| && forall i | 0 <= i < |actions| :: Answered(store, userId, actions, after, items[i], i)
  }

  ghost predicate Kept(store: map<Key, SyncAction>, after: map<Key, SyncAction>) {
    forall k | k in store :: k in after && after[k] == store[k]
  }

  ghost predicate Queued(after: map<Key, SyncAction>, nextId: nat, afterId: nat, key: Key, a: ActionDto,
                         parse: string -> Option<int>) {
    key in after && StoredFrom(after[key], a, parse) && nextId <= after[key].id < afterId
  }

  /** Ids are handed out once. */
  ghost predicate IdsSound(rows: map<Key, SyncAction>, next: nat) {
    && (forall k | k in rows :: rows[k].id < next)
    && (forall k, l | k in rows && l in rows && k != l :: rows[k].id != rows[l].id)
  }

  lemma IdsStep(rows: map<Key, SyncAction>, next: nat, key: Key, row: SyncAction)
    requires IdsSound(rows, next) && key !in rows && row.id == next
    ensures IdsSound(rows[key := row], next + 1)
  {
  }

  ghost predicate OwnRows(store: map<Key, SyncAction>, userId: UserId, actions: seq<ActionDto>,
                          after: map<Key, SyncAction>, items: seq<Item>) {
    && |items| == |actions|
    && (forall i | 0 <= i < |actions| ::
          var key := Key(userId, actions[i].idempotencyKey);
          && key in after && items[i].idempotencyKey == actions[i].idempotencyKey
          && items[i].id == after[key].id && items[i].actionType == after[key].actionType
          && items[i].status == after[key].status)
    && (forall k | k in after || k in store ::
          k.userId != userId || (forall i | 0 <= i < |actions| :: actions[i].idempotencyKey != k.idempotencyKey) ==>
            k in after && k in store && after[k] == store[k])
  }

  lemma BatchedOwnRows(store: map<Key, SyncAction>, nextId: nat, userId: UserId, actions: seq<ActionDto>,
                       parse: string -> Option<int>, after: map<Key, SyncAction>, afterId: nat, items: seq<Item>)
    requires Batched(store, nextId, userId, actions, parse, after, afterId, items)
    ensures OwnRows(store, userId, actions, after, items)
  {
    BatchKeysAre(userId, actions);
    assert forall i | 0 <= i < |actions| :: Answered(store, userId, actions, after, items[i], i);
  }

  class SyncQueue {
    const parse: string -> Option<int>
    var store: map<Key, SyncAction>
    var nextId: nat

    ghost predicate Valid()
      reads this
    {
      IdsSound(store, nextId)
    }

    constructor (parse: string -> Option<int>)
      ensures Valid() && store == map[] && this.parse == parse
    {
      this.parse := parse;
      store, nextId := map[], 0;
    }

    /** The transaction works on a copy and is committed only if no action throws. */
    method SyncBatch(userId: UserId, actions: seq<ActionDto>, onDuty: bool, enabled: bool)
      returns (r: Result<seq<Item>, Error>)
      requires Valid()
      modifies this
      ensures Valid()
      ensures r.Err? ==> store == old(store) && nextId == old(nextId)
      ensures r.Ok? <==> onDuty && enabled && Readable(old(store), userId, actions, parse)
      ensures r.Ok? ==> Batched(old(store), old(nextId), userId, actions, parse, store, nextId, r.value)
      // Every action has its row under this user and its own key, and nobody else's rows change.
      ensures r.Ok? ==> OwnRows(old(store), userId, actions, store, r.value)
    {
      if Readable(store, userId, actions, parse) {
        forall after, afterId, items | Batched(store, nextId, userId, actions, parse, after, afterId, items)
          ensures OwnRows(store, userId, actions, after, items)
        {
          BatchedOwnRows(store, nextId, userId, actions, parse, after, afterId, items);
        }
      }
      hide OwnRows;
      if !onDuty {
        return Err(NoAssignment);
      }
      if !enabled {
        return Err(SyncDisabled);
      }
      hide Batched, IdsSound, Readable;
      var ok, rows, next, items := Apply(store, nextId, userId, actions, parse);
      if !ok {
        return Err(InvalidDate);
      }
      store, nextId := rows, next;
      return Ok(items);
    }
  }

  /** The body of the transaction, on its own copy of the rows. */
  method Apply(store: map<Key, SyncAction>, nextId: nat, userId: UserId, actions: seq<ActionDto>,
               parse: string -> Option<int>)
    returns (ok: bool, rows: map<Key, SyncAction>, next: nat, items: seq<Item>)
    requires IdsSound(store, nextId)
    ensures ok <==> Readable(store, userId, actions, parse)
    ensures ok ==> IdsSound(rows, next) && Batched(store, nextId, userId, actions, parse, rows, next, items)
  {
    hide *;
    rows, next, items := store, nextId, [];
    NothingBatched(store, nextId, userId, actions, parse);
    var i := 0;
    while i < |actions|
      invariant i <= |actions|
      invariant Reached(store, nextId, userId, actions, parse, i, rows, next, items)
    {
      var action := actions[i];
      var key := KeyOf(userId, action);
      if key in rows {
        ReachReplay(store, nextId, userId, actions, parse, i, rows, next, items);
        items := items + [ReplayedItem(rows[key], action.idempotencyKey)];
      } else {
        var date := ParseOptionalIsoDate(action.createdAt, parse);
        if date.Err? {
          Unreadable(store, nextId, userId, actions, parse, i, rows, next, items);
          return false, rows, next, items;
        }
        ReachCreate(store, nextId, userId, actions, parse, i, rows, next, items, date.value);
        var created := SyncAction(next, action.actionType, QUEUED, date.value);
        rows := rows[key := created];
        next := next + 1;
        items := items + [CreatedItem(created, action.idempotencyKey)];
      }
      i := i + 1;
    }
    ReachedAll(store, nextId, userId, actions, parse, rows, next, items);
    ok := true;
  }

  /** The state of the loop before the i-th action. */
  ghost predicate Reached(store: map<Key, SyncAction>, nextId: nat, userId: UserId, actions: seq<ActionDto>,
                          parse: string -> Option<int>,
                          i: nat, rows: map<Key, SyncAction>, next: nat, items: seq<Item>)
  {
    && i <= |actions| && IdsSound(rows, next) && Readable(store, userId, actions[..i], parse)
    && Batched(store, nextId, userId, actions[..i], parse, rows, next, items)
  }

  function ReplayedItem(row: SyncAction, key: IdempotencyKey): Item {
    Item(row.id, key, row.actionType, row.status, true)
  }
  function CreatedItem(row: SyncAction, key: IdempotencyKey): Item {
    Item(row.id, key, row.actionType, row.status, false)
  }

  lemma NothingBatched(store: map<Key, SyncAction>, nextId: nat, userId: UserId, actions: seq<ActionDto>,
                       parse: string -> Option<int>)
    requires IdsSound(store, nextId)
    ensures Reached(store, nextId, userId, actions, parse, 0, store, nextId, [])
  {
    assert actions[..0] == [];
  }

  lemma ReachedAll(store: map<Key, SyncAction>, nextId: nat, userId: UserId, actions: seq<ActionDto>,
                   parse: string -> Option<int>,
                   rows: map<Key, SyncAction>, next: nat, items: seq<Item>)
    requires Reached(store, nextId, userId, actions, parse, |actions|, rows, next, items)
    ensures Readable(store, userId, actions, parse) && IdsSound(rows, next)
    ensures Batched(store, nextId, userId, actions, parse, rows, next, items)
  {
    hide Batched, Readable, IdsSound;
    assert actions[..|actions|] == actions;
  }

  lemma ReachReplay(store: map<Key, SyncAction>, nextId: nat, userId: UserId, actions: seq<ActionDto>,
                    parse: string -> Option<int>,
                    i: nat, rows: map<Key, SyncAction>, next: nat, items: seq<Item>)
    requires i < |actions| && Reached(store, nextId, userId, actions, parse, i, rows, next, items)
    requires KeyOf(userId, actions[i]) in rows
    ensures Reached(store, nextId, userId, actions, parse, i + 1, rows, next,
                    items + [ReplayedItem(rows[KeyOf(userId, actions[i])], actions[i].idempotencyKey)])
  {
    hide Batched, Readable, IdsSound, KeyOf;
    assert actions[..i + 1] == actions[..i] + [actions[i]];
    BatchReplay(store, nextId, userId, actions[..i], actions[i], parse, rows, next, items);
  }

  lemma ReachCreate(store: map<Key, SyncAction>, nextId: nat, userId: UserId, actions: seq<ActionDto>,
                    parse: string -> Option<int>,
                    i: nat, rows: map<Key, SyncAction>, next: nat, items: seq<Item>, date: Option<int>)
    requires i < |actions| && Reached(store, nextId, userId, actions, parse, i, rows, next, items)
    requires KeyOf(userId, actions[i]) !in rows && ParseOptionalIsoDate(actions[i].createdAt, parse) == Ok(date)
    ensures var row := SyncAction(next, actions[i].actionType, QUEUED, date);
            Reached(store, nextId, userId, actions, parse, i + 1, rows[KeyOf(userId, actions[i]) := row], next + 1,
                    items + [CreatedItem(row, actions[i].idempotencyKey)])
  {
    var row := SyncAction(next, actions[i].actionType, QUEUED, date);
    assert StoredFrom(row, actions[i], parse);
    hide Batched, Readable, IdsSound, KeyOf, StoredFrom, ParseOptionalIsoDate;
    assert actions[..i + 1] == actions[..i] + [actions[i]];
    IdsStep(rows, next, KeyOf(userId, actions[i]), row);
    BatchCreate(store, nextId, userId, actions[..i], actions[i], parse, rows, next, items, row);
  }

  /** A new action with an unreadable date refuses the batch, wherever it stands. */
  lemma Unreadable(store: map<Key, SyncAction>, nextId: nat, userId: UserId, actions: seq<ActionDto>,
                   parse: string -> Option<int>,
                   n: nat, rows: map<Key, SyncAction>, next: nat, items: seq<Item>)
    requires n < |actions| && Reached(store, nextId, userId, actions, parse, n, rows, next, items)
    requires KeyOf(userId, actions[n]) !in rows && ParseOptionalIsoDate(actions[n].createdAt, parse).Err?
    ensures !Readable(store, userId, actions, parse)
  {
    hide AllQueued, Kept, ItemsBatched, ParseOptionalIsoDate, BatchKeys;
    assert IsNew(store, userId, actions, n);
  }

  /** How the facts about a batch extend by one action. */
  lemma OneMoreAction(store: map<Key, SyncAction>, userId: UserId, actions: seq<ActionDto>, action: ActionDto)
    ensures BatchKeys(userId, actions + [action]) == BatchKeys(userId, actions) + {KeyOf(userId, action)}
    ensures forall i | 0 <= i < |actions| :: (actions + [action])[i] == actions[i]
              && (IsNew(store, userId, actions + [action], i) <==> IsNew(store, userId, actions, i))
    ensures IsNew(store, userId, actions + [action], |actions|)
            <==> KeyOf(userId, action) !in store && KeyOf(userId, action) !in BatchKeys(userId, actions)
  {
    var all := actions + [action];
    assert all[..|actions|] == actions;
    assert forall i | 0 <= i < |actions| :: all[..i] == actions[..i];
  }

  lemma StillAnswered(store: map<Key, SyncAction>, userId: UserId, actions: seq<ActionDto>, all: seq<ActionDto>,
                      rows: map<Key, SyncAction>, after: map<Key, SyncAction>, item: Item, i: nat)
    requires i < |actions| <= |all| && all[i] == actions[i] && Kept(rows, after)
    requires IsNew(store, userId, all, i) <==> IsNew(store, userId, actions, i)
    requires Answered(store, userId, actions, rows, item, i)
    ensures Answered(store, userId, all, after, item, i)
  {
  }

  lemma BatchReplay(store: map<Key, SyncAction>, nextId: nat, userId: UserId, actions: seq<ActionDto>,
                    action: ActionDto,
                    parse: string -> Option<int>, rows: map<Key, SyncAction>, next: nat, items: seq<Item>)
    requires Batched(store, nextId, userId, actions, parse, rows, next, items)
             && Readable(store, userId, actions, parse)
    requires KeyOf(userId, action) in rows
    ensures var row := rows[KeyOf(userId, action)];
            Batched(store, nextId, userId, actions + [action], parse, rows, next,
                    items + [ReplayedItem(row, action.idempotencyKey)])
    ensures Readable(store, userId, actions + [action], parse)
  {
    var row := rows[KeyOf(userId, action)];
    var last := ReplayedItem(row, action.idempotencyKey);
    OneMoreAction(store, userId, actions, action);
    RowsReplay(store, nextId, userId, actions, action, parse, rows, next);
    ItemsStep(store, userId, actions, action, rows, rows, items, last);
  }

  lemma BatchCreate(store: map<Key, SyncAction>, nextId: nat, userId: UserId, actions: seq<ActionDto>,
                    action: ActionDto,
                    parse: string -> Option<int>, rows: map<Key, SyncAction>, next: nat, items: seq<Item>,
                    row: SyncAction)
    requires Batched(store, nextId, userId, actions, parse, rows, next, items)
             && Readable(store, userId, actions, parse)
    requires KeyOf(userId, action) !in rows && StoredFrom(row, action, parse) && row.id == next
    ensures Batched(store, nextId, userId, actions + [action], parse, rows[KeyOf(userId, action) := row], next + 1,
                    items + [CreatedItem(row, action.idempotencyKey)])
    ensures Readable(store, userId, actions + [action], parse)
  {
    var last := CreatedItem(row, action.idempotencyKey);
    OneMoreAction(store, userId, actions, action);
    RowsCreate(store, nextId, userId, actions, action, parse, rows, next, row);
    ItemsStep(store, userId, actions, action, rows, rows[KeyOf(userId, action) := row], items, last);
  }

  lemma RowsReplay(store: map<Key, SyncAction>, nextId: nat, userId: UserId, actions: seq<ActionDto>, action: ActionDto,
                   parse: string -> Option<int>, rows: map<Key, SyncAction>, next: nat)
    requires RowsBatched(store, nextId, userId, actions, parse, rows, next) && Readable(store, userId, actions, parse)
    requires KeyOf(userId, action) in rows
    ensures RowsBatched(store, nextId, userId, actions + [action], parse, rows, next)
    ensures Readable(store, userId, actions + [action], parse)
  {
    OneMoreAction(store, userId, actions, action);
    RowsKept(store, nextId, userId, actions, action, parse, rows, next, rows, next);
  }

  /** Nothing already queued is disturbed by a table that only grows. */
  lemma RowsKept(store: map<Key, SyncAction>, nextId: nat, userId: UserId, actions: seq<ActionDto>, action: ActionDto,
                 parse: string -> Option<int>, rows: map<Key, SyncAction>, next: nat, after: map<Key, SyncAction>,
                 afterId: nat)
    requires RowsBatched(store, nextId, userId, actions, parse, rows, next) && Readable(store, userId, actions, parse)
    requires Kept(rows, after) && after.Keys == rows.Keys + {KeyOf(userId, action)}
    requires next <= afterId && afterId - next == |after| - |rows|
    requires IsNew(store, userId, actions + [action], |actions|) ==>
               Queued(after, nextId, afterId, KeyOf(userId, action), action, parse)
               && ParseOptionalIsoDate(action.createdAt, parse).Ok?
    ensures RowsBatched(store, nextId, userId, actions + [action], parse, after, afterId)
    ensures Readable(store, userId, actions + [action], parse)
  {
    OneMoreAction(store, userId, actions, action);
    hide IsNew, BatchKeys, Queued, ParseOptionalIsoDate, AllQueued;
    ReadableKept(store, userId, actions, action, parse);
    AllQueuedKept(store, nextId, userId, actions, action, parse, rows, next, after, afterId);
    KeptTwice(store, rows, after);
    hide Readable, Kept;
  }

  lemma KeptTwice(store: map<Key, SyncAction>, rows: map<Key, SyncAction>, after: map<Key, SyncAction>)
    requires Kept(store, rows) && Kept(rows, after)
    ensures Kept(store, after)
  {
  }

  lemma AllQueuedKept(store: map<Key, SyncAction>, nextId: nat, userId: UserId, actions: seq<ActionDto>,
                      action: ActionDto,
                      parse: string -> Option<int>, rows: map<Key, SyncAction>, next: nat, after: map<Key, SyncAction>,
                      afterId: nat)
    requires AllQueued(store, nextId, userId, actions, parse, rows, next) && Kept(rows, after) && next <= afterId
    requires IsNew(store, userId, actions + [action], |actions|) ==>
               Queued(after, nextId, afterId, KeyOf(userId, action), action, parse)
    ensures AllQueued(store, nextId, userId, actions + [action], parse, after, afterId)
  {
    OneMoreAction(store, userId, actions, action);
    hide IsNew, BatchKeys, Queued, Kept, KeyOf;
    forall i | 0 <= i < |actions| && IsNew(store, userId, actions, i)
      ensures Queued(after, nextId, afterId, KeyOf(userId, actions[i]), actions[i], parse)
    {
      QueuedKept(rows, nextId, next, after, afterId, KeyOf(userId, actions[i]), actions[i], parse);
    }
  }

  lemma QueuedKept(rows: map<Key, SyncAction>, nextId: nat, next: nat, after: map<Key, SyncAction>, afterId: nat,
                   key: Key, a: ActionDto, parse: string -> Option<int>)
    requires Queued(rows, nextId, next, key, a, parse) && Kept(rows, after) && next <= afterId
    ensures Queued(after, nextId, afterId, key, a, parse)
  {
  }

  lemma ReadableKept(store: map<Key, SyncAction>, userId: UserId, actions: seq<ActionDto>, action: ActionDto,
                     parse: string -> Option<int>)
    requires Readable(store, userId, actions, parse)
    requires IsNew(store, userId, actions + [action], |actions|) ==> ParseOptionalIsoDate(action.createdAt, parse).Ok?
    ensures Readable(store, userId, actions + [action], parse)
  {
    OneMoreAction(store, userId, actions, action);
    hide IsNew, ParseOptionalIsoDate;
  }

  lemma RowsCreate(store: map<Key, SyncAction>, nextId: nat, userId: UserId, actions: seq<ActionDto>, action: ActionDto,
                   parse: string -> Option<int>, rows: map<Key, SyncAction>, next: nat, row: SyncAction)
    requires RowsBatched(store, nextId, userId, actions, parse, rows, next) && Readable(store, userId, actions, parse)
    requires KeyOf(userId, action) !in rows && StoredFrom(row, action, parse) && row.id == next
    ensures RowsBatched(store, nextId, userId, actions + [action], parse, rows[KeyOf(userId, action) := row], next + 1)
    ensures Readable(store, userId, actions + [action], parse)
  {
    RowsKept(store, nextId, userId, actions, action, parse, rows, next, rows[KeyOf(userId, action) := row], next + 1);
  }

  lemma ItemsStep(store: map<Key, SyncAction>, userId: UserId, actions: seq<ActionDto>, action: ActionDto,
                  rows: map<Key, SyncAction>, after: map<Key, SyncAction>, items: seq<Item>, last: Item)
    requires ItemsBatched(store, userId, actions, rows, items) && Kept(rows, after)
    requires Answered(store, userId, actions + [action], after, last, |actions|)
    ensures ItemsBatched(store, userId, actions + [action], after, items + [last])
  {
    var all, answers := actions + [action], items + [last];
    OneMoreAction(store, userId, actions, action);
    hide IsNew, Answered, BatchKeys;
    forall i | 0 <= i < |all| ensures Answered(store, userId, all, after, answers[i], i) {
      if i < |actions| {
        StillAnswered(store, userId, actions, all, rows, after, items[i], i);
      }
    }
  }

  // ---- Idempotence -------------------------------------------------------------------

  /** The results of a batch: equal keys have equal ids. */
  lemma EqualKeysEqualIds(store: map<Key, SyncAction>, nextId: nat, userId: UserId, actions: seq<ActionDto>,
                          parse: string -> Option<int>, after: map<Key, SyncAction>, afterId: nat, items: seq<Item>,
                          i: nat, j: nat)
    requires Batched(store, nextId, userId, actions, parse, after, afterId, items) && i < |actions| && j < |actions|
    requires forall k, l | k in after && l in after && k != l :: after[k].id != after[l].id
    ensures items[i].id == items[j].id <==> actions[i].idempotencyKey == actions[j].idempotencyKey
  {
    assert Answered(store, userId, actions, after, items[i], i) && Answered(store, userId, actions, after, items[j], j);
  }

  /** Submitting the same batch again succeeds, changes nothing, and answers as before with everything replayed. */
  lemma ResubmitChangesNothing(store: map<Key, SyncAction>, nextId: nat, userId: UserId, actions: seq<ActionDto>,
                               parse: string -> Option<int>, after: map<Key, SyncAction>, afterId: nat,
                               items: seq<Item>)
    requires Batched(store, nextId, userId, actions, parse, after, afterId, items)
    ensures Readable(after, userId, actions, parse)
    ensures forall again, againId, answers | Batched(after, afterId, userId, actions, parse, again, againId, answers) ::
              && again == after && againId == afterId
              && |answers| == |items| && forall i | 0 <= i < |items| :: answers[i] == items[i].(replayed := true)
  {
    forall i | 0 <= i < |actions| ensures KeyOf(userId, actions[i]) in after && !IsNew(after, userId, actions, i) {
      BatchKeysAre(userId, actions);
    }
    forall again, againId, answers | Batched(after, afterId, userId, actions, parse, again, againId, answers)
      ensures again == after && againId == afterId
      ensures |answers| == |items| && forall i | 0 <= i < |items| :: answers[i] == items[i].(replayed := true)
    {
      assert again.Keys == after.Keys;
      assert again == after;
      forall i | 0 <= i < |items| ensures answers[i] == items[i].(replayed := true) {
        assert Answered(store, userId, actions, after, items[i], i);
        assert Answered(after, userId, actions, again, answers[i], i);
      }
    }
  }

  /** The store grows by the number of distinct new keys. */
  lemma GrowsByNewKeys(store: map<Key, SyncAction>, nextId: nat, userId: UserId, actions: seq<ActionDto>,
                       parse: string -> Option<int>, after: map<Key, SyncAction>, afterId: nat, items: seq<Item>)
    requires Batched(store, nextId, userId, actions, parse, after, afterId, items)
    ensures |after| == |store| + |BatchKeys(userId, actions) - store.Keys|
  {
    var added := BatchKeys(userId, actions) - store.Keys;
    assert after.Keys == store.Keys + added;
    assert |after.Keys| == |store.Keys| + |added|;
  }
}
