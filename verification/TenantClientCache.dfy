/** The bounded cache of tenant database clients in front of routing. */
module TenantClientCache {
  import opened Wrappers
  import opened LruList
  import opened LruTies
  import Text

  datatype Tier = SharedTier | SchemaTier | DedicatedDbTier

  datatype RoutingHint = RoutingHint(organizationId: Option<string>, routingEnabled: bool, tier: Option<Tier>,
                                     schema: Option<string>)

  datatype Selection = Shared | Schema | DedicatedDb

  datatype Target = Target(key: string, selection: Selection, connectionString: string,
                           organizationId: Option<string>, schema: Option<string>)

  datatype RoutingError = MissingSchema | InvalidSchema | MissingDedicatedUrl | CreationFailed

  /** A client handle: where it connects, and which creation it came from. */
  datatype Client = Client(connectionString: string, serial: nat)

  datatype ClientInfo = ClientInfo(selection: Selection, organizationId: Option<string>, schema: Option<string>,
                                   client: Client)

  type CachedClient = Entry<string, ClientInfo>

  const DEFAULT_CLIENT_CACHE_MAX: int := 200

  /** The cache size read from the environment: absent, unreadable and non-positive values fall back. */
  function ClientCacheMax(parsed: Option<int>): (max: int)
    ensures max > 0 && (parsed == Some(max) || max == 200)
    ensures parsed.Some? && parsed.value >= 1 ==> max == parsed.value
  {
    match parsed
    case Some(n) => if n <= 0 then DEFAULT_CLIENT_CACHE_MAX else n
    case None => DEFAULT_CLIENT_CACHE_MAX
  }

  /** What routing depends on; `withSchema` stands for rewriting a URL's schema parameter. */
  datatype Config = Config(baseUrl: string, dedicatedDbUrls: map<string, string>,
                           withSchema: (string, string) -> string,
                           parsedCacheMax: Option<int>) {
    function Max(): (max: int)
      ensures max > 0
    {
      ClientCacheMax(parsedCacheMax)
    }

    function SharedTarget(): Target { Target("shared", Shared, baseUrl, None, None) }

    function ResolveTarget(routing: Option<RoutingHint>): Result<Target, RoutingError> {
      if routing.None? || GetOr(routing.value.organizationId, "") == "" || !routing.value.routingEnabled then
        Ok(SharedTarget())
      else
        var organizationId := routing.value.organizationId.value;
        match GetOr(routing.value.tier, SharedTier)
        case SharedTier => Ok(SharedTarget())
        case SchemaTier =>
          var schema := Text.Trim(GetOr(routing.value.schema, ""), Text.JS_BLANKS);
          if schema == "" then Err(MissingSchema)
          else if !IsSchemaName(schema) then Err(InvalidSchema)
          else Ok(Target("schema:" + schema, Schema, withSchema(baseUrl, schema), Some(organizationId), Some(schema)))
        case DedicatedDbTier =>
          if organizationId !in dedicatedDbUrls || dedicatedDbUrls[organizationId] == "" then Err(MissingDedicatedUrl)
          else
            Ok(Target("dedicated:" + organizationId, DedicatedDb, dedicatedDbUrls[organizationId],
                      Some(organizationId), None))
    }

    /** The connection string a cache key stands for. */
    ghost function ConnectionOf(key: string): string {
      if "schema:" <= key then withSchema(baseUrl, key[|"schema:"|..])
      else if "dedicated:" <= key && key[|"dedicated:"|..] in dedicatedDbUrls then
        dedicatedDbUrls[key[|"dedicated:"|..]]
      else ""
    }
  }

  predicate IsSchemaName(s: string) {
    && s != ""
    && (s[0] == '_' || IsLetter(s[0]))
    && forall i | 0 < i < |s| :: s[i] == '_' || IsLetter(s[i]) || '0' <= s[i] <= '9'
  }

  predicate IsLetter(c: char) { 'A' <= c <= 'Z' || 'a' <= c <= 'z' }

  // ---- Who is routed where -----------------------------------------------------------

  /** No organisation, routing switched off, or no tier but the shared one. */
  ghost predicate UsesShared(routing: Option<RoutingHint>) {
    match routing
    case None => true
    case Some(h) =>
      h.organizationId == None || h.organizationId == Some("") || !h.routingEnabled
      || h.tier == None || h.tier == Some(SharedTier)
  }

  ghost predicate UsesTier(routing: Option<RoutingHint>, tier: Tier) {
    !UsesShared(routing) && routing.value.tier == Some(tier)
  }

  /** A name that is empty, starts with a digit, or has a character other than ASCII letters, digits and underscores. */
  ghost predicate BadName(s: string) {
    || s == "" || '0' <= s[0] <= '9'
    || exists c :: c in s && !('A' <= c <= 'Z') && !('a' <= c <= 'z') && !('0' <= c <= '9') && c != '_'
  }

  lemma SchemaNameIff(s: string)
    ensures IsSchemaName(s) <==> !BadName(s)
  {
    if IsSchemaName(s) {
      forall c | c in s ensures 'A' <= c <= 'Z' || 'a' <= c <= 'z' || '0' <= c <= '9' || c == '_' {
        var i :| 0 <= i < |s| && s[i] == c;
      }
    }
    if !BadName(s) {
      forall i | 0 <= i < |s| ensures s[i] == '_' || IsLetter(s[i]) || '0' <= s[i] <= '9' {
        assert s[i] in s;
      }
    }
  }

  /** Routing in terms of the hint and the configuration alone. */
  lemma RoutedTo(config: Config, routing: Option<RoutingHint>)
    ensures var t := config.ResolveTarget(routing);
            && (UsesShared(routing) <==> t == Ok(config.SharedTarget()))
            && (UsesShared(routing) <==> t.Ok? && t.value.selection == Shared)
            && config.SharedTarget().connectionString == config.baseUrl
            && (UsesTier(routing, SchemaTier) ==>
                  var name := Text.Trim(GetOr(routing.value.schema, ""), Text.JS_BLANKS);
                  && (t == Err(MissingSchema) <==> name == "")
                  && (t == Err(InvalidSchema) <==> name != "" && BadName(name))
                  && (t.Ok? <==> !BadName(name))
                  && (t.Ok? ==> t.value.connectionString == config.withSchema(config.baseUrl, name)))
            && (UsesTier(routing, DedicatedDbTier) ==>
                  var org := routing.value.organizationId.value;
                  var mapped := org in config.dedicatedDbUrls && config.dedicatedDbUrls[org] != "";
                  && (t == Err(MissingDedicatedUrl) <==> !mapped)
                  && (t.Ok? <==> mapped)
                  && (mapped ==> t.Ok? && t.value.connectionString == config.dedicatedDbUrls[org]))
  {
    assert BadName("");
    hide BadName, IsSchemaName;
    if UsesTier(routing, SchemaTier) {
      SchemaNameIff(Text.Trim(GetOr(routing.value.schema, ""), Text.JS_BLANKS));
    }
  }

  /** The key alone decides the connection. */
  lemma KeyDeterminesConnection(config: Config, routing: Option<RoutingHint>)
    requires config.ResolveTarget(routing).Ok?
    ensures var t := config.ResolveTarget(routing).value;
            t.selection != Shared ==> t.connectionString == config.ConnectionOf(t.key)
  {
    var t := config.ResolveTarget(routing).value;
    match t.selection
    case Shared =>
    case Schema =>
      assert t.key[|"schema:"|..] == t.schema.value;
    case DedicatedDb =>
      assert t.key[0] == 'd' && "schema:"[0] == 's';
      assert t.key[|"dedicated:"|..] == t.organizationId.value;
  }

  /**
   * Targets share a key only if they agree in everything that makes a client: a schema key is never a dedicated or
   * shared one, and each key stands for one schema, or for one organisation's own database.
   */
  lemma KeysNeverCollide(config: Config, a: Option<RoutingHint>, b: Option<RoutingHint>)
    requires config.ResolveTarget(a).Ok? && config.ResolveTarget(b).Ok?
    ensures var s, t := config.ResolveTarget(a).value, config.ResolveTarget(b).value;
            s.key == t.key ==>
              && s.selection == t.selection && s.schema == t.schema && s.connectionString == t.connectionString
              && (s.selection == DedicatedDb ==> s.organizationId == t.organizationId)
  {
    var s, t := config.ResolveTarget(a).value, config.ResolveTarget(b).value;
    TargetKey(config, a);
    TargetKey(config, b);
    hide Config.ResolveTarget, Config.SharedTarget;
    if s.key == t.key {
      assert "shared"[2] == 'a' && "schema:"[2] == 'h' && "dedicated:"[0] == 'd';
      assert s.key[0] == t.key[0] && s.key[2] == t.key[2];
      if s.selection == Schema {
        assert s.key[|"schema:"|..] == s.schema.value && t.key[|"schema:"|..] == t.schema.value;
      } else if s.selection == DedicatedDb {
        assert s.key[|"dedicated:"|..] == s.organizationId.value && t.key[|"dedicated:"|..] == t.organizationId.value;
      }
    }
  }

  lemma TargetKey(config: Config, routing: Option<RoutingHint>)
    requires config.ResolveTarget(routing).Ok?
    ensures var t := config.ResolveTarget(routing).value;
            match t.selection
            case Shared => t == config.SharedTarget() && t.key == "shared"
            case Schema =>
              t.schema.Some? && t.key == "schema:" + t.schema.value
              && t.connectionString == config.withSchema(config.baseUrl, t.schema.value)
            case DedicatedDb =>
              t.organizationId.Some? && t.schema.None? && t.key == "dedicated:" + t.organizationId.value
              && t.organizationId.value in config.dedicatedDbUrls
              && t.connectionString == config.dedicatedDbUrls[t.organizationId.value]
  {
  }

  function Fresh(target: Target, serial: nat, now: int): CachedClient {
    Entry(target.key, ClientInfo(target.selection, target.organizationId, target.schema,
                                 Client(target.connectionString, serial)), now)
  }

  /** What is kept of a client that is made: the key, the tenant and its schema or database, and where it connects. */
  lemma MadeClient(config: Config, routing: Option<RoutingHint>, serial: nat, now: int)
    requires config.ResolveTarget(routing).Ok? && !UsesShared(routing)
    ensures var entry, org := Fresh(config.ResolveTarget(routing).value, serial, now), routing.value.organizationId;
            && (UsesTier(routing, SchemaTier) ==>
                  var name := Text.Trim(GetOr(routing.value.schema, ""), Text.JS_BLANKS);
                  entry == Entry("schema:" + name,
                                 ClientInfo(Schema, org, Some(name),
                                            Client(config.withSchema(config.baseUrl, name), serial)), now))
            && (UsesTier(routing, DedicatedDbTier) ==>
                  && org.value in config.dedicatedDbUrls
                  && entry == Entry("dedicated:" + org.value,
                                    ClientInfo(DedicatedDb, org, None,
                                               Client(config.dedicatedDbUrls[org.value], serial)), now))
  {
    hide IsSchemaName;
  }

  /** No key twice, and every client connects where its key says. */
  ghost predicate CacheSound(config: Config, entries: seq<CachedClient>) {
    && UniqueKeys(entries)
    && forall e | e in entries :: e.value.client.connectionString == config.ConnectionOf(e.key)
  }

  lemma EvictedSound(config: Config, entries: seq<CachedClient>)
    requires CacheSound(config, entries) && |entries| <= config.Max()
    ensures CacheSound(config, Evicted(entries, config.Max())) && |Evicted(entries, config.Max())| < config.Max()
    ensures forall e | e in Evicted(entries, config.Max()) :: e in entries
  {
    EvictedFrom(entries, config.Max());
    hide Config.ConnectionOf, OldestIndex, IsOldest;
  }

  /** One request keeps the cache sound and within its bound, even when creation fails after an eviction. */
  lemma RequestedSound(config: Config, entries: seq<CachedClient>, t: Target, serial: nat, now: int, creatable: bool)
    requires CacheSound(config, entries) && |entries| <= config.Max()
    requires t.connectionString == config.ConnectionOf(t.key)
    ensures var after := Requested(entries, config.Max(), Fresh(t, serial, now), creatable);
            CacheSound(config, after) && |after| <= config.Max()
  {
    hide Config.ConnectionOf, Evicted;
    var i := IndexOf(entries, t.key);
    if i < |entries| {
      TouchKeepsSound(config, entries, i, now);
    } else {
      EvictedSound(config, entries);
      if creatable {
        assert forall e | e in entries :: e.key != t.key;
        AppendKeepsSound(config, Evicted(entries, config.Max()), Fresh(t, serial, now));
      }
    }
  }

  lemma TouchKeepsSound(config: Config, entries: seq<CachedClient>, i: nat, now: int)
    requires CacheSound(config, entries) && i < |entries|
    ensures CacheSound(config, entries[i := entries[i].(lastUsedAt := now)])
  {
  }

  lemma AppendKeepsSound(config: Config, entries: seq<CachedClient>, e: CachedClient)
    requires CacheSound(config, entries)
    requires forall x | x in entries :: x.key != e.key
    requires e.value.client.connectionString == config.ConnectionOf(e.key)
    ensures CacheSound(config, entries + [e])
  {
  }

  class TenantPrismaRouting {
    const config: Config
    var shared: CachedClient
    var clients: seq<CachedClient>
    var created: nat

    ghost predicate Valid()
      reads this
    {
      && CacheSound(config, clients) && |clients| <= config.Max()
      && shared.value.client.connectionString == config.baseUrl
      && shared.value.client.serial == 0 < created
      && forall e | e in clients :: 0 < e.value.client.serial < created
    }

    constructor (config: Config, now: int)
      ensures Valid() && clients == [] && this.config == config
    {
      this.config := config;
      shared := Fresh(config.SharedTarget(), 0, now);
      clients, created := [], 1;
    }

    /** `creatable` says whether building a client for this target would succeed. */
    method GetClientForRouting(routing: Option<RoutingHint>, now: int, creatable: bool)
      returns (r: Result<Client, RoutingError>)
      requires Valid()
      modifies this
      ensures Valid()
      // Who is served by the shared database, and nobody else is.
      ensures r == Ok(old(shared).value.client) <==> UsesShared(routing)
      ensures UsesShared(routing) ==> r.Ok? && r.value.connectionString == config.baseUrl
      ensures UsesTier(routing, SchemaTier) ==>
                var name := Text.Trim(GetOr(routing.value.schema, ""), Text.JS_BLANKS);
                && (r == Err(MissingSchema) <==> name == "")
                && (r == Err(InvalidSchema) <==> name != "" && BadName(name))
                && (r.Ok? ==> r.value.connectionString == config.withSchema(config.baseUrl, name))
                && (r.Err? <==> BadName(name) || r == Err(CreationFailed))
      ensures UsesTier(routing, DedicatedDbTier) ==>
                var org := routing.value.organizationId.value;
                var mapped := org in config.dedicatedDbUrls && config.dedicatedDbUrls[org] != "";
                && (r == Err(MissingDedicatedUrl) <==> !mapped)
                && (r.Ok? ==> mapped && r.value.connectionString == config.dedicatedDbUrls[org])
                && (r.Err? <==> !mapped || r == Err(CreationFailed))
      ensures r == Err(CreationFailed) ==> !creatable
      // The answer always connects to what routing resolves to.
      ensures r.Ok? ==>
                && config.ResolveTarget(routing).Ok?
                && r.value.connectionString == config.ResolveTarget(routing).value.connectionString
      ensures config.ResolveTarget(routing).Err? ==>
              r == Err(config.ResolveTarget(routing).error) && clients == old(clients)
      ensures config.ResolveTarget(routing).Ok? ==>
                var t := config.ResolveTarget(routing).value;
                if t.selection == Shared then r == Ok(old(shared).value.client) && clients == old(clients)
                else
                  && clients == Requested(old(clients), config.Max(), Fresh(t, old(created), now), creatable)
                  && (r.Err? <==> !creatable && forall e | e in old(clients) :: e.key != t.key)
                  && (forall e | e in old(clients) && e.key == t.key :: r == Ok(e.value.client))
    {
      RoutedTo(config, routing);
      hide BadName, UsesShared, UsesTier;
      var target := config.ResolveTarget(routing);
      if target.Err? {
        return Err(target.error);
      }
      var t := target.value;
      if t.selection == Shared {
        shared := shared.(lastUsedAt := now);
        return Ok(shared.value.client);
      }
      KeyDeterminesConnection(config, routing);
      RequestedSound(config, clients, t, created, now, creatable);
      hide CacheSound, Config.ResolveTarget, Config.ConnectionOf, Evicted;
      var i := IndexOf(clients, t.key);
      if i < |clients| {
        clients := clients[i := clients[i].(lastUsedAt := now)];
        SameKeySameEntry(config, old(clients), i);
        return Ok(clients[i].value.client);
      }
      EvictIfNeeded();
      if !creatable {
        return Err(CreationFailed);
      }
      var entry := Fresh(t, created, now);
      created := created + 1;
      clients := clients + [entry];
      return Ok(entry.value.client);
    }

    method EvictIfNeeded()
      requires Valid()
      modifies `clients
      ensures Valid() && |clients| < config.Max()
      ensures clients == Evicted(old(clients), config.Max())
    {
      EvictedSound(config, clients);
      hide CacheSound;
      if |clients| < config.Max() {
        return;
      }
      var oldest := FindOldest(clients);
      clients := RemoveAt(clients, oldest);
    }
  }

  lemma SameKeySameEntry(config: Config, entries: seq<CachedClient>, i: nat)
    requires CacheSound(config, entries) && i < |entries|
    ensures entries[i] in entries && entries[i].value.client.connectionString == config.ConnectionOf(entries[i].key)
    ensures forall e | e in entries && e.key == entries[i].key :: e == entries[i]
  {
  }

  // ---- Runs --------------------------------------------------------------------------

  datatype Call = Call(routing: Option<RoutingHint>, now: int, creatable: bool)

  /** The cache key a call asks for; none when routing fails or the shared client serves it. */
  ghost function KeyOf(config: Config, call: Call): Option<string> {
    match config.ResolveTarget(call.routing)
    case Err(_) => None
    case Ok(t) => if t.selection == Shared then None else Some(t.key)
  }

  /** Which calls reach the map, and under which key: those of tenants with a schema or a database of their own. */
  lemma AskedFor(config: Config, call: Call)
    ensures UsesShared(call.routing) ==> KeyOf(config, call) == None
    ensures UsesTier(call.routing, SchemaTier) ==>
              var name := Text.Trim(GetOr(call.routing.value.schema, ""), Text.JS_BLANKS);
              KeyOf(config, call) == if BadName(name) then None else Some("schema:" + name)
    ensures UsesTier(call.routing, DedicatedDbTier) ==>
              var org := call.routing.value.organizationId.value;
              var mapped := org in config.dedicatedDbUrls && config.dedicatedDbUrls[org] != "";
              KeyOf(config, call) == if mapped then Some("dedicated:" + org) else None
  {
    RoutedTo(config, call.routing);
    hide BadName, IsSchemaName;
  }

  /** The cache after a run of calls; `serials` numbers the clients created. */
  ghost function CacheAfter(config: Config, calls: seq<Call>, serials: nat -> nat): seq<CachedClient> {
    if calls == [] then []
    else
      var before, call := CacheAfter(config, calls[..|calls| - 1], serials), calls[|calls| - 1];
      if KeyOf(config, call).None? then before
      else Requested(before, config.Max(), Fresh(config.ResolveTarget(call.routing).value, serials(|calls|), call.now),
                     call.creatable)
  }

  ghost function RecencyAfter(config: Config, calls: seq<Call>): seq<string> {
    if calls == [] then []
    else
      var before, call := RecencyAfter(config, calls[..|calls| - 1]), calls[|calls| - 1];
      if KeyOf(config, call).None? then before
      else RecencyStep(before, config.Max(), KeyOf(config, call).value, call.creatable)
  }

  ghost function RequestedKeys(config: Config, calls: seq<Call>): seq<string> {
    if calls == [] then []
    else
      var before, call := RequestedKeys(config, calls[..|calls| - 1]), calls[|calls| - 1];
      if KeyOf(config, call).None? then before else before + [KeyOf(config, call).value]
  }

  ghost predicate StrictClock(calls: seq<Call>) {
    forall i, j | 0 <= i < j < |calls| :: calls[i].now < calls[j].now
  }

  /** Over every run with a strictly increasing clock the cache is the recency list, failures of creation included. */
  lemma {:induction false} CacheIsRecencyList(config: Config, calls: seq<Call>, serials: nat -> nat, now: int)
    requires StrictClock(calls) && forall i | 0 <= i < |calls| :: calls[i].now < now
    ensures Refines(CacheAfter(config, calls, serials), RecencyAfter(config, calls))
    ensures UsedBefore(CacheAfter(config, calls, serials), now)
    ensures |CacheAfter(config, calls, serials)| <= config.Max()
  {
    if calls != [] {
      var front, call := calls[..|calls| - 1], calls[|calls| - 1];
      CacheIsRecencyList(config, front, serials, call.now);
      if KeyOf(config, call).Some? {
        RequestRefines(CacheAfter(config, front, serials), RecencyAfter(config, front), config.Max(),
                       Fresh(config.ResolveTarget(call.routing).value, serials(|calls|), call.now), call.creatable);
      }
    }
  }

  lemma {:induction false} RecencyIsMostRecent(config: Config, calls: seq<Call>)
    requires forall c | c in calls :: c.creatable
    ensures RecencyAfter(config, calls) == Take(MostRecent(RequestedKeys(config, calls)), config.Max())
  {
    if calls != [] {
      var front, call := calls[..|calls| - 1], calls[|calls| - 1];
      assert forall c | c in front :: c in calls;
      assert call in calls;
      RecencyIsMostRecent(config, front);
      if KeyOf(config, call).Some? {
        var history, key := RequestedKeys(config, front), KeyOf(config, call).value;
        assert (history + [key])[..|history|] == history;
        MostRecentDistinct(history);
        BoundedStep(MostRecent(history), config.Max(), key);
      }
    }
  }

  /**
   * Without creation failures the cache holds exactly the most recently requested distinct keys, up to its
   * maximum, and its time stamps put them in that order.
   */
  lemma CacheHoldsMostRecent(config: Config, calls: seq<Call>, serials: nat -> nat, now: int)
    requires StrictClock(calls) && forall i | 0 <= i < |calls| :: calls[i].now < now && calls[i].creatable
    ensures Refines(CacheAfter(config, calls, serials), Take(MostRecent(RequestedKeys(config, calls)), config.Max()))
  {
    CacheIsRecencyList(config, calls, serials, now);
    RecencyIsMostRecent(config, calls);
  }

  // ---- Runs in which calls may share a time stamp ------------------------------------

  ghost predicate SteadyClock(calls: seq<Call>) {
    forall i, j | 0 <= i < j < |calls| :: calls[i].now <= calls[j].now
  }

  /** When each key was last served, and which call last had its client built. */
  ghost function UsesAfter(config: Config, calls: seq<Call>, serials: nat -> nat): map<string, Use> {
    if calls == [] then map[]
    else
      var n := |calls| - 1;
      var before, call := UsesAfter(config, calls[..n], serials), calls[n];
      if KeyOf(config, call).None? then before
      else Served(CacheAfter(config, calls[..n], serials), before, MadeFor(config, call, serials(n + 1)),
                  call.creatable, n)
  }

  ghost function MadeFor(config: Config, call: Call, serial: nat): CachedClient
    requires KeyOf(config, call).Some?
  {
    Fresh(config.ResolveTarget(call.routing).value, serial, call.now)
  }

  /**
   * Over every run whose clock never goes back, creation failures included, the cache keeps the keys served last: a
   * key it gave up was last served before every key it holds, calls at one instant counting in map order.
   */
  lemma {:induction false} CacheIsRanked(config: Config, calls: seq<Call>, serials: nat -> nat, now: int)
    requires SteadyClock(calls) && forall i | 0 <= i < |calls| :: calls[i].now <= now
    ensures Ranked(CacheAfter(config, calls, serials), UsesAfter(config, calls, serials), |calls|, now)
    ensures UsesBounded(UsesAfter(config, calls, serials), |calls|, now)
  {
    if calls != [] {
      var n := |calls| - 1;
      var call := calls[n];
      CacheIsRanked(config, calls[..n], serials, call.now);
      var cache, uses := CacheAfter(config, calls[..n], serials), UsesAfter(config, calls[..n], serials);
      if KeyOf(config, call).None? {
        LaterRanked(cache, uses, n, call.now, n + 1, now);
      } else {
        var made := MadeFor(config, call, serials(n + 1));
        RequestRanked(cache, uses, n, call.now, config.Max(), made, call.creatable);
        hide Ranked, Requested, Served;
        LaterRanked(Requested(cache, config.Max(), made, call.creatable), Served(cache, uses, made, call.creatable, n),
                    n + 1, call.now, n + 1, now);
      }
    }
  }

  /** The time of the last call for a key. */
  ghost function LastAsked(config: Config, calls: seq<Call>, key: string): Option<int> {
    if calls == [] then None
    else if KeyOf(config, calls[|calls| - 1]) == Some(key) then Some(calls[|calls| - 1].now)
    else LastAsked(config, calls[..|calls| - 1], key)
  }

  ghost predicate UsesAsked(config: Config, calls: seq<Call>, uses: map<string, Use>) {
    forall k :: LastAsked(config, calls, k) == if k in uses then Some(uses[k].time) else None
  }

  /** Without creation failures the keys served are those asked for, and the cache is as full as they allow. */
  lemma {:induction false} AllServed(config: Config, calls: seq<Call>, serials: nat -> nat)
    requires SteadyClock(calls) && forall c | c in calls :: c.creatable
    ensures UsesAsked(config, calls, UsesAfter(config, calls, serials))
    ensures Full(CacheAfter(config, calls, serials), UsesAfter(config, calls, serials), config.Max())
  {
    if calls != [] {
      var n := |calls| - 1;
      var front, call := calls[..n], calls[n];
      assert call in calls && forall c | c in front :: c in calls;
      AllServed(config, front, serials);
      CacheIsRanked(config, front, serials, call.now);
      var cache, uses := CacheAfter(config, front, serials), UsesAfter(config, front, serials);
      if KeyOf(config, call).Some? {
        var made := MadeFor(config, call, serials(n + 1));
        RequestFull(cache, uses, n, call.now, config.Max(), made);
        ServedKey(cache, uses, n, call.now, made);
        AskedStep(config, calls, uses, Served(cache, uses, made, true, n), made.key);
      } else {
        assert forall k :: LastAsked(config, calls, k) == LastAsked(config, front, k);
      }
    }
  }

  lemma ServedKey(cache: seq<CachedClient>, uses: map<string, Use>, n: nat, last: int, made: CachedClient)
    requires Ranked(cache, uses, n, last)
    ensures var later := Served(cache, uses, made, true, n);
            && made.key in later && later[made.key].time == made.lastUsedAt
            && (forall k | k != made.key :: (k in later <==> k in uses) && (k in uses ==> later[k] == uses[k]))
  {
    var i := IndexOf(cache, made.key);
    if i < |cache| {
      assert InStep(cache[i], uses, n, last);
    }
  }

  lemma AskedStep(config: Config, calls: seq<Call>, uses: map<string, Use>, later: map<string, Use>, key: string)
    requires calls != [] && UsesAsked(config, calls[..|calls| - 1], uses)
    requires KeyOf(config, calls[|calls| - 1]) == Some(key)
    requires key in later && later[key].time == calls[|calls| - 1].now
    requires forall k | k != key :: (k in later <==> k in uses) && (k in uses ==> later[k] == uses[k])
    ensures UsesAsked(config, calls, later)
  {
  }

  /**
   * With equal time stamps allowed, and without creation failures: the cache holds as many keys as its maximum and the
   * keys asked for allow, each stamped with the time it was last asked for, and no key it lacks was asked for later
   * than any it holds.
   */
  lemma CacheHoldsLatest(config: Config, calls: seq<Call>, serials: nat -> nat, now: int)
    requires SteadyClock(calls) && forall i | 0 <= i < |calls| :: calls[i].now <= now && calls[i].creatable
    ensures var cache, asked := CacheAfter(config, calls, serials), UsesAfter(config, calls, serials).Keys;
            && (forall k :: k in asked <==> LastAsked(config, calls, k).Some?)
            && |cache| == (if |asked| < config.Max() then |asked| else config.Max())
            && (forall e | e in cache :: LastAsked(config, calls, e.key) == Some(e.lastUsedAt))
            && (forall k, e | k in asked && e in cache && k !in Keys(cache) ::
                  LastAsked(config, calls, k).value <= e.lastUsedAt)
  {
    var cache, uses := CacheAfter(config, calls, serials), UsesAfter(config, calls, serials);
    assert forall c | c in calls :: c.creatable;
    AllServed(config, calls, serials);
    CacheIsRanked(config, calls, serials, now);
    hide CacheAfter, UsesAfter, LastAsked;
    forall e | e in cache ensures e.key in uses && uses[e.key].time == e.lastUsedAt {
      var i :| 0 <= i < |cache| && cache[i] == e;
      assert InStep(cache[i], uses, |calls|, now);
    }
    forall k, e | k in uses && e in cache && k !in Keys(cache) ensures uses[k].time <= e.lastUsedAt {
      NotIndexed(cache, k);
      assert forall x | x in cache :: x.key in Keys(cache);
      assert Before(uses[k], uses[e.key]);
    }
  }
}
