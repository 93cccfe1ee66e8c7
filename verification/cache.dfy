/** The two-tier cache of `redisSOSService` (services/data_redis.go), as a
    sequential state machine. The state is the process snapshot (the
    `memCache` slot), the durable entry under the Redis key and the refresh
    lock. Each call sees one clock reading, the upstream fetch, whether
    Redis answers, and the JSON codec. The background refresh runs to
    completion at the point `tryRefresh` starts it. */
module Cache {
  import opened Wrappers
  import opened Schema
  import opened Fetcher

  /** `redisTTL`: the durable entry's lifetime. */
  const RedisTtl: int := 60 * Second

  /** The safety margin the snapshot expires ahead of the durable entry. */
  const Margin: int := 5 * Second

  /** `memoryCache`: the raw bytes served, the parsed form if one has been
      attached, the entity tag and the expiry. */
  datatype Snapshot = Snapshot(raw: Bytes, parsed: Option<APIResponse>, etag: string, expires: Instant)

  /** The value under the Redis key: the `cachedPayload` envelope, or bytes
      that do not unmarshal as one. */
  datatype Stored = Envelope(etag: string, json: Bytes) | Unreadable

  /** A Redis key with its expiry. */
  datatype DurableEntry = DurableEntry(value: Stored, expiresAt: Instant)

  /** The process snapshot, the durable entry and whether a refresh holds
      the lock. */
  datatype Cache = Cache(memory: Option<Snapshot>, durable: Option<DurableEntry>, refreshing: bool)

  /** What one call sees: the clock, the upstream fetch (`APIFetcher`),
      whether Redis answers, and the codec of the feed document. */
  datatype Env = Env(now: Instant, fetch: string -> FetchReply, redisUp: bool, codec: Codec)

  /** What a call returns, the state it leaves and how many upstream
      fetches it made. */
  datatype Step<R> = Step(result: R, cache: Cache, fetches: nat)

  // ---------------------------------------------------------------------
  // The tiers

  /** The snapshot's lifetime: the durable lifetime less the margin, or the
      whole durable lifetime when that would leave less than the margin. */
  function MemoryTtl(d: int): (t: int)
    ensures t == d || t == d - Margin
    ensures t < d <==> d >= 2 * Margin
    ensures d >= Margin ==> t >= Margin
  {
    var ttl := d - Margin;
    if ttl < Margin then d else ttl
  }

  /** With the service's constants the snapshot lives 55 seconds, 5 less
      than the durable entry. */
  lemma MemoryTtlOfRedisTtl()
    ensures MemoryTtl(RedisTtl) == 55 * Second
    ensures MemoryTtl(RedisTtl) < RedisTtl
  {
  }

  /** A snapshot that has not yet expired: `time.Now().Before(expires)`. */
  predicate Live(s: Snapshot, now: Instant)
  {
    now < s.expires
  }

  /** `redis.Get`: the stored value if Redis answers and the key has not
      expired (Redis drops a key once the clock is past its expiry). */
  function ReadDurable(c: Cache, env: Env): (s: Option<Stored>)
    ensures s.Some? <==> env.redisUp && c.durable.Some? && env.now <= c.durable.value.expiresAt
    ensures s.Some? ==> s.value == c.durable.value.value
  {
    if env.redisUp && c.durable.Some? && env.now <= c.durable.value.expiresAt then Some(c.durable.value.value)
    else None
  }

  /** `redis.Set` with `redisTTL`; a failed write leaves the key as it was. */
  function WriteDurable(c: Cache, env: Env, etag: string, raw: Bytes): (c': Cache)
    ensures c'.memory == c.memory && c'.refreshing == c.refreshing
    ensures env.redisUp ==> c'.durable == Some(DurableEntry(Envelope(etag, raw), env.now + RedisTtl))
    ensures !env.redisUp ==> c'.durable == c.durable
  {
    if env.redisUp then c.(durable := Some(DurableEntry(Envelope(etag, raw), env.now + RedisTtl)))
    else c
  }

  /** `storeMemoryCache`: a fresh snapshot expiring `MemoryTtl(redisTTL)`
      from now; nothing else changes. */
  function StoreMemoryCache(c: Cache, now: Instant, raw: Bytes, etag: string, parsed: Option<APIResponse>): (c': Cache)
    ensures c'.memory.Some? && c'.memory.value.raw == raw && c'.memory.value.etag == etag
    ensures c'.memory.value.parsed == parsed
    ensures c'.memory.value.expires == now + MemoryTtl(RedisTtl)
    ensures c'.durable == c.durable && c'.refreshing == c.refreshing
  {
    c.(memory := Some(Snapshot(raw, parsed, etag, now + MemoryTtl(RedisTtl))))
  }

  /** `saveRawCache`: the durable write, then the snapshot, which is stored
      whether or not the durable write succeeded. */
  function SaveRawCache(c: Cache, env: Env, etag: string, raw: Bytes, parsed: Option<APIResponse>): (c': Cache)
    ensures c'.memory == Some(Snapshot(raw, parsed, etag, env.now + MemoryTtl(RedisTtl)))
    ensures env.redisUp ==> c'.durable == Some(DurableEntry(Envelope(etag, raw), env.now + RedisTtl))
    ensures !env.redisUp ==> c'.durable == c.durable
    ensures c'.refreshing == c.refreshing
  {
    StoreMemoryCache(WriteDurable(c, env, etag, raw), env.now, raw, etag, parsed)
  }

  /** After a save both tiers hold the same bytes under the same tag, and
      the snapshot expires strictly before the durable entry. */
  lemma SaveOrdersExpiries(c: Cache, env: Env, etag: string, raw: Bytes, parsed: Option<APIResponse>)
    requires env.redisUp
    ensures var c' := SaveRawCache(c, env, etag, raw, parsed);
      && c'.durable.value.value == Envelope(c'.memory.value.etag, c'.memory.value.raw)
      && c'.memory.value.expires < c'.durable.value.expiresAt
      && c'.durable.value.expiresAt - c'.memory.value.expires == Margin
  {
    MemoryTtlOfRedisTtl();
  }

  /** `updateParsedCache`: no snapshot, no change; otherwise only the parsed
      form is replaced. */
  function UpdateParsedCache(c: Cache, parsed: APIResponse): (c': Cache)
    ensures c.memory.None? ==> c' == c
    ensures c.memory.Some? ==>
      && c'.memory.Some?
      && c'.memory.value.parsed == Some(parsed)
      && c'.memory.value.raw == c.memory.value.raw
      && c'.memory.value.etag == c.memory.value.etag
      && c'.memory.value.expires == c.memory.value.expires
    ensures c'.durable == c.durable && c'.refreshing == c.refreshing
  {
    match c.memory
    case None => c
    case Some(s) => c.(memory := Some(s.(parsed := Some(parsed))))
  }

  /** `touchCache`: with a non-empty snapshot, save its bytes and parsed
      form again under `etag`, which renews both expiries; otherwise do
      nothing. */
  function TouchCache(c: Cache, env: Env, etag: string): (c': Cache)
    ensures c.memory.None? || |c.memory.value.raw| == 0 ==> c' == c
    ensures c.memory.Some? && |c.memory.value.raw| > 0 ==>
      && c'.memory.Some?
      && c'.memory.value.raw == c.memory.value.raw
      && c'.memory.value.parsed == c.memory.value.parsed
      && c'.memory.value.etag == etag
      && c'.memory.value.expires == env.now + MemoryTtl(RedisTtl)
      && (env.redisUp ==> c'.durable == Some(DurableEntry(Envelope(etag, c.memory.value.raw), env.now + RedisTtl)))
      && (!env.redisUp ==> c'.durable == c.durable)
    ensures c'.refreshing == c.refreshing
  {
    match c.memory
    case None => c
    case Some(s) => if |s.raw| == 0 then c else SaveRawCache(c, env, etag, s.raw, s.parsed)
  }

  // ---------------------------------------------------------------------
  // The refresh

  /** `TryLock` succeeding. */
  function BeginRefresh(c: Cache): (c': Cache)
    ensures c'.refreshing
    ensures c'.memory == c.memory && c'.durable == c.durable
  {
    c.(refreshing := true)
  }

  /** The goroutine's body: fetch with the tag; on error keep everything; on
      "not modified" or no document touch the snapshot with the tag it was
      called with; otherwise save the new document under the new tag. */
  function Background(c: Cache, env: Env, etag: string): Cache
  {
    var reply := env.fetch(etag);
    if reply.err.Some? then c
    else if reply.notModified || reply.data.None? then TouchCache(c, env, etag)
    else SaveRawCache(c, env, reply.etag, env.codec.encode(reply.data.value), reply.data)
  }

  /** The goroutine run to completion, with the deferred `Unlock`. */
  function FinishRefresh(c: Cache, env: Env, etag: string): (c': Cache)
    ensures !c'.refreshing
  {
    Background(c, env, etag).(refreshing := false)
  }

  /** `tryRefresh`: nothing while another refresh holds the lock; otherwise
      one fetch, and the lock is free again afterwards. The result says
      whether the lock was taken. */
  function TryRefresh(c: Cache, env: Env, etag: string): (s: Step<bool>)
    ensures c.refreshing ==> s == Step(false, c, 0)
    ensures !c.refreshing ==> s.result && s.fetches == 1 && !s.cache.refreshing
    ensures !c.refreshing && env.fetch(etag).err.Some? ==> s.cache == c
    ensures !c.refreshing && env.fetch(etag).err.None? && (env.fetch(etag).notModified || env.fetch(etag).data.None?)
        ==> s.cache == TouchCache(c, env, etag)
    ensures !c.refreshing && env.fetch(etag).err.None? && !env.fetch(etag).notModified && env.fetch(etag).data.Some?
        ==> s.cache == SaveRawCache(c, env, env.fetch(etag).etag,
                                    env.codec.encode(env.fetch(etag).data.value), env.fetch(etag).data)
  {
    if c.refreshing then Step(false, c, 0)
    else Step(true, FinishRefresh(BeginRefresh(c), env, etag), 1)
  }

  // ---------------------------------------------------------------------
  // The read paths

  /** `GetRaw`: a live snapshot's bytes (and a refresh); else a readable
      durable entry's bytes, copied into a new snapshot with no parsed
      form (and a refresh); else a fetch without a tag, saved to both
      tiers. */
  function GetRaw(c: Cache, env: Env): (s: Step<Result<Bytes, Error>>)
    ensures s.fetches <= 1
    ensures s.cache.refreshing == c.refreshing
    ensures c.refreshing && s.cache != c ==> s.result.Success?
  {
    if c.memory.Some? && Live(c.memory.value, env.now) then
      var r := TryRefresh(c, env, c.memory.value.etag);
      Step(Success(c.memory.value.raw), r.cache, r.fetches)
    else match ReadDurable(c, env)
      case Some(Envelope(etag, json)) =>
        var r := TryRefresh(StoreMemoryCache(c, env.now, json, etag, None), env, etag);
        Step(Success(json), r.cache, r.fetches)
      case _ =>
        var reply := env.fetch("");
        if reply.err.Some? then Step(Failure(reply.err.value), c, 1)
        else if reply.data.None? then Step(Failure(NoDataReturned), c, 1)
        else
          var raw := env.codec.encode(reply.data.value);
          Step(Success(raw), SaveRawCache(c, env, reply.etag, raw, reply.data), 1)
  }

  /** A live snapshot is served as is: its own bytes. While a refresh
      holds the lock nothing else happens; otherwise one refresh runs with
      the snapshot's own tag. */
  lemma MemoryHit(c: Cache, env: Env)
    requires c.memory.Some? && Live(c.memory.value, env.now)
    ensures GetRaw(c, env).result == Success(c.memory.value.raw)
    ensures c.refreshing ==> GetRaw(c, env) == Step(Success(c.memory.value.raw), c, 0)
    ensures !c.refreshing ==>
      && GetRaw(c, env).cache == TryRefresh(c, env, c.memory.value.etag).cache
      && GetRaw(c, env).fetches == 1
  {
  }

  /** A durable hit serves the stored bytes and copies them into a snapshot
      with the stored tag and no parsed form. While a refresh holds the
      lock that snapshot is the result; otherwise one refresh runs on it
      with the stored tag. */
  lemma DurableHit(c: Cache, env: Env, etag: string, json: Bytes)
    requires c.memory.None? || !Live(c.memory.value, env.now)
    requires ReadDurable(c, env) == Some(Envelope(etag, json))
    ensures GetRaw(c, env).result == Success(json)
    ensures c.refreshing ==>
      && GetRaw(c, env).cache.memory == Some(Snapshot(json, None, etag, env.now + MemoryTtl(RedisTtl)))
      && GetRaw(c, env).fetches == 0
    ensures !c.refreshing ==>
      && GetRaw(c, env).cache == TryRefresh(StoreMemoryCache(c, env.now, json, etag, None), env, etag).cache
      && GetRaw(c, env).fetches == 1
  {
  }

  /** The cold path: a fetch error comes back unchanged and touches
      nothing; a reply with neither error nor document is the "no data"
      error; a document is encoded, saved to both tiers under the reply's
      tag, and served. */
  lemma ColdPath(c: Cache, env: Env)
    requires c.memory.None? || !Live(c.memory.value, env.now)
    requires ReadDurable(c, env).None? || ReadDurable(c, env) == Some(Unreadable)
    ensures var s := GetRaw(c, env); var reply := env.fetch("");
      && s.fetches == 1
      && (reply.err.Some? ==> s.result == Failure(reply.err.value) && s.cache == c)
      && (reply.err.None? && reply.data.None? ==> s.result == Failure(NoDataReturned) && s.cache == c)
      && (reply.err.None? && reply.data.Some? ==>
            && s.result == Success(env.codec.encode(reply.data.value))
            && s.cache.memory.value.raw == env.codec.encode(reply.data.value)
            && s.cache.memory.value.etag == reply.etag
            && (env.redisUp ==> s.cache.durable.value.value == Envelope(reply.etag, env.codec.encode(reply.data.value))))
  {
  }

  /** With the HTTP fetcher against a server that answers `304` only to
      conditional requests, `GetRaw` never reports "no data". */
  lemma NeverNoData(c: Cache, env: Env, server: Request -> HttpResponse)
    requires forall e :: env.fetch(e) == Fetch(e, server)
    requires Compliant(server)
    ensures GetRaw(c, env).result != Failure(NoDataReturned)
  {
    ColdFetchDelivers(server);
    assert env.fetch("") == Fetch("", server);
  }

  /** The snapshot can outlive the durable entry: a durable hit dates the
      new snapshot from now, whatever time the entry had left. */
  lemma DurableHitOutlivesStore(c: Cache, env: Env, etag: string, json: Bytes)
    requires c.memory.None? || !Live(c.memory.value, env.now)
    requires ReadDurable(c, env) == Some(Envelope(etag, json))
    requires c.refreshing
    requires c.durable.value.expiresAt < env.now + MemoryTtl(RedisTtl)
    ensures GetRaw(c, env).cache.memory.value.expires > GetRaw(c, env).cache.durable.value.expiresAt
  {
    DurableHit(c, env, etag, json);
  }

  /** An expired snapshot is never served, not even when the durable tier
      is empty and the fetch fails. */
  lemma ExpiredSnapshotNotServed(c: Cache, env: Env)
    requires c.memory.Some? && !Live(c.memory.value, env.now)
    requires ReadDurable(c, env).None?
    requires env.fetch("").err.Some?
    ensures GetRaw(c, env).result == Failure(env.fetch("").err.value)
  {
  }

  // ---------------------------------------------------------------------
  // GetSOS and the parsed form

  /** The snapshot's parsed form, when it has one, is what its bytes
      decode to. */
  ghost predicate Coherent(c: Cache, codec: Codec)
  {
    c.memory.Some? && c.memory.value.parsed.Some? ==>
      codec.decode(c.memory.value.raw) == Success(c.memory.value.parsed.value)
  }

  /** `GetSOS` as written: a live snapshot's parsed form; otherwise
      `GetRaw`, decode the bytes it returned, and attach the result to
      whatever snapshot is current by then. */
  function GetSosAsWritten(c: Cache, env: Env): (s: Step<Result<APIResponse, Error>>)
    ensures s.fetches <= 1
    ensures c.memory.Some? && c.memory.value.parsed.Some? && Live(c.memory.value, env.now)
        ==> s == Step(Success(c.memory.value.parsed.value), c, 0)
    ensures var r := GetRaw(c, env);
      !(c.memory.Some? && c.memory.value.parsed.Some? && Live(c.memory.value, env.now)) ==>
        && s.fetches == r.fetches
        && (r.result.Failure? ==> s.result == Failure(r.result.error) && s.cache == r.cache)
        && (r.result.Success? && env.codec.decode(r.result.value).Failure? ==>
              s.result == Failure(DecodeError(env.codec.decode(r.result.value).error)) && s.cache == r.cache)
        && (r.result.Success? && env.codec.decode(r.result.value).Success? ==>
              && s.result == Success(env.codec.decode(r.result.value).value)
              && s.cache == UpdateParsedCache(r.cache, env.codec.decode(r.result.value).value))
  {
    if c.memory.Some? && c.memory.value.parsed.Some? && Live(c.memory.value, env.now) then
      Step(Success(c.memory.value.parsed.value), c, 0)
    else
      var r := GetRaw(c, env);
      match r.result
      case Failure(e) => Step(Failure(e), r.cache, r.fetches)
      case Success(raw) =>
        match env.codec.decode(raw)
        case Failure(e) => Step(Failure(DecodeError(e)), r.cache, r.fetches)
        case Success(doc) => Step(Success(doc), UpdateParsedCache(r.cache, doc), r.fetches)
  }

  /** As written, a refresh that lands inside `GetSOS` leaves the new bytes
      paired with the old document: the snapshot says one thing raw and
      another parsed. */
  lemma GetSosAsWrittenIncoherent(c: Cache, env: Env, previous: APIResponse)
    requires RoundTrips(env.codec)
    requires c.memory.Some? && c.memory.value.parsed.None? && Live(c.memory.value, env.now)
    requires !c.refreshing
    requires env.codec.decode(c.memory.value.raw) == Success(previous)
    requires env.fetch(c.memory.value.etag).err.None? && !env.fetch(c.memory.value.etag).notModified
    requires env.fetch(c.memory.value.etag).data.Some? && env.fetch(c.memory.value.etag).data.value != previous
    ensures Coherent(c, env.codec)
    ensures !Coherent(GetSosAsWritten(c, env).cache, env.codec)
  {
    var next := env.fetch(c.memory.value.etag).data.value;
    assert env.codec.decode(env.codec.encode(next)) == Success(next);
  }

  /** `updateParsedCache`, attaching the document only to the snapshot whose
      bytes it was decoded from. */
  function UpdateParsedCacheFor(c: Cache, raw: Bytes, parsed: APIResponse): (c': Cache)
    ensures c.memory.Some? && c.memory.value.raw == raw ==> c' == UpdateParsedCache(c, parsed)
    ensures !(c.memory.Some? && c.memory.value.raw == raw) ==> c' == c
  {
    if c.memory.Some? && c.memory.value.raw == raw then UpdateParsedCache(c, parsed) else c
  }

  /** `GetSOS` with the snapshot check on the parsed form. */
  function GetSos(c: Cache, env: Env): (s: Step<Result<APIResponse, Error>>)
    ensures s.result == GetSosAsWritten(c, env).result
    ensures s.fetches == GetSosAsWritten(c, env).fetches
  {
    if c.memory.Some? && c.memory.value.parsed.Some? && Live(c.memory.value, env.now) then
      Step(Success(c.memory.value.parsed.value), c, 0)
    else
      var r := GetRaw(c, env);
      match r.result
      case Failure(e) => Step(Failure(e), r.cache, r.fetches)
      case Success(raw) =>
        match env.codec.decode(raw)
        case Failure(e) => Step(Failure(DecodeError(e)), r.cache, r.fetches)
        case Success(doc) => Step(Success(doc), UpdateParsedCacheFor(r.cache, raw, doc), r.fetches)
  }

  /** Every snapshot the service writes is coherent when the codec round
      trips. */
  lemma TryRefreshKeepsCoherent(c: Cache, env: Env, etag: string)
    requires RoundTrips(env.codec)
    requires Coherent(c, env.codec)
    ensures Coherent(TryRefresh(c, env, etag).cache, env.codec)
  {
    var reply := env.fetch(etag);
    if !c.refreshing && reply.err.None? && !reply.notModified && reply.data.Some? {
      assert env.codec.decode(env.codec.encode(reply.data.value)) == Success(reply.data.value);
    }
  }

  lemma GetRawKeepsCoherent(c: Cache, env: Env)
    requires RoundTrips(env.codec)
    requires Coherent(c, env.codec)
    ensures Coherent(GetRaw(c, env).cache, env.codec)
  {
    if c.memory.Some? && Live(c.memory.value, env.now) {
      TryRefreshKeepsCoherent(c, env, c.memory.value.etag);
    } else {
      match ReadDurable(c, env)
      case Some(Envelope(etag, json)) =>
        TryRefreshKeepsCoherent(StoreMemoryCache(c, env.now, json, etag, None), env, etag);
      case _ =>
        var reply := env.fetch("");
        if reply.err.None? && reply.data.Some? {
          assert env.codec.decode(env.codec.encode(reply.data.value)) == Success(reply.data.value);
        }
    }
  }

  /** The corrected `GetSOS` keeps the snapshot coherent. */
  lemma GetSosKeepsCoherent(c: Cache, env: Env)
    requires RoundTrips(env.codec)
    requires Coherent(c, env.codec)
    ensures Coherent(GetSos(c, env).cache, env.codec)
  {
    GetRawKeepsCoherent(c, env);
  }

  /** On a coherent cache the fast path of `GetSOS` answers what decoding
      the served bytes would. */
  lemma CoherentHitAgrees(c: Cache, env: Env)
    requires Coherent(c, env.codec)
    requires c.memory.Some? && c.memory.value.parsed.Some? && Live(c.memory.value, env.now)
    ensures GetRaw(c, env).result.Success?
    ensures env.codec.decode(GetRaw(c, env).result.value) == Success(GetSos(c, env).result.value)
    ensures GetSos(c, env).result.Success?
  {
    MemoryHit(c, env);
  }
}
