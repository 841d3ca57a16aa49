/**
 * `RedisService`: a key/value cache that degrades to fallback answers when
 * Redis is not configured or not reachable, with a connection-health flag
 * that a failed command clears and a successful ping sets.  The server is
 * the `store` and `ttl` maps; whether a ping succeeds and whether a command
 * raises are inputs.  Values are held as the text `json.dumps` produced;
 * `json.dumps` and `json.loads` are parameters.
 */
module Redis {
  import opened Wrappers
  import Text
  import Metadata

  /** What `get` hands back: the decoded JSON value, or the raw text when it is not JSON. */
  datatype Cached = Parsed(value: Metadata.Json) | Raw(text: string)

  /**
   * The answer `get` gives for `key` on a reachable server: nothing for a
   * missing key or a stored JSON `null`, the decoded value, or the raw text.
   */
  function Lookup(store: map<string, string>, key: string, parse: string -> Option<Metadata.Json>): (r: Option<Cached>)
    ensures key !in store ==> r.None?
    ensures r.Some? && r.value.Raw? ==> key in store && parse(store[key]).None? && r.value.text == store[key]
    ensures r.Some? && r.value.Parsed? ==> key in store && parse(store[key]) == Some(r.value.value) && !r.value.value.JNull?
  {
    if key !in store then None
    else
      var p := parse(store[key]);
      if p.None? then Some(Raw(store[key]))
      else if p.value.JNull? then None
      else Some(Parsed(p.value))
  }

  /** A value written with `set` reads back unchanged when its JSON text decodes to it. */
  lemma SetThenGet(store: map<string, string>, key: string, value: Metadata.Json,
                   dumps: Metadata.Json -> string, parse: string -> Option<Metadata.Json>)
    requires parse(dumps(value)) == Some(value) && !value.JNull?
    ensures Lookup(store[key := dumps(value)], key, parse) == Some(Parsed(value))
  {
  }

  /** `ttl` is truthy: `None` and 0 are not. */
  predicate TtlGiven(ttl: Option<int>)
  {
    ttl.Some? && ttl.value != 0
  }

  /** The keys of one scan batch. */
  function KeySet(batch: seq<string>): set<string>
  {
    set k | k in batch
  }

  /** The keys of the first `n` scan batches. */
  function Scanned(batches: seq<seq<string>>): set<string>
  {
    if batches == [] then {} else Scanned(batches[..|batches| - 1]) + KeySet(batches[|batches| - 1])
  }

  /** The entries the cache helpers keep, each under its own namespace. */
  datatype CacheEntry = UserEntry(userId: int) | EmailEntry(email: string) | TokenEntry(token: string)

  /** `user:{id}`, `user_email:{email}` and `token:{token}` */
  function CacheKey(e: CacheEntry): string
  {
    match e
    case UserEntry(id) => "user:" + Text.IntToString(id)
    case EmailEntry(email) => "user_email:" + email
    case TokenEntry(token) => "token:" + token
  }

  /** Distinct entries never share a key, so caching one never overwrites another. */
  lemma CacheKeysDistinct(a: CacheEntry, b: CacheEntry)
    ensures CacheKey(a) == CacheKey(b) <==> a == b
  {
    KeyHeads(a);
    KeyHeads(b);
    if CacheKey(a) == CacheKey(b) {
      var ka := CacheKey(a);
      if a.UserEntry? && b.UserEntry? {
        assert Text.IntToString(a.userId) == ka[5..] == Text.IntToString(b.userId);
        Text.IntToStringParses(a.userId);
        Text.IntToStringParses(b.userId);
      } else if a.EmailEntry? && b.EmailEntry? {
        assert a.email == ka[11..] == b.email;
      } else if a.TokenEntry? && b.TokenEntry? {
        assert a.token == ka[6..] == b.token;
      }
    }
  }

  /** The first and fifth characters of a key tell its namespace. */
  lemma KeyHeads(e: CacheEntry)
    ensures |CacheKey(e)| > 4
    ensures CacheKey(e)[0] == if e.TokenEntry? then 't' else 'u'
    ensures CacheKey(e)[4] == if e.UserEntry? then ':' else if e.EmailEntry? then '_' else 'n'
  {
  }

  /** The pattern `invalidate_all_users` deletes. */
  const ALL_USERS_PATTERN := "user:*"

  /** Every id-keyed user entry, and no e-mail or token entry, has the prefix the pattern matches. */
  lemma AllUsersPatternCoversIdEntries(e: CacheEntry)
    ensures Text.StartsWith(CacheKey(e), ALL_USERS_PATTERN[..5]) <==> e.UserEntry?
  {
    var k := CacheKey(e);
    if e.UserEntry? {
      assert k[..5] == "user:";
    } else if e.EmailEntry? {
      assert k[4] == '_';
    } else {
      assert k[0] == 't';
    }
  }

  /** `file:{s3_key}` */
  function FileKey(s3Key: string): string
  {
    "file:" + s3Key
  }

  /** What `get_cached_file` decodes for `key`: only a non-empty text that parses to a non-null value. */
  function FileLookup(store: map<string, string>, key: string, parse: string -> Option<Metadata.Json>): (r: Option<Metadata.Json>)
    ensures r.Some? ==> key in store && store[key] != [] && parse(store[key]) == r && !r.value.JNull?
    ensures key in store && store[key] != [] && parse(store[key]).Some? && !parse(store[key]).value.JNull? ==> r.Some?
  {
    if key in store && store[key] != [] && parse(store[key]).Some? && !parse(store[key]).value.JNull?
    then parse(store[key])
    else None
  }

  class RedisService {
    /** A connection pool was configured. */
    var initialized: bool
    var connectionHealthy: bool
    var store: map<string, string>
    /** The expiry, in seconds, of the keys written with one. */
    var ttl: map<string, int>

    /** Only a configured service is ever marked healthy, and only stored keys carry an expiry. */
    predicate Valid()
      reads this
    {
      (!initialized ==> !connectionHealthy) && ttl.Keys <= store.Keys
    }

    /** `is_available` */
    predicate IsAvailable()
      reads this
    {
      initialized && connectionHealthy
    }

    /** The server answers a command: configured, and marked healthy or answering the ping. */
    predicate Reachable(pingOk: bool)
      reads this
    {
      initialized && (connectionHealthy || pingOk)
    }

    /** A configured service starts out marked healthy; an unconfigured one never is. */
    constructor(poolPresent: bool)
      ensures initialized == poolPresent && connectionHealthy == poolPresent
      ensures store == map[] && ttl == map[] && Valid()
    {
      initialized := poolPresent;
      connectionHealthy := poolPresent;
      store := map[];
      ttl := map[];
    }

    /**
     * `_ensure_connection`: an unconfigured service is down; a healthy one is
     * up without a ping; otherwise the ping decides, and sets the flag.
     */
    method EnsureConnection(pingOk: bool) returns (up: bool)
      requires Valid()
      modifies this
      ensures Valid() && initialized == old(initialized) && store == old(store) && ttl == old(ttl)
      ensures up <==> old(Reachable(pingOk))
      ensures connectionHealthy == up
    {
      if !initialized {
        return false;
      }
      if connectionHealthy {
        return true;
      }
      connectionHealthy := pingOk;
      return pingOk;
    }

    /**
     * `set`: on an unreachable server nothing is written and the answer is
     * false.  Otherwise the text is stored, with `setex` when a ttl is given
     * and a plain `set`, which clears any expiry, when not.  A command that
     * raises writes nothing, clears the health flag and answers false.
     */
    method Set(key: string, text: string, ttlArg: Option<int>, pingOk: bool, fault: bool) returns (ok: bool)
      requires Valid()
      modifies this
      ensures Valid() && initialized == old(initialized)
      ensures ok <==> old(Reachable(pingOk)) && !fault
      ensures connectionHealthy == ok
      ensures ok && TtlGiven(ttlArg) ==> store == old(store)[key := text] && ttl == old(ttl)[key := ttlArg.value]
      ensures ok && !TtlGiven(ttlArg) ==> store == old(store)[key := text] && ttl == old(ttl) - {key}
      ensures !ok ==> store == old(store) && ttl == old(ttl)
    {
      var up := EnsureConnection(pingOk);
      if !up {
        return false;
      }
      if fault {
        connectionHealthy := false;
        return false;
      }
      store := store[key := text];
      if TtlGiven(ttlArg) {
        ttl := ttl[key := ttlArg.value];
      } else {
        ttl := ttl - {key};
      }
      return true;
    }

    /**
     * `get`: `None` on an unreachable server or a raising command (which
     * clears the health flag); otherwise what `Lookup` reads.
     */
    method Get(key: string, parse: string -> Option<Metadata.Json>, pingOk: bool, fault: bool)
      returns (value: Option<Cached>)
      requires Valid()
      modifies this
      ensures Valid() && initialized == old(initialized) && store == old(store) && ttl == old(ttl)
      ensures connectionHealthy == (old(Reachable(pingOk)) && !fault)
      ensures value == if connectionHealthy then Lookup(store, key, parse) else None
    {
      var up := EnsureConnection(pingOk);
      if !up {
        return None;
      }
      if fault {
        connectionHealthy := false;
        return None;
      }
      return Lookup(store, key, parse);
    }

    /** `delete`: true iff the key existed and was removed. */
    method Delete(key: string, pingOk: bool, fault: bool) returns (ok: bool)
      requires Valid()
      modifies this
      ensures Valid() && initialized == old(initialized)
      ensures connectionHealthy == (old(Reachable(pingOk)) && !fault)
      ensures ok <==> connectionHealthy && key in old(store)
      ensures connectionHealthy ==> store == old(store) - {key} && ttl == old(ttl) - {key}
      ensures !connectionHealthy ==> store == old(store) && ttl == old(ttl)
    {
      var up := EnsureConnection(pingOk);
      if !up {
        return false;
      }
      if fault {
        connectionHealthy := false;
        return false;
      }
      ok := key in store;
      store := store - {key};
      ttl := ttl - {key};
    }

    /** `exists`: true iff the server is reachable, answers, and holds the key. */
    method Exists(key: string, pingOk: bool, fault: bool) returns (found: bool)
      requires Valid()
      modifies this
      ensures Valid() && initialized == old(initialized) && store == old(store) && ttl == old(ttl)
      ensures connectionHealthy == (old(Reachable(pingOk)) && !fault)
      ensures found <==> connectionHealthy && key in store
    {
      var up := EnsureConnection(pingOk);
      if !up {
        return false;
      }
      if fault {
        connectionHealthy := false;
        return false;
      }
      return key in store;
    }

    /**
     * `delete_pattern`: walks the scan batches (`batches` is every batch the
     * cursor yields before it returns to 0), deleting each batch's keys and
     * summing the deletions.  The total is the number of distinct stored keys
     * the scan named, however often a key recurs.  When the command raises at
     * batch `failAt`, the batches before it stay deleted, the health flag is
     * cleared and the answer is 0.
     */
    method DeletePattern(batches: seq<seq<string>>, pingOk: bool, failAt: Option<nat>) returns (deleted: nat)
      requires Valid()
      modifies this
      ensures Valid() && initialized == old(initialized)
      ensures !old(Reachable(pingOk)) ==> deleted == 0 && store == old(store) && ttl == old(ttl) && !connectionHealthy
      ensures old(Reachable(pingOk)) && failAt.Some? && failAt.value < |batches| ==>
        deleted == 0 && !connectionHealthy &&
        store == old(store) - Scanned(batches[..failAt.value]) && ttl == old(ttl) - Scanned(batches[..failAt.value])
      ensures old(Reachable(pingOk)) && !(failAt.Some? && failAt.value < |batches|) ==>
        connectionHealthy && deleted == |old(store).Keys * Scanned(batches)| &&
        store == old(store) - Scanned(batches) && ttl == old(ttl) - Scanned(batches)
    {
      var up := EnsureConnection(pingOk);
      if !up {
        return 0;
      }
      var stop := if failAt.Some? && failAt.value < |batches| then failAt.value else |batches|;
      var count := DeleteBatches(batches, stop);
      if stop < |batches| {
        connectionHealthy := false;
        return 0;
      }
      assert batches[..stop] == batches;
      return count;
    }

    /**
     * The scan loop of `delete_pattern` over the first `stop` batches.  An
     * empty batch deletes nothing, so skipping its `DEL` needs no branch.
     */
    method DeleteBatches(batches: seq<seq<string>>, stop: nat) returns (count: nat)
      requires stop <= |batches|
      modifies this
      ensures initialized == old(initialized) && connectionHealthy == old(connectionHealthy)
      ensures store == old(store) - Scanned(batches[..stop]) && ttl == old(ttl) - Scanned(batches[..stop])
      ensures count == |old(store).Keys * Scanned(batches[..stop])|
    {
      count := 0;
      var i := 0;
      while i < stop
        invariant 0 <= i <= stop
        invariant initialized == old(initialized) && connectionHealthy == old(connectionHealthy)
        invariant store == old(store) - Scanned(batches[..i]) && ttl == old(ttl) - Scanned(batches[..i])
        invariant count == |old(store).Keys * Scanned(batches[..i])|
      {
        var batch := KeySet(batches[i]);
        BatchStep(old(store), old(ttl), batches, i);
        count := count + |store.Keys * batch|;
        store := store - batch;
        ttl := ttl - batch;
        i := i + 1;
      }
    }

    /** `check_health`: healthy exactly when configured and the ping answers. */
    method CheckHealth(pingOk: bool) returns (healthy: bool)
      requires Valid()
      modifies this
      ensures Valid() && initialized == old(initialized) && store == old(store) && ttl == old(ttl)
      ensures healthy <==> initialized && pingOk
      ensures connectionHealthy == healthy
    {
      healthy := initialized && pingOk;
      connectionHealthy := healthy;
    }

    /** `cache_user`, `cache_user_by_email`, `cache_token`: `set` under the entry's key with the entry's ttl. */
    method CacheEntryValue(e: CacheEntry, text: string, ttlArg: int, pingOk: bool, fault: bool) returns (ok: bool)
      requires Valid()
      modifies this
      ensures Valid() && initialized == old(initialized)
      ensures ok <==> old(Reachable(pingOk)) && !fault
      ensures ok ==> store == old(store)[CacheKey(e) := text] && store[CacheKey(e)] == text
      ensures !ok ==> store == old(store)
      ensures forall f :: f != e && CacheKey(f) in old(store) ==> CacheKey(f) in store && store[CacheKey(f)] == old(store)[CacheKey(f)]
    {
      ok := Set(CacheKey(e), text, Some(ttlArg), pingOk, fault);
      forall f | f != e && CacheKey(f) in old(store)
        ensures CacheKey(f) in store && store[CacheKey(f)] == old(store)[CacheKey(f)]
      {
        CacheKeysDistinct(e, f);
      }
    }

    /** `get_cached_user`, `get_cached_user_by_email`, `get_cached_token` */
    method GetCachedEntry(e: CacheEntry, parse: string -> Option<Metadata.Json>, pingOk: bool, fault: bool)
      returns (value: Option<Cached>)
      requires Valid()
      modifies this
      ensures Valid() && initialized == old(initialized) && store == old(store) && ttl == old(ttl)
      ensures connectionHealthy == (old(Reachable(pingOk)) && !fault)
      ensures value == if connectionHealthy then Lookup(store, CacheKey(e), parse) else None
    {
      value := Get(CacheKey(e), parse, pingOk, fault);
    }

    /** `invalidate_user`, `invalidate_user_by_email`, `invalidate_token` */
    method InvalidateEntry(e: CacheEntry, pingOk: bool, fault: bool) returns (ok: bool)
      requires Valid()
      modifies this
      ensures Valid() && initialized == old(initialized)
      ensures connectionHealthy == (old(Reachable(pingOk)) && !fault)
      ensures ok <==> connectionHealthy && CacheKey(e) in old(store)
      ensures connectionHealthy ==> store == old(store) - {CacheKey(e)}
      ensures !connectionHealthy ==> store == old(store)
    {
      ok := Delete(CacheKey(e), pingOk, fault);
    }

    /**
     * `cache_file` as written: once the service is available it calls
     * `self.redis_client`, an attribute the class never sets; the
     * `AttributeError` is caught, so the call answers false and stores nothing.
     */
    method CacheFileAsWritten(s3Key: string, text: string, ttlArg: int) returns (ok: bool)
      ensures !ok
      ensures store == old(store) && ttl == old(ttl) && connectionHealthy == old(connectionHealthy)
    {
      if !IsAvailable() {
        return false;
      }
      return false;
    }

    /** `get_cached_file` as written: the same missing attribute, so never a hit. */
    method GetCachedFileAsWritten(s3Key: string, parse: string -> Option<Metadata.Json>) returns (value: Option<Metadata.Json>)
      ensures value.None?
    {
      if !IsAvailable() {
        return None;
      }
      return None;
    }

    /**
     * `cache_file` on the service's own connection: on an available service
     * the text is stored under `file:{s3_key}` with its expiry; a raising
     * command answers false and, unlike the generic commands, leaves the
     * health flag alone.
     */
    method CacheFile(s3Key: string, text: string, ttlArg: int, fault: bool) returns (ok: bool)
      requires Valid()
      modifies this
      ensures Valid() && initialized == old(initialized) && connectionHealthy == old(connectionHealthy)
      ensures ok <==> old(IsAvailable()) && !fault
      ensures ok ==> store == old(store)[FileKey(s3Key) := text] && ttl == old(ttl)[FileKey(s3Key) := ttlArg]
      ensures !ok ==> store == old(store) && ttl == old(ttl)
    {
      if !IsAvailable() || fault {
        return false;
      }
      store := store[FileKey(s3Key) := text];
      ttl := ttl[FileKey(s3Key) := ttlArg];
      return true;
    }

    /** `get_cached_file` on the service's own connection: what `FileLookup` decodes. */
    method GetCachedFile(s3Key: string, parse: string -> Option<Metadata.Json>, fault: bool) returns (value: Option<Metadata.Json>)
      ensures value == if IsAvailable() && !fault then FileLookup(store, FileKey(s3Key), parse) else None
    {
      if !IsAvailable() || fault {
        return None;
      }
      return FileLookup(store, FileKey(s3Key), parse);
    }
  }

  /** The keys scanned through batch `i` are those scanned before it and its own. */
  lemma ScannedStep(batches: seq<seq<string>>, i: nat)
    requires i < |batches|
    ensures Scanned(batches[..i + 1]) == Scanned(batches[..i]) + KeySet(batches[i])
  {
    assert batches[..i + 1][..i] == batches[..i];
  }

  /** One more scan batch: what deleting it removes and counts. */
  lemma BatchStep<V, W>(store: map<string, V>, ttl: map<string, W>, batches: seq<seq<string>>, i: nat)
    requires i < |batches|
    ensures (store - Scanned(batches[..i])) - KeySet(batches[i]) == store - Scanned(batches[..i + 1])
    ensures (ttl - Scanned(batches[..i])) - KeySet(batches[i]) == ttl - Scanned(batches[..i + 1])
    ensures |store.Keys * Scanned(batches[..i + 1])|
      == |store.Keys * Scanned(batches[..i])| + |(store - Scanned(batches[..i])).Keys * KeySet(batches[i])|
  {
    var done := Scanned(batches[..i]);
    var batch := KeySet(batches[i]);
    ScannedStep(batches, i);
    DeleteTwice(store, done, batch);
    DeleteTwice(ttl, done, batch);
    CountStep(store.Keys, done, batch);
  }

  /** Deleting two key sets one after the other is deleting their union. */
  lemma DeleteTwice<V>(m: map<string, V>, s: set<string>, b: set<string>)
    ensures (m - s) - b == m - (s + b)
    ensures (m - s).Keys == m.Keys - s
  {
  }

  /** The stored keys a later batch names anew add to those the earlier ones named. */
  lemma CountStep(keys: set<string>, s: set<string>, b: set<string>)
    ensures |keys * (s + b)| == |keys * s| + |(keys - s) * b|
  {
    var gone := (keys - s) * b;
    assert keys * (s + b) == (keys * s) + gone;
    assert (keys * s) * gone == {};
  }

  /** A file cached on the service's own connection reads back unchanged. */
  lemma CachedFileReadsBack(store: map<string, string>, s3Key: string, text: string, value: Metadata.Json,
                            parse: string -> Option<Metadata.Json>)
    requires text != [] && parse(text) == Some(value) && !value.JNull?
    ensures FileLookup(store[FileKey(s3Key) := text], FileKey(s3Key), parse) == Some(value)
  {
  }
}
