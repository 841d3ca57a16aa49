/**
 * Database URL handling at start-up: the required `DATABASE_URL`, its query
 * parameters, the `sslmode` parameter and the driver prefix that SQLAlchemy's
 * asyncpg dialect needs; and the older single `replace` rewrite.
 */
module DatabaseUrl {
  import opened Wrappers
  import Text

  /** The parts `urlparse` splits a URL into (the parse itself is not modelled). */
  datatype ParsedUrl = ParsedUrl(scheme: string, netloc: string, path: string, query: string, fragment: string)

  /** `parsed.geturl()` for a URL with a network location. */
  function GetUrl(u: ParsedUrl): string
  {
    (if u.scheme != "" then u.scheme + ":" else "")
    + (if u.netloc != "" then "//" + u.netloc else "")
    + u.path
    + (if u.query != "" then "?" + u.query else "")
    + (if u.fragment != "" then "#" + u.fragment else "")
  }

  /** `parsed.hostname`: after any `user:password@`, before any `:port`, lower-cased. */
  function Hostname(netloc: string): Option<string>
  {
    var host := Text.Lower(Text.FirstField(Text.LastField(netloc, '@'), ':'));
    if host == "" then None else Some(host)
  }

  /** A dictionary in insertion order. */
  type Params = seq<(string, string)>

  function Lookup(d: Params, k: string): Option<string>
  {
    if d == [] then None
    else if d[0].0 == k then Some(d[0].1)
    else Lookup(d[1..], k)
  }

  /** No key appears twice. */
  predicate DistinctKeys(d: Params)
  {
    d == [] || (Lookup(d[1..], d[0].0) == None && DistinctKeys(d[1..]))
  }

  /**
   * `d[k] = v` on a Python dictionary: an existing key keeps its position and
   * takes the new value; a new key goes to the end.
   */
  function Insert(d: Params, k: string, v: string): (r: Params)
    requires DistinctKeys(d)
    ensures DistinctKeys(r)
    ensures Lookup(r, k) == Some(v)
    ensures forall k' :: k' != k ==> Lookup(r, k') == Lookup(d, k')
  {
    if d == [] then [(k, v)]
    else if d[0].0 == k then [(k, v)] + d[1..]
    else [d[0]] + Insert(d[1..], k, v)
  }

  /** Inserting a key that is not yet present appends it. */
  lemma {:induction false} InsertNew(d: Params, k: string, v: string)
    requires DistinctKeys(d) && Lookup(d, k) == None
    ensures Insert(d, k, v) == d + [(k, v)]
  {
    if d != [] {
      InsertNew(d[1..], k, v);
      assert (d + [(k, v)])[1..] == d[1..] + [(k, v)];
    }
  }

  /** The query pieces that contain `=`, each split at its first `=`, into a dictionary. */
  function ParseQuery(query: string): (d: Params)
    ensures DistinctKeys(d)
  {
    if query == "" then [] else InsertPieces([], Text.Split(query, '&'))
  }

  function InsertPieces(acc: Params, pieces: seq<string>): (d: Params)
    requires DistinctKeys(acc)
    ensures DistinctKeys(d)
    decreases |pieces|
  {
    if pieces == [] then acc
    else
      var p := pieces[0];
      var k := Text.IndexOf(p, '=');
      var acc' := if k < |p| then Insert(acc, p[..k], p[k + 1..]) else acc;
      InsertPieces(acc', pieces[1..])
  }

  /** `"&".join(f"{k}={v}" for k, v in d.items())` */
  function JoinQuery(d: Params): string
  {
    Text.Join(Pieces(d), "&")
  }

  function Pieces(d: Params): (r: seq<string>)
    ensures |r| == |d|
    ensures forall i :: 0 <= i < |d| ==> r[i] == d[i].0 + "=" + d[i].1
  {
    if d == [] then [] else [d[0].0 + "=" + d[0].1] + Pieces(d[1..])
  }

  /** `d.pop(k, default)`: the value (or the default) and the dictionary without `k`. */
  function Pop(d: Params, k: string, default: string): (r: (string, Params))
    requires DistinctKeys(d)
    ensures DistinctKeys(r.1)
    ensures r.0 == Lookup(d, k).GetOr(default)
    ensures Lookup(r.1, k) == None
    ensures forall k' :: k' != k ==> Lookup(r.1, k') == Lookup(d, k')
    ensures forall i :: 0 <= i < |r.1| ==> r.1[i] in d
  {
    if d == [] then (default, [])
    else if d[0].0 == k then (d[0].1, d[1..])
    else
      var t := Pop(d[1..], k, default);
      (t.0, [d[0]] + t.1)
  }

  /** The settings derived from `DATABASE_URL`. */
  datatype DbSettings = DbSettings(url: string, sslMode: string)

  datatype ConfigError = MissingDatabaseUrl | NoSchemeSeparator

  datatype Loaded = Loaded(settings: DbSettings) | Failed(error: ConfigError)

  const ASYNC_PREFIX: string := "postgresql+asyncpg://"

  /**
   * The driver rewrite: a `postgres://` or `postgresql://` prefix becomes the
   * asyncpg prefix, a URL that already has it is kept, and any other scheme is
   * replaced by it; a URL without `://` makes the source raise.
   */
  function EnsureAsyncDriver(url: string): (r: Option<string>)
    ensures r.Some? ==> Text.StartsWith(r.value, ASYNC_PREFIX)
    ensures Text.StartsWith(url, ASYNC_PREFIX) ==> r == Some(url)
    ensures Text.StartsWith(url, "postgres://") ==> r == Some(ASYNC_PREFIX + url[|"postgres://"|..])
    ensures Text.StartsWith(url, "postgresql://") ==> r == Some(ASYNC_PREFIX + url[|"postgresql://"|..])
  {
    if Text.StartsWith(url, "postgres://") then
      assert url[8] == ':';
      Some(ASYNC_PREFIX + url[|"postgres://"|..])
    else if Text.StartsWith(url, "postgresql://") then
      assert url[10] == ':';
      assert |url| < 21 || url[..21][10] == url[10];
      assert !Text.StartsWith(url, ASYNC_PREFIX);
      Some(ASYNC_PREFIX + url[|"postgresql://"|..])
    else if Text.StartsWith(url, ASYNC_PREFIX) then Some(url)
    else
      var k := SchemeSeparator(url);
      if k < |url| then Some(ASYNC_PREFIX + url[k + 3..]) else None
  }

  /** Index of the first `://`, or `|url|` when there is none. */
  function SchemeSeparator(url: string): (k: nat)
    ensures k == |url| || (k + 3 <= |url| && url[k..k + 3] == "://")
  {
    if |url| < 3 then |url|
    else if url[..3] == "://" then 0
    else
      var k := SchemeSeparator(url[1..]);
      if k == |url| - 1 then |url| else k + 1
  }

  /** Rewriting is idempotent. */
  lemma EnsureAsyncDriverIdempotent(url: string)
    requires EnsureAsyncDriver(url).Some?
    ensures EnsureAsyncDriver(EnsureAsyncDriver(url).value) == EnsureAsyncDriver(url)
  {
    var r := EnsureAsyncDriver(url).value;
    assert !Text.StartsWith(r, "postgres://") by { assert r[8] == 'q'; }
    assert !Text.StartsWith(r, "postgresql://") by { assert r[10] == '+'; }
  }

  /**
   * The module-level code of the application configuration: the URL is
   * required; `sslmode` is taken out of the query (default `prefer`, forced to
   * `prefer` on a local host); the query is rebuilt without it; the driver
   * prefix is fixed.
   */
  function LoadDatabaseSettings(env: Option<string>, parse: string -> ParsedUrl): (r: Loaded)
    ensures (env.None? || env.value == "") ==> r == Failed(MissingDatabaseUrl)
    ensures env.Some? && env.value != "" ==>
      var u := parse(env.value);
      var driverUrl := EnsureAsyncDriver(GetUrl(u.(query := QueryWithoutSslMode(u.query))));
      (r.Loaded? <==> driverUrl.Some?) &&
      (r.Loaded? ==> r.settings.url == driverUrl.value) &&
      (r.Failed? ==> r.error == NoSchemeSeparator)
    ensures r.Loaded? ==> Text.StartsWith(r.settings.url, ASYNC_PREFIX)
    ensures r.Loaded? ==>
      var u := parse(env.value);
      var host := Hostname(u.netloc);
      (host == Some("localhost") || host == Some("127.0.0.1") ==> r.settings.sslMode == "prefer") &&
      (!(host == Some("localhost") || host == Some("127.0.0.1")) ==>
        r.settings.sslMode == Lookup(ParseQuery(u.query), "sslmode").GetOr("prefer"))
  {
    if env.None? || env.value == "" then Failed(MissingDatabaseUrl)
    else
      var u := parse(env.value);
      var params := ParseQuery(u.query);
      var (sslMode, rest) := Pop(params, "sslmode", "prefer");
      var host := Hostname(u.netloc);
      var sslMode := if host == Some("localhost") || host == Some("127.0.0.1") then "prefer" else sslMode;
      var clean := GetUrl(u.(query := QueryWithoutSslMode(u.query)));
      match EnsureAsyncDriver(clean)
      case None => Failed(NoSchemeSeparator)
      case Some(url) => Loaded(DbSettings(url, sslMode))
  }

  /** The query rebuilt from its parameters once `sslmode` is taken out. */
  function QueryWithoutSslMode(query: string): string
  {
    JoinQuery(Pop(ParseQuery(query), "sslmode", "prefer").1)
  }

  /** What `geturl()` puts after `scheme://` when there is a network location. */
  function AfterScheme(u: ParsedUrl): string
  {
    u.netloc + u.path
    + (if u.query != "" then "?" + u.query else "")
    + (if u.fragment != "" then "#" + u.fragment else "")
  }

  lemma GetUrlWithHost(u: ParsedUrl)
    requires u.scheme != "" && u.netloc != ""
    ensures GetUrl(u) == u.scheme + "://" + AfterScheme(u)
  {
  }

  /**
   * A `postgres://` or `postgresql://` URL with a host loads as the asyncpg
   * URL with the same host, path and fragment, and the query without
   * `sslmode` (no `?` when nothing is left of it).
   */
  lemma LoadedPostgresUrl(env: string, parse: string -> ParsedUrl)
    requires env != ""
    requires parse(env).scheme == "postgres" || parse(env).scheme == "postgresql"
    requires parse(env).netloc != ""
    ensures var u := parse(env);
      var r := LoadDatabaseSettings(Some(env), parse);
      r.Loaded? && r.settings.url == ASYNC_PREFIX + AfterScheme(u.(query := QueryWithoutSslMode(u.query)))
  {
    var u := parse(env);
    var v := u.(query := QueryWithoutSslMode(u.query));
    GetUrlWithHost(v);
    SchemeRewrite(v.scheme, AfterScheme(v));
  }

  lemma SchemeRewrite(scheme: string, tail: string)
    requires scheme == "postgres" || scheme == "postgresql"
    ensures EnsureAsyncDriver(scheme + "://" + tail) == Some(ASYNC_PREFIX + tail)
  {
    var url := scheme + "://" + tail;
    var pre := scheme + "://";
    assert url == pre + tail;
    assert url[..|pre|] == pre && url[|pre|..] == tail;
  }

  /** Keys free of `&` and `=`, values free of `&`: what a query string can carry. */
  predicate Joinable(d: Params)
  {
    DistinctKeys(d) && forall i :: 0 <= i < |d| ==> !('&' in d[i].0) && !('=' in d[i].0) && !('&' in d[i].1)
  }

  /**
   * The rebuilt query: `sslmode` is gone and every other parameter keeps its
   * value, because parsing the rebuilt query gives back the remaining
   * parameters.
   */
  lemma RebuiltQueryDropsOnlySslMode(query: string)
    requires Joinable(ParseQuery(query))
    ensures Lookup(ParseQuery(QueryWithoutSslMode(query)), "sslmode") == None
    ensures forall k :: k != "sslmode" ==> Lookup(ParseQuery(QueryWithoutSslMode(query)), k) == Lookup(ParseQuery(query), k)
  {
    var rest := Pop(ParseQuery(query), "sslmode", "prefer").1;
    ParseJoinRoundTrip(rest);
  }

  /** Parsing a joined dictionary gives the dictionary back. */
  lemma ParseJoinRoundTrip(d: Params)
    requires Joinable(d)
    ensures ParseQuery(JoinQuery(d)) == d
  {
    if d != [] {
      SplitJoin(d);
      assert JoinQuery(d) != "" by { assert |JoinQuery(d)| >= |Pieces(d)[0]|; }
      var empty: Params := [];
      assert empty + d == d;
      InsertPiecesAppend(empty, d);
    }
  }

  /** Every piece is `k=v` with no `&`, so splitting the join on `&` gives the pieces. */
  lemma {:induction false} SplitJoin(d: Params)
    requires Joinable(d) && d != []
    ensures Text.Split(JoinQuery(d), '&') == Pieces(d)
    ensures |JoinQuery(d)| >= |Pieces(d)[0]|
    decreases |d|
  {
    var p := d[0].0 + "=" + d[0].1;
    assert !('&' in p);
    if |d| == 1 {
      assert Pieces(d) == [p];
      assert Text.IndexOf(p, '&') == |p|;
    } else {
      assert Joinable(d[1..]);
      SplitJoin(d[1..]);
      assert Pieces(d) == [p] + Pieces(d[1..]);
      assert JoinQuery(d) == p + "&" + JoinQuery(d[1..]);
      SplitAfterPiece(p, JoinQuery(d[1..]));
    }
  }

  lemma SplitAfterPiece(p: string, tail: string)
    requires !('&' in p)
    ensures Text.Split(p + "&" + tail, '&') == [p] + Text.Split(tail, '&')
  {
    var s := p + "&" + tail;
    assert Text.IndexOf(s, '&') == |p| by { assert s[|p|] == '&'; }
    assert s[..|p|] == p;
    assert s[|p| + 1..] == tail;
  }

  /** Inserting the pieces of `d` after `acc` appends `d`. */
  lemma {:induction false} InsertPiecesAppend(acc: Params, d: Params)
    requires DistinctKeys(acc + d) && DistinctKeys(acc) && Joinable(d)
    ensures InsertPieces(acc, Pieces(d)) == acc + d
    decreases |d|
  {
    if d == [] {
      assert acc + d == acc;
    } else {
      var p := d[0].0 + "=" + d[0].1;
      assert p[|d[0].0|] == '=';
      assert Text.IndexOf(p, '=') == |d[0].0|;
      assert p[..|d[0].0|] == d[0].0 && p[|d[0].0| + 1..] == d[0].1;
      AbsentBeforeSuffix(acc, d);
      InsertNew(acc, d[0].0, d[0].1);
      var acc' := acc + [d[0]];
      assert acc' + d[1..] == acc + d;
      assert Pieces(d)[1..] == Pieces(d[1..]);
      DistinctPrefix(acc', d[1..]);
      assert Joinable(d[1..]);
      InsertPiecesAppend(acc', d[1..]);
    }
  }

  lemma {:induction false} AbsentBeforeSuffix(a: Params, b: Params)
    requires DistinctKeys(a + b) && b != []
    ensures Lookup(a, b[0].0) == None
  {
    if a == [] {
    } else {
      assert (a + b)[1..] == a[1..] + b;
      AbsentBeforeSuffix(a[1..], b);
      assert Lookup(a[1..] + b, a[0].0) == None;
      assert b[0].0 != a[0].0 by {
        LookupAt(a[1..] + b, |a[1..]|);
      }
    }
  }

  lemma {:induction false} LookupInPrefix(a: Params, b: Params, k: string)
    requires Lookup(a + b, k) == None
    ensures Lookup(a, k) == None
  {
    if a != [] {
      assert (a + b)[1..] == a[1..] + b;
      LookupInPrefix(a[1..], b, k);
    }
  }

  lemma {:induction false} LookupAt(d: Params, j: int)
    requires 0 <= j < |d|
    ensures Lookup(d, d[j].0).Some?
  {
    if j > 0 && d[0].0 != d[j].0 { LookupAt(d[1..], j - 1); }
  }

  lemma {:induction false} DistinctPrefix(a: Params, b: Params)
    requires DistinctKeys(a + b)
    ensures DistinctKeys(a)
  {
    if a != [] {
      assert (a + b)[1..] == a[1..] + b;
      DistinctPrefix(a[1..], b);
      LookupInPrefix(a[1..], b, a[0].0);
    }
  }

  /** The older configuration: every `postgresql://` becomes `postgres://`. */
  function LoadLegacyUrl(env: Option<string>): (r: Option<string>)
    ensures (env.None? || env.value == "") <==> r.None?
    ensures r.Some? && !Text.Contains(env.value, "postgresql://") ==> r.value == env.value
    ensures r.Some? ==> !Text.Contains(r.value, "postgresql://")
  {
    if env.None? || env.value == "" then None
    else
      Text.ReplaceRemovesAll(env.value, "postgresql://", "postgres://", 8);
      Some(Text.Replace(env.value, "postgresql://", "postgres://"))
  }

  /** A `postgresql://` URL with no second occurrence is rewritten to `postgres://` once. */
  lemma LegacyRewriteOfPostgresqlUrl(rest: string)
    requires !Text.Contains(rest, "postgresql://")
    ensures LoadLegacyUrl(Some("postgresql://" + rest)) == Some("postgres://" + rest)
  {
    var s := "postgresql://" + rest;
    assert s[..|"postgresql://"|] == "postgresql://";
    assert s[|"postgresql://"|..] == rest;
  }
}
