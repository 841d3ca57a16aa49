/**
 * `RateLimiterMiddleware`: a fixed-window request counter per client and
 * path, kept in Redis.  The counters are the `counts` map and their expiry
 * the `expiry` map; the end of a window, when Redis drops a counter, is the
 * `WindowEnds` event.
 */
module RateLimiter {
  import Text

  const TOO_MANY_REQUESTS := 429

  /** `rate_limit:{client_ip}:{endpoint}` */
  function RateKey(clientIp: string, path: string): string
  {
    "rate_limit:" + clientIp + ":" + path
  }

  /**
   * Clients and paths get separate counters: an address without `/` and a
   * path that starts with `/` are read back from the key, because the
   * first `/` of the key opens the path.
   */
  lemma RateKeyInjective(ip1: string, path1: string, ip2: string, path2: string)
    requires !('/' in ip1) && !('/' in ip2)
    requires path1 != [] && path1[0] == '/' && path2 != [] && path2[0] == '/'
    requires RateKey(ip1, path1) == RateKey(ip2, path2)
    ensures ip1 == ip2 && path1 == path2
  {
    var k := RateKey(ip1, path1);
    assert k[|"rate_limit:" + ip1 + ":"|..] == path1;
    assert k[|"rate_limit:" + ip2 + ":"|..] == path2;
    assert Text.IndexOf(k, '/') == 12 + |ip1| by {
      FirstSlash(k, "rate_limit:" + ip1 + ":", path1);
    }
    assert Text.IndexOf(k, '/') == 12 + |ip2| by {
      FirstSlash(k, "rate_limit:" + ip2 + ":", path2);
    }
    assert ip1 == k[11..11 + |ip1|] == ip2;
  }

  /** In `head + tail`, with no `/` in `head` and `tail` starting with `/`, the first `/` is where `tail` starts. */
  lemma FirstSlash(k: string, head: string, tail: string)
    requires k == head + tail && !('/' in head) && tail != [] && tail[0] == '/'
    ensures Text.IndexOf(k, '/') == |head|
  {
    assert forall j :: 0 <= j < |head| ==> k[j] == head[j];
    assert k[|head|] == '/';
  }

  /** What `dispatch` did with a request. */
  datatype Verdict = Forwarded(code: int) | Limited(code: int)

  class RateLimiterMiddleware {
    const maxRequests: int
    const timeWindow: int
    /** The request count of each key in its current window. */
    var counts: map<string, nat>
    /** The window length set on each counter. */
    var expiry: map<string, int>

    /**
     * A counter exists only after a forwarded request and never passes the
     * maximum, so at most `max_requests` requests per key are forwarded in a
     * window; and every counter carries an expiry, so every window ends.
     */
    predicate Valid()
      reads this
    {
      (forall k :: k in counts ==> 1 <= counts[k] <= maxRequests) &&
      counts.Keys <= expiry.Keys &&
      (forall k :: k in expiry ==> expiry[k] == timeWindow)
    }

    /** `max_requests` defaults to 100 and `time_window` to 60 seconds. */
    constructor(maxRequests: int, timeWindow: int)
      ensures this.maxRequests == maxRequests && this.timeWindow == timeWindow
      ensures counts == map[] && expiry == map[] && Valid()
    {
      this.maxRequests := maxRequests;
      this.timeWindow := timeWindow;
      counts := map[];
      expiry := map[];
    }

    /** The current count of a key; a missing counter reads as 0. */
    function Current(key: string): nat
      reads this
    {
      if key in counts then counts[key] else 0
    }

    /**
     * `dispatch`: a count already at `max_requests` is refused with 429; the
     * request is not forwarded and not counted.  Otherwise the counter goes
     * up by one, the first request of a window sets the window's expiry, and
     * the request is forwarded with whatever status the handler gives.
     */
    method Dispatch(clientIp: string, path: string, handlerStatus: int) returns (v: Verdict)
      requires Valid()
      modifies this
      ensures Valid()
      ensures var key := RateKey(clientIp, path);
        old(Current(key)) >= maxRequests ==>
        v == Limited(TOO_MANY_REQUESTS) && counts == old(counts) && expiry == old(expiry)
      ensures var key := RateKey(clientIp, path);
        old(Current(key)) < maxRequests ==>
        v == Forwarded(handlerStatus) && counts == old(counts)[key := old(Current(key)) + 1]
      ensures var key := RateKey(clientIp, path);
        old(Current(key)) < maxRequests ==>
        expiry == (if old(Current(key)) == 0 then old(expiry)[key := timeWindow] else old(expiry))
    {
      var key := RateKey(clientIp, path);
      var current := Current(key);
      if current >= maxRequests {
        return Limited(TOO_MANY_REQUESTS);
      }
      counts := counts[key := current + 1];
      if current == 0 {
        expiry := expiry[key := timeWindow];
      }
      return Forwarded(handlerStatus);
    }

    /** Redis drops a counter when its window expires; the next request starts a new window. */
    method WindowEnds(key: string)
      requires Valid()
      modifies this
      ensures Valid()
      ensures counts == old(counts) - {key} && expiry == old(expiry) - {key}
      ensures Current(key) == 0
    {
      counts := counts - {key};
      expiry := expiry - {key};
    }
  }

  /**
   * Within one window a key's count is the number of forwarded requests, so
   * a window forwards at most `max_requests` of them.
   */
  lemma WindowForwardsAtMostMax(limiter: RateLimiterMiddleware, key: string)
    requires limiter.Valid()
    ensures limiter.Current(key) <= if limiter.maxRequests < 0 then 0 else limiter.maxRequests
  {
  }
}
