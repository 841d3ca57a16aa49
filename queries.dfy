/**
 * `Queries`: what the services' SELECT statements return over a table held as
 * a list of rows — a WHERE filter, `ORDER BY <time> DESC`, `OFFSET`/`LIMIT`
 * and a `GROUP BY` count.  The database leaves the order of rows with equal
 * times open; here they keep their table order.
 */
module Queries {
  import opened Wrappers

  /**
   * `WHERE <column> = k` on a table whose first match is what the service
   * reads (`scalar_one_or_none`, `fetchrow`): the first position whose key is
   * `k`, or none exactly when no row has it.
   */
  function FindFirst<R, K(==)>(rows: seq<R>, key: R -> K, k: K): (p: Option<nat>)
    ensures p.Some? ==> p.value < |rows| && key(rows[p.value]) == k
    ensures p.Some? ==> forall i :: 0 <= i < p.value ==> key(rows[i]) != k
    ensures p.None? ==> forall i :: 0 <= i < |rows| ==> key(rows[i]) != k
  {
    if rows == [] then None
    else if key(rows[0]) == k then Some(0)
    else
      var p := FindFirst(rows[1..], key, k);
      if p.Some? then Some(p.value + 1) else None
  }

  /** `WHERE p`: the rows satisfying `p`, in table order. */
  function Where<T(==,!new)>(s: seq<T>, p: T -> bool): (r: seq<T>)
    ensures |r| <= |s|
    ensures forall i :: 0 <= i < |r| ==> p(r[i])
    ensures forall x :: x in r <==> x in s && p(x)
  {
    if s == [] then []
    else if p(s[0]) then [s[0]] + Where(s[1..], p)
    else Where(s[1..], p)
  }

  /** A row either satisfies the condition or does not: the two filters split the table. */
  lemma {:induction false} WherePartition<T(!new)>(s: seq<T>, p: T -> bool, q: T -> bool)
    requires forall x :: q(x) == !p(x)
    ensures |Where(s, p)| + |Where(s, q)| == |s|
  {
    if s != [] {
      WherePartition(s[1..], p, q);
    }
  }

  /** A row added at the end of the table is selected after the others, when it satisfies the condition. */
  lemma {:induction false} WhereAppend<T(!new)>(s: seq<T>, x: T, p: T -> bool)
    ensures Where(s + [x], p) == Where(s, p) + (if p(x) then [x] else [])
  {
    if s == [] {
      assert s + [x] == [x];
    } else {
      assert (s + [x])[0] == s[0] && (s + [x])[1..] == s[1..] + [x];
      WhereAppend(s[1..], x, p);
    }
  }

  /** Rows in descending order of `time`. */
  predicate NewestFirst<T>(s: seq<T>, time: T -> int)
  {
    forall i, j :: 0 <= i < j < |s| ==> time(s[i]) >= time(s[j])
  }

  /** `x` placed before the first row that is not newer than it, so it precedes rows of equal time. */
  function InsertByTime<T(==,!new)>(x: T, s: seq<T>, time: T -> int): (r: seq<T>)
    ensures multiset(r) == multiset{x} + multiset(s)
    ensures |r| == |s| + 1
    ensures r[0] == x || (s != [] && r[0] == s[0])
  {
    if s == [] then [x]
    else if time(x) >= time(s[0]) then [x] + s
    else
      assert s == [s[0]] + s[1..];
      [s[0]] + InsertByTime(x, s[1..], time)
  }

  /** Inserting into a newest-first list keeps it newest first. */
  lemma {:induction false} InsertKeepsOrder<T(!new)>(x: T, s: seq<T>, time: T -> int)
    requires NewestFirst(s, time)
    ensures NewestFirst(InsertByTime(x, s, time), time)
  {
    if s == [] {
      assert InsertByTime(x, s, time) == [x];
    } else if time(x) >= time(s[0]) {
      ConsKeepsOrder(x, s, time);
    } else {
      var t := InsertByTime(x, s[1..], time);
      InsertKeepsOrder(x, s[1..], time);
      assert time(t[0]) <= time(s[0]) by {
        if t[0] != x { assert s[1..][0] == s[1]; }
      }
      ConsKeepsOrder(s[0], t, time);
    }
  }

  /** A row no older than the head of a newest-first list can go in front of it. */
  lemma ConsKeepsOrder<T>(h: T, t: seq<T>, time: T -> int)
    requires NewestFirst(t, time)
    requires t != [] ==> time(t[0]) <= time(h)
    ensures NewestFirst([h] + t, time)
  {
    var r := [h] + t;
    forall i, j | 0 <= i < j < |r| ensures time(r[i]) >= time(r[j]) {
      assert r[j] == t[j - 1];
      if i > 0 {
        assert r[i] == t[i - 1];
      } else if j > 1 {
        assert time(t[0]) >= time(t[j - 1]);
      }
    }
  }

  /** `ORDER BY time DESC`. */
  function OrderByTimeDesc<T(==,!new)>(s: seq<T>, time: T -> int): (r: seq<T>)
    ensures NewestFirst(r, time)
    ensures multiset(r) == multiset(s)
    ensures |r| == |s|
  {
    if s == [] then []
    else
      assert s == [s[0]] + s[1..];
      var t := OrderByTimeDesc(s[1..], time);
      InsertKeepsOrder(s[0], t, time);
      InsertByTime(s[0], t, time)
  }

  /** `OFFSET offset LIMIT limit`. */
  function Window<T>(s: seq<T>, offset: nat, limit: nat): (r: seq<T>)
    ensures |r| <= limit
    ensures |r| == if offset >= |s| then 0 else if |s| - offset < limit then |s| - offset else limit
    ensures forall i :: 0 <= i < |r| ==> r[i] == s[offset + i]
  {
    if offset >= |s| then []
    else if |s| - offset < limit then s[offset..]
    else s[offset..offset + limit]
  }

  /** A window of an ordered answer is ordered. */
  lemma WindowKeepsOrder<T>(s: seq<T>, offset: nat, limit: nat, time: T -> int)
    requires NewestFirst(s, time)
    ensures NewestFirst(Window(s, offset, limit), time)
  {
    var r := Window(s, offset, limit);
    forall i, j | 0 <= i < j < |r| ensures time(r[i]) >= time(r[j]) {
      assert r[i] == s[offset + i] && r[j] == s[offset + j];
    }
  }

  /** Every row of a window comes from the table. */
  lemma WindowWithin<T>(s: seq<T>, offset: nat, limit: nat)
    ensures forall x :: x in Window(s, offset, limit) ==> x in s
  {
    var r := Window(s, offset, limit);
    forall x | x in r ensures x in s {
      var i :| 0 <= i < |r| && r[i] == x;
      assert s[offset + i] == x;
    }
  }

  /** Keys strictly ascending in table order. */
  predicate Ascending<T>(s: seq<T>, key: T -> int)
  {
    forall i, j :: 0 <= i < j < |s| ==> key(s[i]) < key(s[j])
  }

  /** Filtering keeps the rows in table order, so ascending keys stay ascending. */
  lemma {:induction false} WhereKeepsAscending<T(!new)>(s: seq<T>, p: T -> bool, key: T -> int)
    requires Ascending(s, key)
    ensures Ascending(Where(s, p), key)
  {
    if s != [] {
      assert Ascending(s[1..], key) by {
        forall i, j | 0 <= i < j < |s[1..]| ensures key(s[1..][i]) < key(s[1..][j]) {
          assert s[1..][i] == s[i + 1] && s[1..][j] == s[j + 1];
        }
      }
      WhereKeepsAscending(s[1..], p, key);
      if p(s[0]) {
        var t := Where(s[1..], p);
        var r := [s[0]] + t;
        forall j | 0 <= j < |t| ensures key(s[0]) < key(t[j]) {
          var k :| 0 <= k < |s[1..]| && s[1..][k] == t[j];
          assert s[1..][k] == s[k + 1];
        }
        forall i, j | 0 <= i < j < |r| ensures key(r[i]) < key(r[j]) {
          assert r[j] == t[j - 1];
          if i > 0 { assert r[i] == t[i - 1]; }
        }
      }
    }
  }

  /** `WHERE p ORDER BY time DESC OFFSET offset LIMIT limit`. */
  function Page<T(==,!new)>(s: seq<T>, p: T -> bool, time: T -> int, offset: nat, limit: nat): seq<T>
  {
    Window(OrderByTimeDesc(Where(s, p), time), offset, limit)
  }

  /** A page holds at most `limit` rows of the table, each satisfying the condition, newest first. */
  lemma PageSound<T(!new)>(s: seq<T>, p: T -> bool, time: T -> int, offset: nat, limit: nat)
    ensures |Page(s, p, time, offset, limit)| <= limit
    ensures NewestFirst(Page(s, p, time, offset, limit), time)
    ensures forall x :: x in Page(s, p, time, offset, limit) ==> x in s && p(x)
  {
    var sorted := OrderByTimeDesc(Where(s, p), time);
    WindowKeepsOrder(sorted, offset, limit, time);
    WindowWithin(sorted, offset, limit);
    forall x | x in Page(s, p, time, offset, limit) ensures x in s && p(x) {
      assert x in multiset(sorted);
    }
  }

  /** A first page large enough for every matching row holds each of them exactly once. */
  lemma PageComplete<T(!new)>(s: seq<T>, p: T -> bool, time: T -> int, limit: nat)
    requires |Where(s, p)| <= limit
    ensures multiset(Page(s, p, time, 0, limit)) == multiset(Where(s, p))
  {
    var sorted := OrderByTimeDesc(Where(s, p), time);
    assert Page(s, p, time, 0, limit) == sorted;
  }

  // ---------------------------------------------------------------- GROUP BY

  /** The count recorded for `k` in a grouping, 0 when absent. */
  function CountFor(g: seq<(string, nat)>, k: string): nat
  {
    if g == [] then 0
    else if g[0].0 == k then g[0].1
    else CountFor(g[1..], k)
  }

  /** Each key appears once in a grouping. */
  predicate DistinctKeys(g: seq<(string, nat)>)
  {
    forall i, j :: 0 <= i < j < |g| ==> g[i].0 != g[j].0
  }

  /** The sum of the counts of a grouping. */
  function Total(g: seq<(string, nat)>): nat
  {
    if g == [] then 0 else g[0].1 + Total(g[1..])
  }

  /** One more row under `k`: its count goes up by one, or it joins the grouping with 1. */
  function Bump(g: seq<(string, nat)>, k: string): (r: seq<(string, nat)>)
    ensures forall x :: x in r ==> x.1 > 0 || x in g
  {
    if g == [] then [(k, 1)]
    else if g[0].0 == k then [(k, g[0].1 + 1)] + g[1..]
    else [g[0]] + Bump(g[1..], k)
  }

  /** `GROUP BY key` with `count(*)`: each key of the column with its number of rows, in order of first appearance. */
  function GroupCount(keys: seq<string>): (g: seq<(string, nat)>)
    decreases |keys|
  {
    if keys == [] then []
    else Bump(GroupCount(keys[..|keys| - 1]), keys[|keys| - 1])
  }

  lemma {:induction false} BumpCounts(g: seq<(string, nat)>, k: string)
    ensures Total(Bump(g, k)) == Total(g) + 1
    ensures CountFor(Bump(g, k), k) == CountFor(g, k) + 1
    ensures forall k' :: k' != k ==> CountFor(Bump(g, k), k') == CountFor(g, k')
  {
    if g != [] && g[0].0 != k {
      BumpCounts(g[1..], k);
    }
  }

  /** The keys of a grouping. */
  function KeysOf(g: seq<(string, nat)>): set<string>
  {
    if g == [] then {} else {g[0].0} + KeysOf(g[1..])
  }

  /** A key is in `KeysOf` exactly when some entry carries it. */
  lemma {:induction false} KeysOfIndexed(g: seq<(string, nat)>)
    ensures forall i :: 0 <= i < |g| ==> g[i].0 in KeysOf(g)
    ensures forall x :: x in KeysOf(g) ==> exists i :: 0 <= i < |g| && g[i].0 == x
  {
    if g != [] {
      KeysOfIndexed(g[1..]);
      forall i | 1 <= i < |g| ensures g[i].0 in KeysOf(g) {
        assert g[i] == g[1..][i - 1];
      }
      forall x | x in KeysOf(g) ensures exists i :: 0 <= i < |g| && g[i].0 == x {
        if x != g[0].0 {
          var j :| 0 <= j < |g[1..]| && g[1..][j].0 == x;
          assert g[j + 1].0 == x;
        }
      }
    }
  }

  lemma {:induction false} BumpKeys(g: seq<(string, nat)>, k: string)
    ensures KeysOf(Bump(g, k)) == KeysOf(g) + {k}
  {
    if g != [] {
      var r := Bump(g, k);
      if g[0].0 == k {
        assert r[1..] == g[1..];
      } else {
        BumpKeys(g[1..], k);
        assert r[1..] == Bump(g[1..], k);
      }
    }
  }

  /** In a grouping with distinct keys, the first key is not among the others. */
  lemma HeadNotInTail(g: seq<(string, nat)>)
    requires g != [] && DistinctKeys(g)
    ensures g[0].0 !in KeysOf(g[1..])
  {
    KeysOfIndexed(g[1..]);
    forall j | 0 <= j < |g[1..]| ensures g[1..][j].0 != g[0].0 {
      assert g[1..][j] == g[j + 1];
    }
  }

  /** An entry whose key is new may be put in front of a grouping with distinct keys. */
  lemma ConsDistinct(e: (string, nat), t: seq<(string, nat)>)
    requires DistinctKeys(t) && e.0 !in KeysOf(t)
    ensures DistinctKeys([e] + t)
  {
    KeysOfIndexed(t);
    var r := [e] + t;
    forall i, j | 0 <= i < j < |r| ensures r[i].0 != r[j].0 {
      assert r[j] == t[j - 1];
      if i > 0 { assert r[i] == t[i - 1]; }
    }
  }

  lemma {:induction false} BumpDistinct(g: seq<(string, nat)>, k: string)
    requires DistinctKeys(g)
    ensures DistinctKeys(Bump(g, k))
  {
    if g != [] {
      var r := Bump(g, k);
      HeadNotInTail(g);
      assert DistinctKeys(g[1..]) by {
        forall i, j | 0 <= i < j < |g[1..]| ensures g[1..][i].0 != g[1..][j].0 {
          assert g[1..][i] == g[i + 1] && g[1..][j] == g[j + 1];
        }
      }
      if g[0].0 == k {
        assert r == [(k, g[0].1 + 1)] + g[1..];
        ConsDistinct((k, g[0].1 + 1), g[1..]);
      } else {
        BumpDistinct(g[1..], k);
        BumpKeys(g[1..], k);
        assert r == [g[0]] + Bump(g[1..], k);
        ConsDistinct(g[0], Bump(g[1..], k));
      }
    }
  }

  /**
   * The grouping lists each key of the column once, with the number of rows
   * holding it, and its counts add up to the number of rows.
   */
  lemma {:induction false} GroupCountIsExact(keys: seq<string>)
    ensures DistinctKeys(GroupCount(keys))
    ensures forall k :: CountFor(GroupCount(keys), k) == multiset(keys)[k]
    ensures Total(GroupCount(keys)) == |keys|
    decreases |keys|
  {
    if keys != [] {
      var init := keys[..|keys| - 1];
      var last := keys[|keys| - 1];
      GroupCountIsExact(init);
      BumpCounts(GroupCount(init), last);
      BumpDistinct(GroupCount(init), last);
      assert keys == init + [last];
      assert multiset(keys) == multiset(init) + multiset{last};
    }
  }
}
