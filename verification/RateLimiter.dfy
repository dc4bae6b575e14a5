// The sliding-window limiter: a pruned queue per key that answers as if it kept every grant.

module RateLimiter {

  /** `Instant::duration_since`, which is zero for an instant in the future. */
  function Elapsed(now: int, since: int): nat {
    if now >= since then now - since else 0
  }

  function Prune(q: seq<int>, now: int, window: nat): seq<int> {
    if q == [] || Elapsed(now, q[0]) < window then q else Prune(q[1..], now, window)
  }

  predicate Grants(q: seq<int>, now: int, limit: nat, window: nat) {
    |Prune(q, now, window)| < limit
  }

  /** The queue of a key after one request. */
  function Serve(q: seq<int>, now: int, limit: nat, window: nat): seq<int> {
    Prune(q, now, window) + if Grants(q, now, limit, window) then [now] else []
  }

  class SlidingWindowLimiter<K(==)> {
    var store: map<K, seq<int>>
    const limit: nat
    const window: nat

    constructor (limit: nat, window: nat)
      ensures this.limit == limit && this.window == window && store == map[]
    {
      this.limit, this.window := limit, window;
      store := map[];
    }

    function QueueOf(key: K): seq<int>
      reads this
    {
      if key in store then store[key] else []
    }

    /** `allow_now`: drops what has left the window, then grants if there is room. Only this key's queue changes. */
    method AllowNow(key: K, now: int) returns (granted: bool)
      modifies this
      ensures granted <==> Grants(old(QueueOf(key)), now, limit, window)
      ensures store == old(store)[key := Serve(old(QueueOf(key)), now, limit, window)]
    {
      var entries := QueueOf(key);
      while entries != [] && Elapsed(now, entries[0]) >= window
        invariant Prune(entries, now, window) == Prune(QueueOf(key), now, window)
        decreases |entries|
      {
        entries := entries[1..];
      }
      assert Prune(QueueOf(key), now, window) == entries;
      granted := |entries| < limit;
      if granted {
        entries := entries + [now];
      } else {
        assert entries + [] == entries;
      }
      store := store[key := entries];
    }
  }

  // ----- One key, over all its requests -----

  /** The queue after requests at the given times. */
  function Queue(times: seq<int>, limit: nat, window: nat): seq<int> {
    if times == [] then []
    else Serve(Queue(times[..|times| - 1], limit, window), times[|times| - 1], limit, window)
  }

  /** The full history: every time that was granted. */
  function Granted(times: seq<int>, limit: nat, window: nat): seq<int> {
    if times == [] then []
    else
      var front, now := times[..|times| - 1], times[|times| - 1];
      Granted(front, limit, window) + if Grants(Queue(front, limit, window), now, limit, window) then [now] else []
  }

  /** How many grants of a history are younger than the window. */
  function Young(history: seq<int>, now: int, window: nat): nat {
    if history == [] then 0
    else Young(history[..|history| - 1], now, window) + if now - history[|history| - 1] < window then 1 else 0
  }

  ghost predicate Sorted(s: seq<int>) {
    forall i, j :: 0 <= i < j < |s| ==> s[i] <= s[j]
  }

  ghost predicate UpTo(s: seq<int>, now: int) {
    forall i :: 0 <= i < |s| ==> s[i] <= now
  }

  /** The queue is the history less a prefix that has left the window for good. */
  ghost predicate Suffix(q: seq<int>, history: seq<int>, n: nat, now: int, window: nat) {
    && n <= |history| && q == history[n..]
    && forall i :: 0 <= i < n ==> Elapsed(now, history[i]) >= window
  }

  lemma {:induction false} PruneIsSuffix(q: seq<int>, history: seq<int>, n: nat, now: int, window: nat) returns (n': nat)
    requires Sorted(history) && UpTo(history, now) && Suffix(q, history, n, now, window)
    ensures Suffix(Prune(q, now, window), history, n', now, window)
    ensures forall i :: n' <= i < |history| ==> Elapsed(now, history[i]) < window
    decreases |q|
  {
    if q == [] || Elapsed(now, q[0]) < window {
      n' := n;
      assert q != [] ==> q[0] == history[n];
    } else {
      assert q[1..] == history[n + 1..];
      n' := PruneIsSuffix(q[1..], history, n + 1, now, window);
    }
  }

  lemma {:induction false} YoungIsSuffix(history: seq<int>, n: nat, now: int, window: nat)
    requires n <= |history| && UpTo(history, now)
    requires forall i :: 0 <= i < n ==> Elapsed(now, history[i]) >= window
    requires forall i :: n <= i < |history| ==> Elapsed(now, history[i]) < window
    ensures Young(history, now, window) == |history| - n
    decreases |history|
  {
    if history == [] {
    } else {
      YoungIsSuffix(history[..|history| - 1], if n < |history| then n else |history| - 1, now, window);
    }
  }

  lemma {:induction false} PruneShortens(q: seq<int>, now: int, window: nat)
    ensures |Prune(q, now, window)| <= |q|
  {
    if q == [] || Elapsed(now, q[0]) < window {
    } else {
      PruneShortens(q[1..], now, window);
    }
  }

  /** One request keeps the queue the end of the history. */
  lemma ServeIsSuffix(q: seq<int>, g: seq<int>, n: nat, now: int, limit: nat, window: nat) returns (n': nat)
    requires Sorted(g) && UpTo(g, now) && Suffix(q, g, n, now, window) && |q| <= limit
    ensures var g' := g + if Grants(q, now, limit, window) then [now] else [];
            && Sorted(g') && UpTo(g', now)
            && Suffix(Serve(q, now, limit, window), g', n', now, window) && |Serve(q, now, limit, window)| <= limit
  {
    hide Prune;
    n' := PruneIsSuffix(q, g, n, now, window);
    PruneShortens(q, now, window);
    if Grants(q, now, limit, window) {
      assert (g + [now])[n'..] == g[n'..] + [now];
    } else {
      assert g + [] == g && Prune(q, now, window) + [] == Prune(q, now, window);
    }
  }

  lemma LaterSuffix(q: seq<int>, g: seq<int>, n: nat, now: int, later: int, window: nat)
    requires UpTo(g, now) && Suffix(q, g, n, now, window) && now <= later
    ensures UpTo(g, later) && Suffix(q, g, n, later, window)
  {
    forall i | 0 <= i < n
      ensures Elapsed(later, g[i]) >= window
    {
      assert Elapsed(now, g[i]) >= window;
    }
  }

  lemma {:induction false} QueueIsSuffix(times: seq<int>, limit: nat, window: nat, now: int) returns (n: nat)
    requires Sorted(times) && UpTo(times, now)
    ensures var g := Granted(times, limit, window);
            Sorted(g) && UpTo(g, now) && Suffix(Queue(times, limit, window), g, n, now, window)
            && |Queue(times, limit, window)| <= limit
  {
    hide Prune, Serve, Grants;
    if times == [] {
      n := 0;
    } else {
      var front, last := times[..|times| - 1], times[|times| - 1];
      var n0 := QueueIsSuffix(front, limit, window, last);
      n := ServeIsSuffix(Queue(front, limit, window), Granted(front, limit, window), n0, last, limit, window);
      LaterSuffix(Queue(times, limit, window), Granted(times, limit, window), n, last, now, window);
    }
  }

  /** The limiter answers as if it kept every grant: for times that never go back, it grants exactly when fewer than
      `limit` earlier grants are younger than the window. Its queue is sorted, no longer than the limit, and ends the history. */
  lemma GrantsByFullHistory(times: seq<int>, now: int, limit: nat, window: nat)
    requires Sorted(times) && UpTo(times, now)
    ensures Grants(Queue(times, limit, window), now, limit, window)
            <==> Young(Granted(times, limit, window), now, window) < limit
    ensures var q, g := Queue(times, limit, window), Granted(times, limit, window);
            Sorted(q) && |q| <= limit && |q| <= |g| && q == g[|g| - |q|..]
  {
    var n := QueueIsSuffix(times, limit, window, now);
    var g := Granted(times, limit, window);
    var n' := PruneIsSuffix(Queue(times, limit, window), g, n, now, window);
    YoungIsSuffix(g, n', now, window);
  }

  // ----- Every window holds at most `limit` grants -----

  /** Any limit + 1 grants span at least a window. */
  ghost predicate Spaced(g: seq<int>, limit: nat, window: nat) {
    forall i :: 0 <= i && i + limit < |g| ==> g[i + limit] - g[i] >= window
  }

  lemma GrantIsSpaced(g: seq<int>, n: nat, now: int, limit: nat, window: nat)
    requires Sorted(g) && UpTo(g, now) && Spaced(g, limit, window) && n <= |g| && |g| - n < limit
    requires forall i :: 0 <= i < n ==> Elapsed(now, g[i]) >= window
    ensures Sorted(g + [now]) && Spaced(g + [now], limit, window)
  {
    forall i | 0 <= i && i + limit < |g + [now]|
      ensures (g + [now])[i + limit] - (g + [now])[i] >= window
    {
      if i + limit == |g| {
        assert Elapsed(now, g[i]) >= window;
      }
    }
  }

  lemma {:induction false} GrantsAreSpaced(times: seq<int>, limit: nat, window: nat)
    requires Sorted(times)
    ensures var g := Granted(times, limit, window); Sorted(g) && Spaced(g, limit, window)
    ensures limit == 0 ==> Granted(times, limit, window) == []
  {
    hide Sorted, Spaced, Suffix, Queue, Prune;
    if times == [] {
      NothingGranted(limit, window);
    } else {
      var front, last := times[..|times| - 1], times[|times| - 1];
      FrontInOrder(times);
      GrantsAreSpaced(front, limit, window);
      var g, q := Granted(front, limit, window), Queue(front, limit, window);
      var n := QueueIsSuffix(front, limit, window, last);
      var n' := PruneIsSuffix(q, g, n, last, window);
      PrunedLength(q, g, n', last, window);
      if Grants(q, last, limit, window) {
        GrantIsSpaced(g, n', last, limit, window);
      } else {
        assert g + [] == g;
      }
    }
  }

  lemma NothingGranted(limit: nat, window: nat)
    ensures Granted([], limit, window) == [] && Sorted([]) && Spaced([], limit, window)
  {
  }

  lemma FrontInOrder(times: seq<int>)
    requires times != [] && Sorted(times)
    ensures Sorted(times[..|times| - 1]) && UpTo(times[..|times| - 1], times[|times| - 1])
  {
  }

  lemma PrunedLength(q: seq<int>, g: seq<int>, n: nat, now: int, window: nat)
    requires Suffix(Prune(q, now, window), g, n, now, window)
    ensures n <= |g| && |Prune(q, now, window)| == |g| - n && forall i :: 0 <= i < n ==> Elapsed(now, g[i]) >= window
  {
  }

  /** The grants in the half-open window from t. */
  function Within(g: seq<int>, t: int, window: nat): nat {
    if g == [] then 0
    else Within(g[..|g| - 1], t, window) + if t <= g[|g| - 1] < t + window then 1 else 0
  }

  lemma {:induction false} SpacedWindow(g: seq<int>, t: int, limit: nat, window: nat, k: nat)
    requires Sorted(g) && Spaced(g, limit, window) && k <= |g|
    requires forall i :: k <= i < |g| ==> g[i] >= t
    requires k > 0 ==> g[k - 1] < t
    requires limit == 0 ==> g == []
    ensures Within(g, t, window) <= limit
    ensures Within(g, t, window) <= |g| - k
    decreases |g|
  {
    if g == [] {
    } else {
      var front := g[..|g| - 1];
      if k < |g| {
        SpacedWindow(front, t, limit, window, k);
        if |g| - k > limit {
          assert g[|g| - 1] - g[|g| - 1 - limit] >= window;
        }
      } else {
        SpacedWindow(front, t, limit, window, FirstFrom(front, t));
        AllBefore(g, t, window);
      }
    }
  }

  lemma {:induction false} AllBefore(g: seq<int>, t: int, window: nat)
    requires forall i :: 0 <= i < |g| ==> g[i] < t
    ensures Within(g, t, window) == 0
  {
    if g == [] {
    } else {
      AllBefore(g[..|g| - 1], t, window);
    }
  }

  /** The first grant not before t. */
  function FirstFrom(g: seq<int>, t: int): (k: nat)
    ensures k <= |g| && (k > 0 ==> g[k - 1] < t) && (k < |g| ==> g[k] >= t)
  {
    if g == [] then 0
    else if g[|g| - 1] < t then |g|
    else
      var k := FirstFrom(g[..|g| - 1], t);
      k
  }

  /** Every half-open window of the configured length, wherever it starts, holds at most `limit` grants. */
  lemma WindowsHoldLimit(times: seq<int>, t: int, limit: nat, window: nat)
    requires Sorted(times)
    ensures Within(Granted(times, limit, window), t, window) <= limit
  {
    GrantsAreSpaced(times, limit, window);
    SpacedWindow(Granted(times, limit, window), t, limit, window, FirstFrom(Granted(times, limit, window), t));
  }

  // ----- Keys do not affect each other -----

  function Lookup<K(==)>(store: map<K, seq<int>>, key: K): seq<int> {
    if key in store then store[key] else []
  }

  /** The store after requests of several keys, each served as the class does. */
  function Run<K(==)>(requests: seq<(K, int)>, limit: nat, window: nat): map<K, seq<int>> {
    if requests == [] then map[]
    else
      var before, (key, now) := Run(requests[..|requests| - 1], limit, window), requests[|requests| - 1];
      before[key := Serve(Lookup(before, key), now, limit, window)]
  }

  function TimesOf<K(==)>(requests: seq<(K, int)>, key: K): seq<int> {
    if requests == [] then []
    else TimesOf(requests[..|requests| - 1], key) + if requests[|requests| - 1].0 == key then [requests[|requests| - 1].1] else []
  }

  /** The queue of a key is what its own requests alone would have left. */
  lemma {:induction false} KeysAreIndependent<K>(requests: seq<(K, int)>, key: K, limit: nat, window: nat)
    ensures Lookup(Run(requests, limit, window), key) == Queue(TimesOf(requests, key), limit, window)
  {
    if requests == [] {
    } else {
      var front, last := requests[..|requests| - 1], requests[|requests| - 1];
      KeysAreIndependent(front, key, limit, window);
      var own := TimesOf(front, key);
      if last.0 == key {
        assert (own + [last.1])[..|own|] == own;
      } else {
        assert own + [] == own;
      }
    }
  }

  lemma {:induction false} OwnTimesInOrder<K>(requests: seq<(K, int)>, key: K, now: int)
    requires forall i, j :: 0 <= i < j < |requests| ==> requests[i].1 <= requests[j].1
    requires forall i :: 0 <= i < |requests| ==> requests[i].1 <= now
    ensures Sorted(TimesOf(requests, key)) && UpTo(TimesOf(requests, key), now)
  {
    if requests == [] {
    } else {
      OwnTimesInOrder(requests[..|requests| - 1], key, requests[|requests| - 1].1);
    }
  }

  /** The limiter after any requests of any keys, in time order: it grants the next request of a key exactly when fewer than
      `limit` grants of that key are younger than the window, and no window of that key ever held more than `limit`. */
  lemma LimiterKeepsFullHistory<K>(requests: seq<(K, int)>, key: K, now: int, limit: nat, window: nat)
    requires forall i, j :: 0 <= i < j < |requests| ==> requests[i].1 <= requests[j].1
    requires forall i :: 0 <= i < |requests| ==> requests[i].1 <= now
    ensures var history := Granted(TimesOf(requests, key), limit, window);
            && (Grants(Lookup(Run(requests, limit, window), key), now, limit, window) <==> Young(history, now, window) < limit)
            && forall t :: Within(history, t, window) <= limit
  {
    var times := TimesOf(requests, key);
    OwnTimesInOrder(requests, key, now);
    KeysAreIndependent(requests, key, limit, window);
    GrantsByFullHistory(times, now, limit, window);
    forall t
      ensures Within(Granted(times, limit, window), t, window) <= limit
    {
      WindowsHoldLimit(times, t, limit, window);
    }
  }
}
