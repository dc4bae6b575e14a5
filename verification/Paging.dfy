// Keyset pages over a user's swap history, and the cursor text between them.

module Paging {
  import opened Base
  import Decimal

  datatype SwapRow = SwapRow(user: string, ledger: uint32, createdAt: int64, status: string, functionName: string)

  /** The invocation table, by transaction hash. */
  type Table = map<string, SwapRow>

  /** Sort key of a row: creation time, then transaction hash. */
  type Key = (int64, string)

  // ----- The order of rows -----

  /** SQLite's text order. */
  predicate Less(a: string, b: string) {
    if b == "" then false
    else if a == "" then true
    else a[0] < b[0] || (a[0] == b[0] && Less(a[1..], b[1..]))
  }

  lemma {:induction false} LessIsStrict(a: string)
    ensures !Less(a, a)
  {
    if a == "" {
    } else {
      LessIsStrict(a[1..]);
    }
  }

  lemma {:induction false} LessIsTotal(a: string, b: string)
    ensures a != b ==> Less(a, b) || Less(b, a)
  {
    if a != "" && b != "" && a[0] == b[0] {
      LessIsTotal(a[1..], b[1..]);
      assert a == [a[0]] + a[1..] && b == [b[0]] + b[1..];
    }
  }

  lemma {:induction false} LessIsTransitive(a: string, b: string, c: string)
    ensures Less(a, b) && Less(b, c) ==> Less(a, c)
  {
    if a != "" && b != "" && c != "" {
      LessIsTransitive(a[1..], b[1..], c[1..]);
    }
  }

  predicate Older(a: Key, b: Key) {
    a.0 < b.0 || (a.0 == b.0 && Less(a.1, b.1))
  }

  lemma OlderIsOrder(a: Key, b: Key, c: Key)
    ensures !Older(a, a)
    ensures a != b ==> Older(a, b) || Older(b, a)
    ensures Older(a, b) && Older(b, c) ==> Older(a, c)
  {
    LessIsStrict(a.1);
    LessIsTotal(a.1, b.1);
    LessIsTransitive(a.1, b.1, c.1);
  }

  /** Newer, by the parts of the key: a later time, or the same time and a hash that is larger at the first character where they
      differ, or longer where they do not. */
  ghost predicate Newer(a: Key, b: Key) {
    a.0 > b.0 || (a.0 == b.0 && exists d: nat :: FirstDifference(a.1, b.1, d))
  }

  ghost predicate FirstDifference(a: string, b: string, d: nat) {
    d < |a| && d <= |b| && a[..d] == b[..d] && (d == |b| || a[d] > b[d])
  }

  lemma DifferenceAt(a: string, b: string, d: nat)
    requires FirstDifference(a, b, d) && b != ""
    ensures if d == 0 then a[0] > b[0] else a[0] == b[0]
  {
    if d > 0 {
      assert a[..d][0] == b[..d][0];
    }
  }

  lemma {:induction false} LessMeans(a: string, b: string)
    ensures Less(a, b) <==> exists d: nat :: FirstDifference(b, a, d)
  {
    if b == "" {
    } else if a == "" {
      assert FirstDifference(b, a, 0);
    } else if a[0] != b[0] {
      if a[0] < b[0] {
        assert FirstDifference(b, a, 0);
      }
      forall d: nat | FirstDifference(b, a, d)
        ensures a[0] < b[0]
      {
        DifferenceAt(b, a, d);
      }
    } else {
      LessMeans(a[1..], b[1..]);
      if d: nat :| FirstDifference(b[1..], a[1..], d) {
        assert b[..d + 1] == [b[0]] + b[1..][..d] && a[..d + 1] == [a[0]] + a[1..][..d];
        assert FirstDifference(b, a, d + 1);
      }
      if d: nat :| FirstDifference(b, a, d) {
        DifferenceAt(b, a, d);
        assert b[1..][..d - 1] == b[..d][1..] && a[1..][..d - 1] == a[..d][1..];
        assert FirstDifference(b[1..], a[1..], d - 1);
      }
    }
  }

  lemma OlderMeans(a: Key, b: Key)
    ensures Older(a, b) <==> Newer(b, a)
  {
    LessMeans(a.1, b.1);
  }

  // ----- Cursor text -----

  function EncodeCursor(k: Key): string {
    Decimal.ToString(k.0) + ":" + k.1
  }

  /** The first colon, or the length of the text. */
  function FirstColon(raw: string): (i: nat)
    ensures i <= |raw| && (i < |raw| ==> raw[i] == ':') && forall j :: 0 <= j < i ==> raw[j] != ':'
  {
    if raw == "" || raw[0] == ':' then 0
    else
      var i := 1 + FirstColon(raw[1..]);
      assert forall j :: 0 < j < i ==> raw[j] == raw[1..][j - 1];
      i
  }

  function ParseCursor(raw: string): Option<Key> {
    var i := FirstColon(raw);
    if i == |raw| then None
    else
      var createdAt, hash := Decimal.ParseI64(raw[..i]), raw[i + 1..];
      if createdAt.None? || hash == "" || |hash| > 128 then None else Some((createdAt.value, hash))
  }

  predicate Presentable(k: Key) {
    1 <= |k.1| <= 128
  }

  /** Parsing undoes encoding for every time and every hash of a presentable length, colons included, and for no other. */
  lemma ParseOfEncode(k: Key)
    ensures ParseCursor(EncodeCursor(k)) == if 1 <= |k.1| <= 128 then Some(k) else None
  {
    hide Decimal.ToString, Decimal.ParseI64;
    var text := Decimal.ToString(k.0);
    var raw := EncodeCursor(k);
    Decimal.ParseOfToString(k.0);
    NumbersHaveNoColon(k.0);
    assert raw[|text|] == ':';
    assert forall j :: 0 <= j < |text| ==> raw[j] == text[j];
    assert FirstColon(raw) == |text|;
    assert raw[..|text|] == text && raw[|text| + 1..] == k.1;
  }

  lemma NumbersHaveNoColon(i: int)
    ensures var text := Decimal.ToString(i); forall j :: 0 <= j < |text| ==> text[j] != ':'
  {
  }

  /** Encoding what was parsed gives a text that parses alike. It need not be the same text: signs and leading zeros go. */
  lemma EncodeOfParse(raw: string)
    ensures ParseCursor(raw).Some? ==> ParseCursor(EncodeCursor(ParseCursor(raw).value)) == ParseCursor(raw)
    ensures ParseCursor("+7:a") == Some((7, "a")) && EncodeCursor((7, "a")) == "7:a"
  {
    if ParseCursor(raw).Some? {
      ParseOfEncode(ParseCursor(raw).value);
    }
    var signed := "+7:a";
    assert FirstColon(signed) == 2;
    assert signed[..2] == "+7" && "+7"[1..] == "7" && signed[3..] == "a";
  }

  // ----- Queries -----

  /** The rows of one user, by key. */
  ghost function Mine(table: Table, user: string): set<Key> {
    set h | h in table && table[h].user == user :: (table[h].createdAt, h)
  }

  ghost function Below(keys: set<Key>, before: Option<Key>): set<Key> {
    set k | k in keys && (before.None? || Older(k, before.value))
  }

  ghost predicate IsNewest(keys: set<Key>, k: Key) {
    k in keys && forall x :: x in keys && x != k ==> Older(x, k)
  }

  lemma {:induction false} HasNewest(keys: set<Key>) returns (top: Key)
    requires keys != {}
    ensures IsNewest(keys, top)
    decreases |keys|
  {
    hide Older;
    var k :| k in keys;
    var rest := keys - {k};
    assert keys == rest + {k};
    if rest == {} {
      top := k;
    } else {
      var m := HasNewest(rest);
      OlderIsOrder(k, m, m);
      top := if Older(k, m) then m else k;
      forall x | x in keys && x != top
        ensures Older(x, top)
      {
        OlderIsOrder(x, m, k);
      }
    }
  }

  lemma NewestExists(keys: set<Key>)
    requires keys != {}
    ensures exists k :: IsNewest(keys, k)
  {
    var k := HasNewest(keys);
  }

  ghost function Newest(keys: set<Key>): (k: Key)
    requires keys != {}
    ensures k in keys && forall x :: x in keys && x != k ==> Older(x, k)
  {
    NewestExists(keys);
    var k :| IsNewest(keys, k);
    k
  }

  /** ORDER BY created_at DESC, tx_hash DESC LIMIT n. */
  ghost function Take(keys: set<Key>, n: nat): seq<Key>
    decreases n
  {
    if n == 0 || keys == {} then [] else [Newest(keys)] + Take(keys - {Newest(keys)}, n - 1)
  }

  /** The whole history, newest first. */
  ghost function History(keys: set<Key>): seq<Key> {
    Take(keys, |keys|)
  }

  function Clamp(limit: nat): nat {
    if limit < 1 then 1 else if limit > 50 then 50 else limit
  }

  // ----- What a query returns -----

  ghost predicate Descending(rows: seq<Key>) {
    forall i, j :: 0 <= i < j < |rows| ==> Older(rows[j], rows[i])
  }

  ghost function Elements(rows: seq<Key>): set<Key> {
    set k | k in rows
  }

  lemma {:induction false} TakeShape(keys: set<Key>, n: nat)
    ensures var rows := Take(keys, n);
            && Descending(rows) && |rows| == (if n < |keys| then n else |keys|)
            && (forall i :: 0 <= i < |rows| ==> rows[i] in keys)
            && (forall x, i :: x in keys && x !in rows && 0 <= i < |rows| ==> Older(x, rows[i]))
    decreases n
  {
    hide Older;
    if n == 0 || keys == {} {
    } else {
      TakeShape(keys - {Newest(keys)}, n - 1);
    }
  }

  lemma {:induction false} TakeSplit(keys: set<Key>, n: nat, m: nat)
    ensures Take(keys, n + m) == Take(keys, n) + Take(keys - Elements(Take(keys, n)), m)
    decreases n
  {
    hide Older;
    if n == 0 || keys == {} {
      assert keys - Elements([]) == keys;
    } else {
      var top := Newest(keys);
      var rest := keys - {top};
      TakeSplit(rest, n - 1, m);
      assert Take(keys, n) == [top] + Take(rest, n - 1);
      assert keys - Elements(Take(keys, n)) == rest - Elements(Take(rest, n - 1));
      assert Take(keys, n + m) == [top] + Take(rest, n - 1 + m);
    }
  }

  /** The history lists every key once, strictly from newer to older. */
  lemma HistoryLists(keys: set<Key>)
    ensures Descending(History(keys)) && Elements(History(keys)) == keys && |History(keys)| == |keys|
  {
    hide Take;
    TakeShape(keys, |keys|);
    ElementsOfDescending(History(keys));
    SubsetOfSameSize(Elements(History(keys)), keys);
  }

  lemma {:induction false} ElementsOfDescending(rows: seq<Key>)
    requires Descending(rows)
    ensures |Elements(rows)| == |rows|
  {
    if rows == [] {
      assert Elements(rows) == {};
    } else {
      var last := rows[|rows| - 1];
      var front := rows[..|rows| - 1];
      ElementsOfDescending(front);
      OlderIsOrder(last, last, last);
      assert last !in front;
      assert Elements(rows) == Elements(front) + {last};
    }
  }

  lemma SubsetOfSameSize(a: set<Key>, b: set<Key>)
    requires a <= b && |a| == |b|
    ensures a == b
  {
    assert b == a + (b - a);
  }

  // ----- Requests -----

  datatype Page = Page(rows: seq<Key>, next: Option<string>)

  /** One request: the page below the cursor, and the next cursor when the page is full. A malformed cursor is refused. */
  ghost function GetSwaps(keys: set<Key>, cursor: Option<string>, limit: nat): Result<Page> {
    var before := if cursor.None? then None else ParseCursor(cursor.value);
    if cursor.Some? && before.None? then Err(Trap)
    else
      var rows := Take(Below(keys, before), Clamp(limit));
      Ok(Page(rows, if |rows| >= Clamp(limit) then Some(EncodeCursor(rows[|rows| - 1])) else None))
  }

  ghost predicate AllPresentable(keys: set<Key>) {
    forall k :: k in keys ==> Presentable(k)
  }

  /** The cursor of a page stands for its last row. */
  ghost function At(k: Option<Key>): Option<string> {
    if k.None? then None else Some(EncodeCursor(k.value))
  }

  lemma PageAt(keys: set<Key>, before: Option<Key>, limit: nat)
    requires before.Some? ==> Presentable(before.value)
    ensures GetSwaps(keys, At(before), limit)
            == var rows := Take(Below(keys, before), Clamp(limit));
               Ok(Page(rows, At(if |rows| >= Clamp(limit) then Some(rows[|rows| - 1]) else None)))
  {
    hide Take, EncodeCursor, ParseCursor;
    if before.Some? {
      ParseOfEncode(before.value);
    }
  }

  /** What a full page leaves to come is exactly what lies below its last row. */
  lemma FullPageLeaves(keys: set<Key>, before: Option<Key>, n: nat)
    requires n > 0 && |Take(Below(keys, before), n)| == n
    ensures var rows := Take(Below(keys, before), n);
            && rows[n - 1] in Below(keys, before)
            && Below(keys, before) - Elements(rows) == Below(keys, Some(rows[n - 1]))
            && |Below(keys, Some(rows[n - 1]))| < |Below(keys, before)|
  {
    hide Take, Older;
    var all := Below(keys, before);
    var rows := Take(all, n);
    TakeShape(all, n);
    var last := rows[n - 1];
    forall k
      ensures k in all - Elements(rows) <==> k in Below(keys, Some(last))
    {
      OlderIsOrder(last, last, last);
      if k in rows {
        var i :| 0 <= i < n && rows[i] == k;
        OlderIsOrder(last, k, last);
      }
      if before.Some? {
        OlderIsOrder(k, last, before.value);
      }
    }
    assert all - Elements(rows) == Below(keys, Some(last));
    SmallerSet(Below(keys, Some(last)), all, last);
  }

  lemma SmallerSet(a: set<Key>, b: set<Key>, k: Key)
    requires a <= b && k in b && k !in a
    ensures |a| < |b|
  {
    assert b == a + (b - a);
    assert k in b - a;
  }

  lemma PageLeadsOn(keys: set<Key>, before: Option<Key>, limit: nat)
    requires AllPresentable(keys) && (before.Some? ==> Presentable(before.value))
    ensures var r := GetSwaps(keys, At(before), limit);
            && r.Ok?
            && (r.value.next.Some? ==>
                  && r.value.rows != []
                  && var last := r.value.rows[|r.value.rows| - 1];
                     && last in keys && r.value.next == At(Some(last))
                     && |Below(keys, Some(last))| < |Below(keys, before)|)
  {
    hide Take, GetSwaps, Older, Presentable, Elements, Descending, EncodeCursor;
    PageAt(keys, before, limit);
    TakeShape(Below(keys, before), Clamp(limit));
    if GetSwaps(keys, At(before), limit).value.next.Some? {
      FullPageLeaves(keys, before, Clamp(limit));
    }
  }

  /** Following the cursor on a fixed table until a page has none. */
  ghost function Crawl(keys: set<Key>, before: Option<Key>, limit: nat): seq<Key>
    requires AllPresentable(keys) && (before.Some? ==> Presentable(before.value))
    decreases |Below(keys, before)|
  {
    PageLeadsOn(keys, before, limit);
    var page := GetSwaps(keys, At(before), limit).value;
    if page.next.None? then page.rows
    else page.rows + Crawl(keys, Some(page.rows[|page.rows| - 1]), limit)
  }

  lemma CrawlNext(keys: set<Key>, before: Option<Key>, limit: nat)
    requires AllPresentable(keys) && (before.Some? ==> Presentable(before.value))
    ensures var rows, n := Take(Below(keys, before), Clamp(limit)), Clamp(limit);
            && (|rows| >= n ==> rows[n - 1] in keys && |rows| == n
                                && Crawl(keys, before, limit) == rows + Crawl(keys, Some(rows[n - 1]), limit))
            && (|rows| < n ==> Crawl(keys, before, limit) == rows)
  {
    hide Take, GetSwaps, Older, Presentable;
    PageAt(keys, before, limit);
    TakeShape(Below(keys, before), Clamp(limit));
  }

  /** On a fixed table the crawl ends, and its pages concatenate to the history below the starting point. */
  lemma {:induction false} CrawlIsHistory(keys: set<Key>, before: Option<Key>, limit: nat)
    requires AllPresentable(keys) && (before.Some? ==> Presentable(before.value))
    ensures Crawl(keys, before, limit) == History(Below(keys, before))
    decreases |Below(keys, before)|
  {
    hide Take, Below, Older, Presentable, Crawl, Descending, Elements;
    CrawlNext(keys, before, limit);
    var all, n := Below(keys, before), Clamp(limit);
    var rows := Take(all, n);
    TakeFits(all, n);
    if |rows| >= n {
      FullPageLeaves(keys, before, n);
      CrawlIsHistory(keys, Some(rows[n - 1]), limit);
      TakeSplit(all, n, |all| - n);
      LeftOver(all, rows, Below(keys, Some(rows[n - 1])));
    } else {
      ShortTake(all, n);
    }
  }

  lemma TakeFits(keys: set<Key>, n: nat)
    ensures var rows := Take(keys, n);
            Descending(rows) && Elements(rows) <= keys && |rows| == if n < |keys| then n else |keys|
  {
    hide Take, Older;
    TakeShape(keys, n);
  }

  lemma LeftOver(all: set<Key>, rows: seq<Key>, rest: set<Key>)
    requires Descending(rows) && rest == all - Elements(rows) && Elements(rows) <= all
    ensures |rest| == |all| - |rows|
  {
    hide Older;
    ElementsOfDescending(rows);
    assert all == rest + Elements(rows);
  }

  lemma {:induction false} ShortTake(keys: set<Key>, n: nat)
    requires |keys| <= n
    ensures Take(keys, n) == Take(keys, |keys|)
    decreases n
  {
    if n == 0 || keys == {} {
    } else {
      ShortTake(keys - {Newest(keys)}, n - 1);
    }
  }

  /** Newest first, by time and then by hash. */
  ghost predicate NewestFirst(rows: seq<Key>) {
    forall i, j :: 0 <= i < j < |rows| ==> Newer(rows[i], rows[j])
  }

  lemma DescendingMeans(rows: seq<Key>)
    ensures Descending(rows) <==> NewestFirst(rows)
  {
    hide Older, Newer;
    forall i, j | 0 <= i < j < |rows|
      ensures Older(rows[j], rows[i]) <==> Newer(rows[i], rows[j])
    {
      OlderMeans(rows[j], rows[i]);
    }
  }

  /** A page holds as many rows as were asked for, at least one and at most 50, while that many remain below the cursor; and it has
      a next cursor exactly when it is full. */
  lemma PageHolds(keys: set<Key>, before: Option<Key>, limit: nat)
    requires before.Some? ==> Presentable(before.value)
    ensures var size := if limit == 0 then 1 else if limit <= 50 then limit else 50;
            var r := GetSwaps(keys, At(before), limit);
            && r.Ok?
            && |r.value.rows| == (if |Below(keys, before)| < size then |Below(keys, before)| else size)
            && (r.value.next.Some? <==> |r.value.rows| == size)
            && NewestFirst(r.value.rows)
            && (forall k :: k in Below(keys, before) && k !in r.value.rows ==>
                  forall i :: 0 <= i < |r.value.rows| ==> Newer(r.value.rows[i], k))
            && (forall i :: 0 <= i < |r.value.rows| ==>
                  r.value.rows[i] in keys && (before.Some? ==> Newer(before.value, r.value.rows[i])))
  {
    hide Take, GetSwaps, Older, Newer, Presentable, Descending;
    PageAt(keys, before, limit);
    TakeShape(Below(keys, before), Clamp(limit));
    var rows := GetSwaps(keys, At(before), limit).value.rows;
    DescendingMeans(rows);
    forall k, i | k in Below(keys, before) && k !in rows && 0 <= i < |rows|
      ensures Newer(rows[i], k)
    {
      OlderMeans(k, rows[i]);
    }
    forall i | 0 <= i < |rows| && before.Some?
      ensures Newer(before.value, rows[i])
    {
      OlderMeans(rows[i], before.value);
    }
  }

  /** The pages of a user's history, from the first request on: the whole history, each row once, newest first. */
  lemma PagesAreHistory(table: Table, user: string, limit: nat)
    requires AllPresentable(Mine(table, user))
    ensures var rows := Crawl(Mine(table, user), None, limit);
            && rows == History(Mine(table, user)) && NewestFirst(rows) && |rows| == |Mine(table, user)|
            && forall createdAt: int64, h: string ::
                 (createdAt, h) in rows <==> h in table && table[h].user == user && table[h].createdAt == createdAt
  {
    CrawlIsHistory(Mine(table, user), None, limit);
    assert Below(Mine(table, user), None) == Mine(table, user);
    HistoryLists(Mine(table, user));
    assert forall k :: k in History(Mine(table, user)) <==> k in Elements(History(Mine(table, user)));
    DescendingMeans(History(Mine(table, user)));
  }

  // ----- Rows arriving between requests -----

  /** The table as each request finds it: rows are only ever added. */
  ghost predicate Growing(snaps: seq<set<Key>>) {
    forall i, j :: 0 <= i < j < |snaps| ==> snaps[i] <= snaps[j]
  }

  ghost predicate AllServable(snaps: seq<set<Key>>) {
    forall i :: 0 <= i < |snaps| ==> AllPresentable(snaps[i])
  }

  /** The pages of a crawl whose request i sees snapshot i and sends the cursor text of the page before, and whether its last
      page was reached. A refused request ends it short. */
  ghost function CrawlOver(snaps: seq<set<Key>>, cursor: Option<string>, limit: nat): (seq<Key>, bool) {
    if snaps == [] then ([], false)
    else
      var r := GetSwaps(snaps[0], cursor, limit);
      if r.Err? then ([], false)
      else if r.value.next.None? then (r.value.rows, true)
      else
        var (rest, done) := CrawlOver(snaps[1..], r.value.next, limit);
        (r.value.rows + rest, done)
  }

  /** The same crawl, by keys. */
  lemma CrawlOverNext(snaps: seq<set<Key>>, before: Option<Key>, limit: nat)
    requires snaps != [] && (before.Some? ==> Presentable(before.value))
    ensures var rows := Take(Below(snaps[0], before), Clamp(limit));
            CrawlOver(snaps, At(before), limit)
            == if |rows| < Clamp(limit) then (rows, true)
               else
                 var (rest, done) := CrawlOver(snaps[1..], At(Some(rows[|rows| - 1])), limit);
                 (rows + rest, done)
  {
    hide GetSwaps, Take, Below, EncodeCursor;
    PageAt(snaps[0], before, limit);
  }

  /** No row is served twice, whatever is inserted meanwhile; and a finished crawl has served every row that was there below
      the starting point at the first request. */
  lemma {:induction false} GrowingCrawl(snaps: seq<set<Key>>, before: Option<Key>, limit: nat)
    requires Growing(snaps) && AllServable(snaps) && snaps != [] && (before.Some? ==> Presentable(before.value))
    ensures var (rows, done) := CrawlOver(snaps, At(before), limit);
            && Descending(rows)
            && (forall i :: 0 <= i < |rows| ==> before.Some? ==> Older(rows[i], before.value))
            && (done ==> Below(snaps[0], before) <= Elements(rows))
  {
    hide Take, Older, CrawlOver, Presentable, At;
    CrawlOverNext(snaps, before, limit);
    var first := Below(snaps[0], before);
    var rows := Take(first, Clamp(limit));
    TakeShape(first, Clamp(limit));
    if |rows| < Clamp(limit) {
      ShortPageIsAll(first, Clamp(limit));
    } else if |snaps| > 1 {
      var last := rows[|rows| - 1];
      assert last in snaps[0] && AllPresentable(snaps[0]);
      GrowingCrawl(snaps[1..], Some(last), limit);
      var (rest, done) := CrawlOver(snaps[1..], At(Some(last)), limit);
      JoinDescending(rows, rest);
      forall i | 0 <= i < |rows + rest|
        ensures before.Some? ==> Older((rows + rest)[i], before.value)
      {
        if before.Some? && i >= |rows| {
          OlderIsOrder(rest[i - |rows|], last, before.value);
        }
      }
      if done {
        FullPageLeaves(snaps[0], before, Clamp(limit));
        CoversAll(snaps, before, last, rows, rest);
      }
    } else {
      NoMoreRequests(At(Some(rows[|rows| - 1])), limit);
      assert snaps[1..] == [] && rows + [] == rows;
    }
  }

  lemma NoMoreRequests(cursor: Option<string>, limit: nat)
    ensures CrawlOver([], cursor, limit) == ([], false)
  {
  }

  lemma ShortPageIsAll(keys: set<Key>, n: nat)
    requires |Take(keys, n)| < n
    ensures keys <= Elements(Take(keys, n))
  {
    hide Take, Older;
    TakeFits(keys, n);
    ElementsOfDescending(Take(keys, n));
    SubsetOfSameSize(Elements(Take(keys, n)), keys);
  }

  lemma CoversAll(snaps: seq<set<Key>>, before: Option<Key>, last: Key, rows: seq<Key>, rest: seq<Key>)
    requires Growing(snaps) && |snaps| > 1
    requires Below(snaps[0], before) - Elements(rows) == Below(snaps[0], Some(last))
    requires Below(snaps[1], Some(last)) <= Elements(rest)
    ensures Below(snaps[0], before) <= Elements(rows + rest)
  {
    hide Older;
    forall k | k in Below(snaps[0], before)
      ensures k in rows + rest
    {
      if k !in rows {
        assert k in Below(snaps[0], Some(last));
        assert k in snaps[1];
        assert k in Below(snaps[1], Some(last));
      }
    }
  }

  lemma JoinDescending(a: seq<Key>, b: seq<Key>)
    requires Descending(a) && Descending(b) && a != []
    requires forall i :: 0 <= i < |b| ==> Older(b[i], a[|a| - 1])
    ensures Descending(a + b)
  {
    hide Older;
    forall i, j | 0 <= i < j < |a + b|
      ensures Older((a + b)[j], (a + b)[i])
    {
      if i < |a| <= j {
        OlderIsOrder(b[j - |a|], a[|a| - 1], a[i]);
      }
    }
  }

  /** Every row present at the first request appears in exactly one place of a finished crawl, and the crawl is newest first. */
  lemma RowsAppearOnce(snaps: seq<set<Key>>, limit: nat, k: Key)
    requires Growing(snaps) && AllServable(snaps) && snaps != [] && CrawlOver(snaps, None, limit).1 && k in snaps[0]
    ensures var rows := CrawlOver(snaps, None, limit).0;
            && NewestFirst(rows)
            && exists i :: 0 <= i < |rows| && rows[i] == k && forall j :: 0 <= j < |rows| && j != i ==> rows[j] != k
  {
    hide CrawlOver, Older;
    GrowingCrawl(snaps, None, limit);
    assert At(None) == None;
    var rows := CrawlOver(snaps, None, limit).0;
    assert k in Below(snaps[0], None);
    var i :| 0 <= i < |rows| && rows[i] == k;
    OlderIsOrder(k, k, k);
    assert forall j :: 0 <= j < |rows| && j != i ==> rows[j] != k;
    DescendingMeans(rows);
  }
}
