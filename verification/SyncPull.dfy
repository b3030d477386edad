/**
 * One change stream and its keyset pages (backend/app/routers/sync.py:60-122), and the client loop
 * that walks the pages to the end (apps/mobile/src/data/pull.ts:27-56).
 */
module SyncPull {
  import opened Records

  /** What a pull reads of a row: tombstones flow through the stream like any other change. */
  datatype SyncRow = SyncRow(id: Id, stamp: nat, isDeleted: bool)

  /** (since_seq, since_id); without an id every row of that sequence value counts as seen. */
  datatype Cursor = Cursor(stamp: nat, id: Option<Id>)

  predicate Before(a: SyncRow, b: SyncRow) {
    a.stamp < b.stamp || (a.stamp == b.stamp && a.id < b.id)
  }

  /** Rows in (sync_seq, id) order; several rows may share a sequence value. */
  ghost predicate Ordered(stream: seq<SyncRow>) {
    && (forall i, j :: 0 <= i < j < |stream| ==> Before(stream[i], stream[j]))
    && forall i :: 0 <= i < |stream| ==> stream[i].stamp > 0
  }

  predicate After(c: Cursor, r: SyncRow) {
    r.stamp > c.stamp || (c.id.Some? && r.stamp == c.stamp && r.id > c.id.value)
  }

  /** The rows after the cursor, in order. */
  function Tail(stream: seq<SyncRow>, c: Cursor): (rest: seq<SyncRow>)
    ensures forall r :: r in rest <==> r in stream && After(c, r)
  {
    if stream == [] then []
    else
      assert stream == [stream[0]] + stream[1..];
      (if After(c, stream[0]) then [stream[0]] else []) + Tail(stream[1..], c)
  }

  datatype PageResult = Gone | Page(items: seq<SyncRow>, next: Cursor, hasMore: bool)

  /** One pull: refused behind the watermark, otherwise a page; a finished walk is lifted to the watermark. */
  function PullPage(stream: seq<SyncRow>, watermark: nat, since: Cursor, limit: nat): PageResult
    requires limit > 0
  {
    if 0 < since.stamp < watermark then Gone else CutPage(Tail(stream, since), watermark, since, limit)
  }

  /** One row more than the page is read, to learn whether there are more. */
  function CutPage(rows: seq<SyncRow>, watermark: nat, since: Cursor, limit: nat): PageResult
    requires limit > 0
  {
    var hasMore := |rows| > limit;
    var page := if hasMore then rows[..limit] else rows;
    var next := if page != [] then Cursor(page[|page| - 1].stamp, Some(page[|page| - 1].id)) else since;
    Page(page, if !hasMore && next.stamp < watermark then Cursor(watermark, None) else next, hasMore)
  }

  /** Refused carries what the client had already applied when the refusal came. */
  datatype Walk = Refused(applied: seq<SyncRow>, at: Cursor) | Completed(items: seq<SyncRow>, end: Cursor)

  /** The client loop: pages from `since` until there are no more or the server refuses one. */
  method PullToCompletion(stream: seq<SyncRow>, watermark: nat, since: Cursor, limit: nat) returns (walk: Walk)
    requires limit > 0 && Ordered(stream)
    ensures WalkOutcome(stream, watermark, since, limit, walk)
  {
    walk := WalkPages(stream, watermark, since, limit, Tail(stream, since));
    OutcomeOfWalk(stream, watermark, since, limit);
  }

  method WalkPages(stream: seq<SyncRow>, watermark: nat, since: Cursor, limit: nat, ghost rest: seq<SyncRow>)
    returns (walk: Walk)
    requires limit > 0 && Ordered(stream) && rest == Tail(stream, since)
    ensures walk == WalkTo(rest, watermark, since, RefusedAt(rest, watermark, since, limit, 0))
  {
    var cursor := since;
    var items: seq<SyncRow> := [];
    ghost var n, refusal := 0, RefusedAt(rest, watermark, since, limit, 0);
    while true
      invariant n <= |rest| && cursor == CursorAt(since, rest, n) && items == rest[..n]
      invariant RefusedAt(rest, watermark, since, limit, n) == refusal
      decreases |rest| - n
    {
      var page, total := RequestPage(stream, watermark, since, limit, cursor, items, rest, n);
      if page.Gone? {
        return Refused(items, cursor);
      }
      if !page.hasMore {
        return Completed(total, page.next);
      }
      items := total;
      cursor := page.next;
      n := n + limit;
    }
  }

  method RequestPage(stream: seq<SyncRow>, watermark: nat, ghost since: Cursor, limit: nat,
                     cursor: Cursor, items: seq<SyncRow>, ghost rest: seq<SyncRow>, ghost n: nat)
    returns (page: PageResult, total: seq<SyncRow>)
    requires limit > 0 && Ordered(stream) && rest == Tail(stream, since)
    requires n <= |rest| && cursor == CursorAt(since, rest, n) && items == rest[..n]
    ensures page.Gone? ==> RefusedAt(rest, watermark, since, limit, n) == Some(n)
    ensures page.Page? && page.hasMore ==>
              && n + limit < |rest| && page.next == CursorAt(since, rest, n + limit) && total == rest[..n + limit]
              && RefusedAt(rest, watermark, since, limit, n) == RefusedAt(rest, watermark, since, limit, n + limit)
    ensures page.Page? && !page.hasMore ==>
              && page.next == Lifted(CursorAt(since, rest, |rest|), watermark) && total == rest
              && RefusedAt(rest, watermark, since, limit, n) == None
  {
    page := FetchPage(stream, watermark, since, limit, cursor, rest, n);
    PageFacts(rest, watermark, since, limit, n);
    total := items + if page.Gone? then [] else page.items;
  }

  method FetchPage(stream: seq<SyncRow>, watermark: nat, ghost since: Cursor, limit: nat, cursor: Cursor,
                   ghost rest: seq<SyncRow>, ghost n: nat) returns (page: PageResult)
    requires limit > 0 && Ordered(stream) && rest == Tail(stream, since)
    requires n <= |rest| && cursor == CursorAt(since, rest, n)
    ensures page == PageAt(rest, watermark, since, limit, n)
  {
    MidWalk(stream, watermark, since, limit, n);
    page := PullPage(stream, watermark, cursor, limit);
  }

  /** What one page adds to the rows delivered so far, and where it leaves the walk. */
  lemma PageFacts(rest: seq<SyncRow>, watermark: nat, since: Cursor, limit: nat, n: nat)
    requires limit > 0 && n <= |rest|
    ensures var page := PageAt(rest, watermark, since, limit, n);
            && (page.Gone? ==> RefusedAt(rest, watermark, since, limit, n) == Some(n))
            && (page.Page? && page.hasMore ==>
                 && n + limit < |rest| && page.next == CursorAt(since, rest, n + limit)
                 && rest[..n] + page.items == rest[..n + limit]
                 && RefusedAt(rest, watermark, since, limit, n) == RefusedAt(rest, watermark, since, limit, n + limit))
            && (page.Page? && !page.hasMore ==>
                 && page.next == Lifted(CursorAt(since, rest, |rest|), watermark) && rest[..n] + page.items == rest
                 && RefusedAt(rest, watermark, since, limit, n) == None)
  {
    if |rest| - n > limit {
      JoinPage(rest, n, limit);
    } else {
      JoinRest(rest, n);
    }
  }

  lemma JoinPage(rest: seq<SyncRow>, n: nat, limit: nat)
    requires n + limit <= |rest|
    ensures rest[..n] + rest[n..n + limit] == rest[..n + limit]
  {
  }

  lemma JoinRest(rest: seq<SyncRow>, n: nat)
    requires n <= |rest|
    ensures rest[..n] + rest[n..] == rest
  {
  }

  /** How many rows a walk delivers before a page is refused, if one is, counting from `n` delivered rows. */
  ghost function RefusedAt(rest: seq<SyncRow>, watermark: nat, since: Cursor, limit: nat, n: nat): (at: Option<nat>)
    requires limit > 0 && n <= |rest|
    ensures at.Some? ==> at.value <= |rest|
    decreases |rest| - n
  {
    if 0 < CursorAt(since, rest, n).stamp < watermark then Some(n)
    else if |rest| - n > limit then RefusedAt(rest, watermark, since, limit, n + limit)
    else None
  }

  ghost function WalkTo(rest: seq<SyncRow>, watermark: nat, since: Cursor, at: Option<nat>): Walk
    requires at.Some? ==> at.value <= |rest|
  {
    match at
    case Some(n) => Refused(rest[..n], CursorAt(since, rest, n))
    case None => Completed(rest, Lifted(CursorAt(since, rest, |rest|), watermark))
  }

  lemma OutcomeOfWalk(stream: seq<SyncRow>, watermark: nat, since: Cursor, limit: nat)
    requires limit > 0 && Ordered(stream)
    ensures var rest := Tail(stream, since);
            WalkOutcome(stream, watermark, since, limit,
                        WalkTo(rest, watermark, since, RefusedAt(rest, watermark, since, limit, 0)))
  {
    TailOrdered(stream, since);
    FirstRefusal(Tail(stream, since), watermark, since, limit);
  }

  /** A walk is refused at once, or for its second page, or not at all. */
  lemma FirstRefusal(rest: seq<SyncRow>, watermark: nat, since: Cursor, limit: nat)
    requires limit > 0 && Ordered(rest)
    ensures RefusedAt(rest, watermark, since, limit, 0) ==
            if 0 < since.stamp < watermark then Some(0)
            else if StuckBehind(rest, watermark, limit) then Some(limit)
            else None
  {
    if |rest| > limit && rest[limit - 1].stamp >= watermark {
      NoneRefusedAhead(rest, watermark, since, limit, limit);
    }
  }

  /** Once a page has ended at or past the watermark, no later page is refused. */
  lemma {:induction false} NoneRefusedAhead(rest: seq<SyncRow>, watermark: nat, since: Cursor, limit: nat, n: nat)
    requires limit > 0 && Ordered(rest) && 0 < n <= |rest| && rest[n - 1].stamp >= watermark
    ensures RefusedAt(rest, watermark, since, limit, n) == None
    decreases |rest| - n
  {
    if |rest| - n > limit {
      Strictly(rest, n - 1, n + limit - 1);
      NoneRefusedAhead(rest, watermark, since, limit, n + limit);
    }
  }

  /** The cursor after the first `n` rows of a walk. */
  function CursorAt(since: Cursor, rest: seq<SyncRow>, n: nat): Cursor
    requires n <= |rest|
  {
    if n == 0 then since else CursorOf(rest[n - 1])
  }

  function CursorOf(r: SyncRow): Cursor { Cursor(r.stamp, Some(r.id)) }

  /** The first page of a walk from `since` ends behind the watermark although there is more to come. */
  ghost predicate StuckBehind(rest: seq<SyncRow>, watermark: nat, limit: nat)
    requires limit > 0
  {
    |rest| > limit && rest[limit - 1].stamp < watermark
  }

  /** A finished walk's cursor is lifted to the watermark. */
  function Lifted(c: Cursor, watermark: nat): Cursor {
    if c.stamp < watermark then Cursor(watermark, None) else c
  }

  /**
   * A walk is refused exactly when its own cursor is behind the watermark, or when its first page is
   * not the last one and ends behind the watermark; otherwise it delivers every remaining row once,
   * in order, and ends at the last row's cursor or at the watermark, whichever is ahead.
   */
  ghost predicate WalkOutcome(stream: seq<SyncRow>, watermark: nat, since: Cursor, limit: nat, walk: Walk)
    requires limit > 0
  {
    var rest := Tail(stream, since);
    match walk
    case Refused(applied, at) =>
      if 0 < since.stamp < watermark then applied == [] && at == since
      else StuckBehind(rest, watermark, limit) && applied == rest[..limit] && at == CursorOf(rest[limit - 1])
    case Completed(items, end) =>
      && !(0 < since.stamp < watermark) && !StuckBehind(rest, watermark, limit)
      && items == rest
      && end == Lifted(CursorAt(since, rest, |rest|), watermark)
  }

  /** After a finished walk nothing is left, the cursor passes the watermark check, and no row seen is above it. */
  lemma FinishedWalkIsCurrent(stream: seq<SyncRow>, watermark: nat, since: Cursor, limit: nat, walk: Walk)
    requires limit > 0 && Ordered(stream) && WalkOutcome(stream, watermark, since, limit, walk) && walk.Completed?
    ensures Tail(stream, walk.end) == []
    ensures walk.end.stamp >= watermark && forall r :: r in stream ==> r.stamp <= walk.end.stamp
  {
    var rest := Tail(stream, since);
    TailFrom(stream, since, rest, |rest|);
    var last := CursorAt(since, rest, |rest|);
    assert forall r :: r in stream ==> !After(last, r);
    assert forall r :: r in stream ==> !After(walk.end, r);
    HasMember(Tail(stream, walk.end));
  }

  lemma HasMember(s: seq<SyncRow>)
    ensures s == [] || exists r :: r in s
  {
    if s != [] {
      assert s[0] in s;
    }
  }

  // ---- order facts ----

  lemma {:induction false} TailOrdered(stream: seq<SyncRow>, c: Cursor)
    requires Ordered(stream)
    ensures Ordered(Tail(stream, c))
  {
    if stream != [] {
      var rest := Tail(stream[1..], c);
      TailOrdered(stream[1..], c);
      forall i | 0 <= i < |rest|
        ensures Before(stream[0], rest[i])
      {
        assert rest[i] in rest;
        assert rest[i] in stream[1..];
      }
    }
  }

  /** Two ordered lists of the same rows are the same list. */
  lemma {:induction false} OrderedUnique(a: seq<SyncRow>, b: seq<SyncRow>)
    requires Ordered(a) && Ordered(b)
    requires forall r :: r in a <==> r in b
    ensures a == b
    decreases |a|
  {
    if a == [] {
      HasMember(b);
    } else {
      SameFirst(a, b);
      RestSame(a, b);
      OrderedUnique(a[1..], b[1..]);
      assert a == [a[0]] + a[1..] && b == [b[0]] + b[1..];
    }
  }

  lemma SameFirst(a: seq<SyncRow>, b: seq<SyncRow>)
    requires Ordered(a) && Ordered(b) && a != [] && forall r :: r in a <==> r in b
    ensures b != [] && a[0] == b[0]
  {
    assert a[0] in b;
    assert b[0] in a;
    var i :| 0 <= i < |b| && b[i] == a[0];
    var j :| 0 <= j < |a| && a[j] == b[0];
  }

  lemma RestSame(a: seq<SyncRow>, b: seq<SyncRow>)
    requires Ordered(a) && Ordered(b) && a != [] && b != [] && a[0] == b[0] && forall r :: r in a <==> r in b
    ensures forall r :: r in a[1..] <==> r in b[1..]
  {
    InRest(a);
    InRest(b);
  }

  lemma InRest(a: seq<SyncRow>)
    requires Ordered(a) && a != []
    ensures forall r :: r in a[1..] <==> r in a && r != a[0]
  {
    assert a == [a[0]] + a[1..];
    forall r | r in a[1..]
      ensures r != a[0]
    {
      var i :| 0 <= i < |a[1..]| && a[1..][i] == r;
      assert Before(a[0], a[i + 1]);
    }
  }

  /** After the first `n` rows of a walk, the rows after its cursor are the rest of the walk. */
  lemma TailFrom(stream: seq<SyncRow>, since: Cursor, rest: seq<SyncRow>, n: nat)
    requires Ordered(stream) && rest == Tail(stream, since) && n <= |rest|
    ensures Tail(stream, CursorAt(since, rest, n)) == rest[n..]
  {
    TailOrdered(stream, since);
    if n > 0 {
      var x := rest[n - 1];
      TailOrdered(stream, CursorOf(x));
      forall r
        ensures r in Tail(stream, CursorOf(x)) <==> r in rest[n..]
      {
        AfterIsLater(stream, since, rest, n, r);
      }
      OrderedUnique(Tail(stream, CursorOf(x)), rest[n..]);
    }
  }

  lemma AfterIsLater(stream: seq<SyncRow>, since: Cursor, rest: seq<SyncRow>, n: nat, r: SyncRow)
    requires Ordered(rest) && rest == Tail(stream, since) && 0 < n <= |rest|
    ensures r in Tail(stream, CursorOf(rest[n - 1])) <==> r in rest[n..]
  {
    LaterIn(rest, n, r);
    assert rest[n - 1] in rest;
  }

  lemma Strictly(rest: seq<SyncRow>, i: nat, j: nat)
    requires Ordered(rest) && i < |rest| && j < |rest|
    ensures i < j <==> Before(rest[i], rest[j])
  {
    if j < i {
      assert Before(rest[j], rest[i]);
    }
  }

  /** In an ordered list, what comes after the cursor of row `n - 1` stands at position `n` or later. */
  lemma LaterIn(rest: seq<SyncRow>, n: nat, r: SyncRow)
    requires Ordered(rest) && 0 < n <= |rest|
    ensures r in rest && After(CursorOf(rest[n - 1]), r) <==> r in rest[n..]
  {
    if r in rest && After(CursorOf(rest[n - 1]), r) {
      var i :| 0 <= i < |rest| && rest[i] == r;
      Strictly(rest, i, n - 1);
      assert rest[n..][i - n] == r;
    }
    if r in rest[n..] {
      var i :| 0 <= i < |rest[n..]| && rest[n..][i] == r;
      assert rest[n + i] == r;
      assert Before(rest[n - 1], rest[n + i]);
    }
  }

  /** The page the server answers in the middle of a walk, in terms of the whole walk. */
  function PageAt(rest: seq<SyncRow>, watermark: nat, since: Cursor, limit: nat, n: nat): PageResult
    requires n <= |rest|
  {
    if 0 < CursorAt(since, rest, n).stamp < watermark then Gone
    else if |rest| - n > limit then Page(rest[n..n + limit], CursorAt(since, rest, n + limit), true)
    else Page(rest[n..], Lifted(CursorAt(since, rest, |rest|), watermark), false)
  }

  lemma PageOf(stream: seq<SyncRow>, watermark: nat, since: Cursor, limit: nat, rest: seq<SyncRow>, n: nat)
    requires limit > 0 && n <= |rest|
    requires Tail(stream, CursorAt(since, rest, n)) == rest[n..]
    ensures PullPage(stream, watermark, CursorAt(since, rest, n), limit) == PageAt(rest, watermark, since, limit, n)
  {
    if |rest| - n > limit {
      CutInside(rest, watermark, since, limit, n);
    } else {
      CutEnd(rest, watermark, since, limit, n);
    }
  }

  lemma MidWalk(stream: seq<SyncRow>, watermark: nat, since: Cursor, limit: nat, n: nat)
    requires limit > 0 && Ordered(stream) && n <= |Tail(stream, since)|
    ensures PullPage(stream, watermark, CursorAt(since, Tail(stream, since), n), limit)
         == PageAt(Tail(stream, since), watermark, since, limit, n)
  {
    TailFrom(stream, since, Tail(stream, since), n);
    PageOf(stream, watermark, since, limit, Tail(stream, since), n);
  }

  lemma CutInside(rest: seq<SyncRow>, watermark: nat, since: Cursor, limit: nat, n: nat)
    requires limit > 0 && n + limit < |rest|
    ensures CutPage(rest[n..], watermark, CursorAt(since, rest, n), limit)
         == Page(rest[n..n + limit], CursorAt(since, rest, n + limit), true)
  {
    assert rest[n..][..limit] == rest[n..n + limit];
  }

  lemma CutEnd(rest: seq<SyncRow>, watermark: nat, since: Cursor, limit: nat, n: nat)
    requires limit > 0 && n <= |rest| <= n + limit
    ensures CutPage(rest[n..], watermark, CursorAt(since, rest, n), limit)
         == Page(rest[n..], Lifted(CursorAt(since, rest, |rest|), watermark), false)
  {
    if n < |rest| {
      assert rest[n..][|rest| - n - 1] == rest[|rest| - 1];
    }
  }
}
