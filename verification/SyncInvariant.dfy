/**
 * The invariant of the sync protocol: what an entity's cursor has passed is mirrored as the server has
 * it, and a mirrored row the server has lost is excused only by a cursor that will be refused or by a
 * refetch that has not finished its sweep. Entities marked stale are exempt: a commit or a change of
 * visibility has put a row below their cursor. Serving and applying a page are what it asks of a page.
 */
module SyncInvariant {
  import opened Records
  import opened Reaper
  import opened SyncPull
  import opened SyncProtocol

  // ---- what one entity keeps ----

  predicate Known(db: Db, s: Scope, id: Id) {
    id in db.rows && InScope(id, db.rows[id], s)
  }

  predicate Agrees(mirror: map<Id, Entry>, id: Id, r: Row) {
    if r.isDeleted then id !in mirror else id in mirror && mirror[id].stamp == r.stamp
  }

  ghost predicate Current(db: Db, s: Scope, c: Cursor, mirror: map<Id, Entry>) {
    forall id :: id in db.rows && Passed(c, id, db.rows[id], s) ==> Agrees(mirror, id, db.rows[id])
  }

  /** Every live row the cursor has passed was delivered in this epoch. */
  ghost predicate Refreshed(db: Db, s: Scope, c: Cursor, mirror: map<Id, Entry>, epoch: nat) {
    forall id :: id in db.rows && Passed(c, id, db.rows[id], s) && !db.rows[id].isDeleted ==> SeenIn(mirror, id, epoch)
  }

  predicate SeenIn(mirror: map<Id, Entry>, id: Id, epoch: nat) { id in mirror && mirror[id].epoch == epoch }

  ghost predicate Unseen(mirror: map<Id, Entry>, epoch: nat) {
    forall id :: id in mirror ==> mirror[id].epoch < epoch
  }

  ghost predicate AllSeen(mirror: map<Id, Entry>, epoch: nat) {
    forall id :: id in mirror ==> mirror[id].epoch == epoch
  }

  /** Whatever is mirrored and still on the server was delivered in this epoch. */
  ghost predicate KnownSeen(db: Db, s: Scope, mirror: map<Id, Entry>, epoch: nat) {
    forall id :: id in mirror && Known(db, s, id) ==> mirror[id].epoch == epoch
  }

  predicate Refusable(db: Db, tenant: Id, c: Cursor) { 0 < c.stamp < Watermark(db, tenant) }

  ghost predicate AllKnown(db: Db, s: Scope, mirror: map<Id, Entry>) {
    forall id :: id in mirror ==> Known(db, s, id)
  }

  /** A row the server has lost is excused by a cursor that will be refused, or by its older epoch. */
  ghost predicate Excused(db: Db, s: Scope, c: Cursor, mirror: map<Id, Entry>, epoch: nat) {
    forall id :: id in mirror ==>
      Known(db, s, id) || Refusable(db, s.tenant, c) || mirror[id].epoch < epoch
  }

  ghost predicate Visible(s: Scope, mirror: map<Id, Entry>, epoch: nat) {
    forall id :: id in mirror ==> id in s.sees || mirror[id].epoch < epoch
  }

  ghost predicate Epochs(mirror: map<Id, Entry>, epoch: nat, swept: nat) {
    forall id :: id in mirror ==> mirror[id].epoch <= epoch && (swept == epoch ==> mirror[id].epoch == epoch)
  }

  /** The value was committed at some time: it was drawn, and is not open. */
  predicate Closed(db: Db, log: Log, v: nat) { v <= db.drawn && v !in log.pending }

  /** What holds of every entity, stale or not. */
  ghost predicate LocalBase(db: Db, log: Log, local: Local, epoch: nat, swept: nat) {
    && Closed(db, log, local.cursor.stamp) && Epochs(local.mirror, epoch, swept)
    && forall id :: id in local.mirror ==> id in log.used && Closed(db, log, local.mirror[id].stamp)
  }

  ghost predicate LocalOk(db: Db, s: Scope, local: Local, epoch: nat) {
    && (local.cursor.stamp == 0 ==> Unseen(local.mirror, epoch))
    && Current(db, s, local.cursor, local.mirror)
    && Excused(db, s, local.cursor, local.mirror, epoch)
    && Visible(s, local.mirror, epoch)
  }

  // ---- replies under way ----

  ghost predicate ReplyBase(db: Db, log: Log, page: PageResult) {
    && page.Page? && Closed(db, log, page.next.stamp) && (page.hasMore ==> page.next.stamp > 0)
    && forall r :: r in page.items ==> r.id in log.used && Closed(db, log, r.stamp)
  }

  /** The row's current version is the delivered one, or newer than the reply's cursor. */
  predicate ItemCurrent(db: Db, s: Scope, next: Cursor, r: SyncRow) {
    Known(db, s, r.id) ==>
      AsSyncRow(r.id, db.rows[r.id]) == r || After(next, AsSyncRow(r.id, db.rows[r.id]))
  }

  ghost predicate ItemsOk(db: Db, s: Scope, next: Cursor, items: seq<SyncRow>) {
    forall r :: r in items ==>
      && ItemCurrent(db, s, next, r) && r.id in s.sees
      && (Known(db, s, r.id) || Refusable(db, s.tenant, next))
  }

  /** What the reply's cursor has passed, the request's cursor had, or the reply delivers it. */
  ghost predicate Covers(db: Db, s: Scope, since: Cursor, items: seq<SyncRow>, next: Cursor) {
    forall id :: id in db.rows && Passed(next, id, db.rows[id], s) ==>
      Passed(since, id, db.rows[id], s) || AsSyncRow(id, db.rows[id]) in items
  }

  ghost predicate OneRowPerId(items: seq<SyncRow>) {
    forall a, b :: a in items && b in items && a.id == b.id ==> a == b
  }

  ghost predicate ReplyOk(db: Db, s: Scope, since: Cursor, page: PageResult, mirror: map<Id, Entry>, epoch: nat) {
    && page.Page?
    && OneRowPerId(page.items)
    && ItemsOk(db, s, page.next, page.items)
    && Covers(db, s, since, page.items, page.next)
    && Excused(db, s, page.next, mirror, epoch) && Visible(s, mirror, epoch)
    && (page.next.stamp == 0 ==> page.items == [] && Unseen(mirror, epoch))
  }

  predicate Brings(items: seq<SyncRow>, id: Id) { exists r :: r in items && r.id == id }

  /** The last page of a refetched entity brings every mirrored row that is still on the server. */
  ghost predicate Closing(db: Db, s: Scope, page: PageResult, mirror: map<Id, Entry>, epoch: nat) {
    page.Page? && !page.hasMore ==>
      forall id :: id in mirror && Known(db, s, id) ==> mirror[id].epoch == epoch || Brings(page.items, id)
  }

  // ---- the invariant ----

  ghost predicate LocalsOk(db: Db, log: Log, d: Device)
    requires Sized(d)
  {
    forall e :: 0 <= e < |ENTITIES| ==>
      && LocalBase(db, log, d.locals[e], d.epoch, d.swept)
      && (e !in d.stale ==> LocalOk(db, ScopeOf(d, e), d.locals[e], d.epoch))
  }

  /** How far a refetch is: entities it has finished, entities it has begun, and the others. */
  ghost predicate RefetchOk(db: Db, d: Device, done: nat, begun: nat)
    requires Sized(d)
  {
    && d.swept < d.epoch
    && forall e :: 0 <= e < |ENTITIES| ==>
         && (e < begun && e !in d.stale ==>
              Refreshed(db, ScopeOf(d, e), d.locals[e].cursor, d.locals[e].mirror, d.epoch))
         && (e < done && e !in d.stale ==> KnownSeen(db, ScopeOf(d, e), d.locals[e].mirror, d.epoch))
         && (e >= begun ==> Unseen(d.locals[e].mirror, d.epoch))
  }

  /** The walk is at the stored cursor, or a refetch is about to ask for an entity's first page. */
  predicate AtCursor(d: Device, e: nat, c: Cursor, full: bool)
    requires e < |d.locals|
  {
    (c == d.locals[e].cursor && (full ==> c.stamp > 0)) || (full && c == ZERO)
  }

  /** The page under way will leave its entity up to date. */
  predicate Trusted(d: Device, e: nat, c: Cursor, full: bool) {
    d.intact && (e !in d.stale || (full && c == ZERO))
  }

  ghost predicate PageOk(db: Db, log: Log, d: Device, e: nat, c: Cursor, full: bool, page: PageResult)
    requires Sized(d) && e < |ENTITIES|
  {
    && ReplyBase(db, log, page)
    && (Trusted(d, e, c, full) ==>
         && ReplyOk(db, ScopeOf(d, e), c, page, d.locals[e].mirror, d.epoch)
         && (full ==> Closing(db, ScopeOf(d, e), page, d.locals[e].mirror, d.epoch)))
  }

  ghost predicate TaskOk(db: Db, log: Log, d: Device)
    requires Sized(d)
  {
    match d.task
    case Idle => true
    case Finished(_) => true
    case Sweeping(e) =>
      && e < |ENTITIES| && RefetchOk(db, d, |ENTITIES|, |ENTITIES|)
      && forall k :: 0 <= k < e ==> AllSeen(d.locals[k].mirror, d.epoch)
    case Walking(e, c, full, reply) =>
      && e < |ENTITIES| && AtCursor(d, e, c, full)
      && (full ==> RefetchOk(db, d, e, if c == ZERO then e else e + 1))
      && (reply.Some? ==> PageOk(db, log, d, e, c, full, reply.value))
  }

  ghost predicate DeviceOk(db: Db, log: Log, d: Device) {
    && Sized(d) && TaskSized(d.task) && d.tenant in db.marks && d.swept <= d.epoch
    && LocalsOk(db, log, d) && TaskOk(db, log, d)
  }

  /** Open values were drawn and are on no row and no watermark. */
  ghost predicate LogOk(db: Db, log: Log) {
    && (forall v :: v in log.pending ==> 0 < v <= db.drawn)
    && (forall t :: t in db.marks ==> db.marks[t] !in log.pending)
    && forall id :: id in db.rows ==>
         id in log.used && (Synced(db.rows[id].table) ==> db.rows[id].stamp !in log.pending)
  }

  ghost predicate Inv(w: World) {
    && Sound(w.db) && Homed(w.db) && LogOk(w.db, w.log)
    && forall d :: d in w.devices ==> DeviceOk(w.db, w.log, w.devices[d])
  }

  // ---- applying a page ----

  lemma {:induction false} ApplyMisses(mirror: map<Id, Entry>, items: seq<SyncRow>, epoch: nat, id: Id)
    requires forall r :: r in items ==> r.id != id
    ensures id in Apply(mirror, items, epoch) <==> id in mirror
    ensures id in mirror ==> Apply(mirror, items, epoch)[id] == mirror[id]
  {
    if items != [] {
      var init, last := items[..|items| - 1], items[|items| - 1];
      assert last in items;
      ApplyMisses(mirror, init, epoch, id);
    }
  }

  predicate Holds(mirror: map<Id, Entry>, r: SyncRow, epoch: nat) {
    if r.isDeleted then r.id !in mirror else r.id in mirror && mirror[r.id] == Entry(r.stamp, epoch)
  }

  lemma {:induction false} ApplyHits(mirror: map<Id, Entry>, items: seq<SyncRow>, epoch: nat, r: SyncRow)
    requires r in items && OneRowPerId(items)
    ensures Holds(Apply(mirror, items, epoch), r, epoch)
  {
    var init, last := items[..|items| - 1], items[|items| - 1];
    assert items == init + [last];
    if last.id != r.id {
      ApplyHits(mirror, init, epoch, r);
    } else {
      assert last in items;
    }
  }

  /** After a page, an id has what the page says of it, or what it had. */
  lemma ApplyAt(mirror: map<Id, Entry>, items: seq<SyncRow>, epoch: nat, id: Id)
    requires OneRowPerId(items)
    ensures (exists r :: r in items && r.id == id && Holds(Apply(mirror, items, epoch), r, epoch))
         || ((forall r :: r in items ==> r.id != id)
             && (id in Apply(mirror, items, epoch) <==> id in mirror)
             && (id in mirror ==> Apply(mirror, items, epoch)[id] == mirror[id]))
  {
    if r :| r in items && r.id == id {
      ApplyHits(mirror, items, epoch, r);
    } else {
      ApplyMisses(mirror, items, epoch, id);
    }
  }

  lemma PageKeepsCurrent(db: Db, s: Scope, since: Cursor, page: PageResult, mirror: map<Id, Entry>, epoch: nat)
    requires ReplyOk(db, s, since, page, mirror, epoch)
    requires Current(db, s, since, mirror)
    ensures Current(db, s, page.next, Apply(mirror, page.items, epoch))
  {
    var after := Apply(mirror, page.items, epoch);
    forall id | id in db.rows && Passed(page.next, id, db.rows[id], s)
      ensures Agrees(after, id, db.rows[id])
    {
      ApplyAt(mirror, page.items, epoch, id);
      var r := AsSyncRow(id, db.rows[id]);
      if r in page.items {
        ApplyHits(mirror, page.items, epoch, r);
      }
    }
  }

  lemma PageRefreshes(db: Db, s: Scope, since: Cursor, page: PageResult, mirror: map<Id, Entry>, epoch: nat)
    requires ReplyOk(db, s, since, page, mirror, epoch)
    requires Refreshed(db, s, since, mirror, epoch)
    ensures Refreshed(db, s, page.next, Apply(mirror, page.items, epoch), epoch)
  {
    var after := Apply(mirror, page.items, epoch);
    forall id | id in db.rows && Passed(page.next, id, db.rows[id], s) && !db.rows[id].isDeleted
      ensures SeenIn(after, id, epoch)
    {
      ApplyAt(mirror, page.items, epoch, id);
      var r := AsSyncRow(id, db.rows[id]);
      if r in page.items {
        ApplyHits(mirror, page.items, epoch, r);
      }
    }
  }

  lemma PageCloses(db: Db, s: Scope, since: Cursor, page: PageResult, mirror: map<Id, Entry>, epoch: nat)
    requires ReplyOk(db, s, since, page, mirror, epoch) && !page.hasMore
    requires Closing(db, s, page, mirror, epoch)
    ensures KnownSeen(db, s, Apply(mirror, page.items, epoch), epoch)
  {
    var after := Apply(mirror, page.items, epoch);
    forall id | id in after && Known(db, s, id)
      ensures after[id].epoch == epoch
    {
      ApplyAt(mirror, page.items, epoch, id);
    }
  }

  lemma PageKeepsExcuses(db: Db, s: Scope, since: Cursor, page: PageResult, mirror: map<Id, Entry>, epoch: nat)
    requires ReplyOk(db, s, since, page, mirror, epoch)
    ensures Excused(db, s, page.next, Apply(mirror, page.items, epoch), epoch)
    ensures Visible(s, Apply(mirror, page.items, epoch), epoch)
  {
    var after := Apply(mirror, page.items, epoch);
    forall id | id in after
      ensures Known(db, s, id) || Refusable(db, s.tenant, page.next) || after[id].epoch < epoch
      ensures id in s.sees || after[id].epoch < epoch
    {
      ApplyAt(mirror, page.items, epoch, id);
    }
  }

  /** What a page does to an entity, stale or not. */
  lemma {:induction false} ApplyKeepsBase(db: Db, log: Log, mirror: map<Id, Entry>, items: seq<SyncRow>,
                                          epoch: nat, swept: nat)
    requires Epochs(mirror, epoch, swept)
    requires forall id :: id in mirror ==> id in log.used && Closed(db, log, mirror[id].stamp)
    requires forall r :: r in items ==> r.id in log.used && Closed(db, log, r.stamp)
    ensures var after := Apply(mirror, items, epoch);
            && Epochs(after, epoch, swept)
            && forall id :: id in after ==> id in log.used && Closed(db, log, after[id].stamp)
  {
    if items != [] {
      assert items[|items| - 1] in items;
      ApplyKeepsBase(db, log, mirror, items[..|items| - 1], epoch, swept);
    }
  }

  lemma NothingPassedAtZero(db: Db, s: Scope, mirror: map<Id, Entry>, epoch: nat, c: Cursor)
    requires Sound(db) && Synced(s.table) && c.stamp == 0
    ensures Current(db, s, c, mirror) && Refreshed(db, s, c, mirror, epoch)
  {
    forall id | id in db.rows && InScope(id, db.rows[id], s)
      ensures !Passed(c, id, db.rows[id], s)
    {
      assert StampSound(db.rows[id], db);
    }
  }

  /** A delivered page leaves its entity as the invariant asks, even a stale one if it starts anew. */
  lemma PageKeepsLocal(db: Db, s: Scope, since: Cursor, page: PageResult, local: Local, epoch: nat)
    requires Sound(db) && Synced(s.table)
    requires (since == local.cursor && LocalOk(db, s, local, epoch)) || since == ZERO
    requires ReplyOk(db, s, since, page, local.mirror, epoch)
    ensures LocalOk(db, s, Local(page.next, Apply(local.mirror, page.items, epoch)), epoch)
  {
    if since == ZERO {
      NothingPassedAtZero(db, s, local.mirror, epoch, since);
    }
    PageKeepsCurrent(db, s, since, page, local.mirror, epoch);
    PageKeepsExcuses(db, s, since, page, local.mirror, epoch);
  }

  // ---- serving a page ----

  lemma RestRows(db: Db, s: Scope, since: Cursor, r: SyncRow)
    requires Sound(db) && Synced(s.table)
    ensures r in Tail(View(db, s), since) <==>
            Known(db, s, r.id) && After(since, r) && r == AsSyncRow(r.id, db.rows[r.id])
  {
    var stream := View(db, s);
    assert r in stream <==> r in StreamRows(db, s);
  }

  /** A page with more to come is the first rows after the cursor, and its cursor passes just these. */
  lemma FullPage(rest: seq<SyncRow>, limit: nat, r: SyncRow)
    requires Ordered(rest) && 0 < limit < |rest|
    ensures r in rest && !After(CursorOf(rest[limit - 1]), r) <==> r in rest[..limit]
  {
    LaterIn(rest, limit, r);
    SplitAt(rest, limit, r);
  }

  lemma NothingAfterLast(rest: seq<SyncRow>, watermark: nat, since: Cursor, r: SyncRow)
    requires Ordered(rest) && r in rest
    ensures !After(Lifted(CursorAt(since, rest, |rest|), watermark), r)
  {
    LaterIn(rest, |rest|, r);
  }

  /** What a page is to the rows after the request's cursor. */
  ghost predicate IsPageOf(page: PageResult, rest: seq<SyncRow>, watermark: nat, since: Cursor, limit: nat)
    requires limit > 0
  {
    && page.Page? && page.items <= rest
    && (forall r :: r in rest && !After(page.next, r) <==> r in page.items)
    && (page.hasMore ==> |rest| > limit && page.next == CursorOf(rest[limit - 1]))
    && (!page.hasMore ==> page.items == rest && page.next == Lifted(CursorAt(since, rest, |rest|), watermark))
  }

  lemma CutWithMore(rest: seq<SyncRow>, watermark: nat, since: Cursor, limit: nat)
    requires Ordered(rest) && 0 < limit < |rest|
    ensures IsPageOf(CutPage(rest, watermark, since, limit), rest, watermark, since, limit)
  {
    var page := Page(rest[..limit], CursorOf(rest[limit - 1]), true);
    assert CutPage(rest, watermark, since, limit) == page;
    forall r
      ensures r in rest && !After(page.next, r) <==> r in page.items
    {
      FullPage(rest, limit, r);
    }
  }

  lemma CutLast(rest: seq<SyncRow>, watermark: nat, since: Cursor, limit: nat)
    requires Ordered(rest) && limit > 0 && |rest| <= limit
    ensures IsPageOf(CutPage(rest, watermark, since, limit), rest, watermark, since, limit)
  {
    var page := Page(rest, Lifted(CursorAt(since, rest, |rest|), watermark), false);
    assert CutPage(rest, watermark, since, limit) == page;
    forall r | r in rest
      ensures !After(page.next, r)
    {
      NothingAfterLast(rest, watermark, since, r);
    }
  }

  /** The page is a prefix of the rows after the cursor, all of them when it is the last. */
  lemma PageIsPrefix(stream: seq<SyncRow>, watermark: nat, since: Cursor, limit: nat)
    requires Ordered(stream) && limit > 0 && !(0 < since.stamp < watermark)
    ensures IsPageOf(PullPage(stream, watermark, since, limit), Tail(stream, since), watermark, since, limit)
  {
    TailOrdered(stream, since);
    if |Tail(stream, since)| > limit {
      CutWithMore(Tail(stream, since), watermark, since, limit);
    } else {
      CutLast(Tail(stream, since), watermark, since, limit);
    }
  }

  lemma PageCursor(stream: seq<SyncRow>, watermark: nat, since: Cursor, limit: nat)
    requires Ordered(stream) && limit > 0 && !(0 < since.stamp < watermark)
    ensures var page, rest := PullPage(stream, watermark, since, limit), Tail(stream, since);
            && page.Page?
            && (page.next.stamp <= watermark || page.next == since || exists r :: r in rest && page.next == CursorOf(r))
            && (page.next.stamp == 0 ==>
                 && rest == [] && page.items == [] && !page.hasMore && watermark == 0 && since.stamp == 0)
  {
    var rest := Tail(stream, since);
    TailOrdered(stream, since);
    PageIsPrefix(stream, watermark, since, limit);
    if |rest| > limit {
      assert rest[limit - 1] in rest && rest[limit - 1].stamp > 0;
    } else if rest != [] {
      assert rest[|rest| - 1] in rest && rest[|rest| - 1].stamp > 0;
    }
  }

  lemma SplitAt(rest: seq<SyncRow>, n: nat, r: SyncRow)
    requires Ordered(rest) && n <= |rest|
    ensures r in rest <==> r in rest[..n] || r in rest[n..]
    ensures !(r in rest[..n] && r in rest[n..])
  {
    assert rest == rest[..n] + rest[n..];
    if r in rest[..n] {
      var i :| 0 <= i < n && rest[i] == r;
      forall j | n <= j < |rest|
        ensures rest[j] != r
      {
        Strictly(rest, i, j);
      }
    }
  }

  lemma ServedItems(db: Db, s: Scope, since: Cursor, limit: nat)
    requires Sound(db) && Synced(s.table) && limit > 0 && !Refusable(db, s.tenant, since)
    ensures var page := Served(db, s, since, limit);
            && page.Page? && OneRowPerId(page.items)
            && (forall r :: r in page.items ==>
                 Known(db, s, r.id) && r == AsSyncRow(r.id, db.rows[r.id]) && After(since, r))
            && Covers(db, s, since, page.items, page.next)
  {
    var stream := View(db, s);
    var page, rest := Served(db, s, since, limit), Tail(stream, since);
    PageIsPrefix(stream, Watermark(db, s.tenant), since, limit);
    forall r | r in page.items
      ensures Known(db, s, r.id) && r == AsSyncRow(r.id, db.rows[r.id]) && After(since, r)
    {
      assert r in rest;
      RestRows(db, s, since, r);
    }
    forall id | id in db.rows && Passed(page.next, id, db.rows[id], s)
      ensures Passed(since, id, db.rows[id], s) || AsSyncRow(id, db.rows[id]) in page.items
    {
      RestRows(db, s, since, AsSyncRow(id, db.rows[id]));
    }
  }

  lemma ServedCursor(db: Db, log: Log, s: Scope, since: Cursor, limit: nat)
    requires Sound(db) && LogOk(db, log) && Synced(s.table) && limit > 0 && !Refusable(db, s.tenant, since)
    requires Closed(db, log, since.stamp)
    ensures ReplyBase(db, log, Served(db, s, since, limit))
    ensures var page := Served(db, s, since, limit);
            page.next.stamp == 0 ==> page.items == [] && since.stamp == 0
  {
    var stream := View(db, s);
    var page, rest := Served(db, s, since, limit), Tail(stream, since);
    PageIsPrefix(stream, Watermark(db, s.tenant), since, limit);
    PageCursor(stream, Watermark(db, s.tenant), since, limit);
    ServedItems(db, s, since, limit);
    forall r | r in rest
      ensures r.id in log.used && Closed(db, log, r.stamp)
    {
      RestRows(db, s, since, r);
      assert StampSound(db.rows[r.id], db);
    }
    NextIsClosed(db, log, s, since, page, rest);
  }

  lemma NextIsClosed(db: Db, log: Log, s: Scope, since: Cursor, page: PageResult, rest: seq<SyncRow>)
    requires Sound(db) && LogOk(db, log) && page.Page? && Closed(db, log, since.stamp)
    requires forall r :: r in rest ==> Closed(db, log, r.stamp)
    requires page.next.stamp == Watermark(db, s.tenant) || page.next == since ||
             exists r :: r in rest && page.next == CursorOf(r)
    ensures Closed(db, log, page.next.stamp)
  {
  }

  /** What the server answers is as the invariant asks of a reply under way. */
  lemma ServedReplyOk(db: Db, s: Scope, since: Cursor, limit: nat, local: Local, epoch: nat)
    requires Sound(db) && Synced(s.table) && limit > 0 && !Refusable(db, s.tenant, since)
    requires (since == local.cursor && LocalOk(db, s, local, epoch)) || (since == ZERO && Unseen(local.mirror, epoch))
    ensures ReplyOk(db, s, since, Served(db, s, since, limit), local.mirror, epoch)
  {
    var page := Served(db, s, since, limit);
    ServedItems(db, s, since, limit);
    PageCursor(View(db, s), Watermark(db, s.tenant), since, limit);
  }

  /** The last page of a refetched entity brings all that is mirrored and was not delivered before. */
  lemma ServedCloses(db: Db, s: Scope, since: Cursor, limit: nat, mirror: map<Id, Entry>, epoch: nat)
    requires Sound(db) && Synced(s.table) && limit > 0 && !Refusable(db, s.tenant, since)
    requires Current(db, s, since, mirror) && Refreshed(db, s, since, mirror, epoch)
    ensures Closing(db, s, Served(db, s, since, limit), mirror, epoch)
  {
    var page, rest := Served(db, s, since, limit), Tail(View(db, s), since);
    PageIsPrefix(View(db, s), Watermark(db, s.tenant), since, limit);
    if !page.hasMore {
      forall id | id in mirror && Known(db, s, id)
        ensures mirror[id].epoch == epoch || Brings(page.items, id)
      {
        RestRows(db, s, since, AsSyncRow(id, db.rows[id]));
      }
    }
  }
}
