/**
 * Every step keeps the invariant, one page at a time: draws, commits, reaps and changes of visibility
 * between any two steps of a device (backend/app/core/deletion.py:203-267,
 * backend/app/routers/sync.py:60-371), and each page, sweep and kill of the device itself
 * (apps/mobile/src/data/pull.ts:27-96, apps/mobile/src/data/mirror.ts:37-86).
 */
module SyncSafety {
  import opened Records
  import opened Reaper
  import opened SyncPull
  import opened SyncProtocol
  import opened SyncInvariant

  // ---- what the server does meanwhile ----

  ghost predicate NoneLost(before: Db, after: Db, tenant: Id) {
    forall id :: id in before.rows && before.rows[id].tenant == tenant ==> id in after.rows
  }

  /** Rows stay in their table and tenant, and a new row has a new id. */
  ghost predicate RowsMoved(before: Db, after: Db, used: set<Id>) {
    forall id :: id in after.rows ==>
      if id in before.rows
      then after.rows[id].table == before.rows[id].table && after.rows[id].tenant == before.rows[id].tenant
      else id !in used
  }

  /** The tenant loses no row and keeps its watermark, or its watermark passes everything drawn before. */
  ghost predicate Moved(before: Db, after: Db, used: set<Id>, tenant: Id) {
    && before.drawn <= after.drawn && RowsMoved(before, after, used)
    && ((NoneLost(before, after, tenant) && Watermark(after, tenant) == Watermark(before, tenant))
        || Watermark(after, tenant) > before.drawn)
  }

  /** No closed value becomes open. */
  ghost predicate LogMoved(before: Db, log: Log, after: Db, next: Log) {
    && before.drawn <= after.drawn && log.used <= next.used
    && forall v :: v in next.pending ==> v in log.pending || v > before.drawn
  }

  /** A row that no new version has overtaken and that the cursor has passed is the row it had passed before. */
  lemma PassedBefore(before: Db, after: Db, used: set<Id>, s: Scope, c: Cursor, id: Id)
    requires RowsMoved(before, after, used) && !Overtakes(before, after, s, c)
    requires id in after.rows && Passed(c, id, after.rows[id], s)
    ensures id in before.rows && Passed(c, id, before.rows[id], s)
    ensures AsSyncRow(id, after.rows[id]) == AsSyncRow(id, before.rows[id])
  {
    assert !Changed(before, after, id);
  }

  lemma MoveKeepsCurrent(before: Db, after: Db, used: set<Id>, s: Scope, c: Cursor, mirror: map<Id, Entry>, epoch: nat)
    requires RowsMoved(before, after, used) && !Overtakes(before, after, s, c)
    ensures Current(before, s, c, mirror) ==> Current(after, s, c, mirror)
    ensures Refreshed(before, s, c, mirror, epoch) ==> Refreshed(after, s, c, mirror, epoch)
  {
    forall id | id in after.rows && Passed(c, id, after.rows[id], s)
      ensures id in before.rows && Passed(c, id, before.rows[id], s)
      ensures AsSyncRow(id, after.rows[id]) == AsSyncRow(id, before.rows[id])
    {
      PassedBefore(before, after, used, s, c, id);
    }
  }

  /** A known row is still known, or every cursor issued before will be refused. */
  lemma MoveKeepsKnown(before: Db, after: Db, used: set<Id>, s: Scope, c: Cursor, id: Id)
    requires Moved(before, after, used, s.tenant) && 0 < c.stamp <= before.drawn
    ensures Known(before, s, id) ==> Known(after, s, id) || Refusable(after, s.tenant, c)
    ensures Refusable(before, s.tenant, c) ==> Refusable(after, s.tenant, c)
  {
  }

  lemma MoveKeepsExcused(before: Db, after: Db, used: set<Id>, s: Scope, c: Cursor, mirror: map<Id, Entry>, epoch: nat)
    requires Moved(before, after, used, s.tenant) && c.stamp <= before.drawn
    requires c.stamp == 0 ==> Unseen(mirror, epoch)
    requires Excused(before, s, c, mirror, epoch)
    ensures Excused(after, s, c, mirror, epoch)
  {
    forall id | id in mirror
      ensures Known(after, s, id) || Refusable(after, s.tenant, c) || mirror[id].epoch < epoch
    {
      if c.stamp > 0 {
        MoveKeepsKnown(before, after, used, s, c, id);
      }
    }
  }

  lemma MoveKeepsLocal(before: Db, after: Db, used: set<Id>, s: Scope, local: Local, epoch: nat)
    requires Moved(before, after, used, s.tenant) && local.cursor.stamp <= before.drawn
    requires LocalOk(before, s, local, epoch) && !Overtakes(before, after, s, local.cursor)
    ensures LocalOk(after, s, local, epoch)
  {
    MoveKeepsCurrent(before, after, used, s, local.cursor, local.mirror, epoch);
    MoveKeepsExcused(before, after, used, s, local.cursor, local.mirror, epoch);
  }

  /** Ids are never used again, so nothing mirrored becomes known that was not. */
  lemma NothingReturns(before: Db, after: Db, used: set<Id>, s: Scope, id: Id)
    requires RowsMoved(before, after, used) && id in used && Known(after, s, id)
    ensures Known(before, s, id)
  {
  }

  lemma MoveKeepsSeen(before: Db, after: Db, used: set<Id>, s: Scope, page: PageResult, mirror: map<Id, Entry>,
                      epoch: nat)
    requires RowsMoved(before, after, used) && mirror.Keys <= used
    ensures KnownSeen(before, s, mirror, epoch) ==> KnownSeen(after, s, mirror, epoch)
    ensures Closing(before, s, page, mirror, epoch) ==> Closing(after, s, page, mirror, epoch)
  {
    forall id | id in mirror && Known(after, s, id)
      ensures Known(before, s, id)
    {
      NothingReturns(before, after, used, s, id);
    }
  }

  lemma MoveKeepsItem(before: Db, after: Db, used: set<Id>, s: Scope, next: Cursor, r: SyncRow)
    requires Moved(before, after, used, s.tenant) && !Overtakes(before, after, s, next)
    requires 0 < next.stamp <= before.drawn && r.id in used
    requires ItemCurrent(before, s, next, r)
    requires Known(before, s, r.id) || Refusable(before, s.tenant, next)
    ensures ItemCurrent(after, s, next, r)
    ensures Known(after, s, r.id) || Refusable(after, s.tenant, next)
  {
    MoveKeepsKnown(before, after, used, s, next, r.id);
    if Known(after, s, r.id) && !After(next, AsSyncRow(r.id, after.rows[r.id])) {
      PassedBefore(before, after, used, s, next, r.id);
    }
  }

  lemma MoveKeepsReply(before: Db, after: Db, used: set<Id>, s: Scope, since: Cursor, page: PageResult,
                       mirror: map<Id, Entry>, epoch: nat)
    requires Moved(before, after, used, s.tenant) && page.Page? && !Overtakes(before, after, s, page.next)
    requires page.next.stamp <= before.drawn && forall r :: r in page.items ==> r.id in used
    requires ReplyOk(before, s, since, page, mirror, epoch)
    ensures ReplyOk(after, s, since, page, mirror, epoch)
  {
    MoveKeepsExcused(before, after, used, s, page.next, mirror, epoch);
    forall r | r in page.items
      ensures ItemCurrent(after, s, page.next, r)
      ensures Known(after, s, r.id) || Refusable(after, s.tenant, page.next)
    {
      MoveKeepsItem(before, after, used, s, page.next, r);
    }
    forall id | id in after.rows && Passed(page.next, id, after.rows[id], s)
      ensures Passed(since, id, after.rows[id], s) || AsSyncRow(id, after.rows[id]) in page.items
    {
      PassedBefore(before, after, used, s, page.next, id);
    }
  }

  /** Nothing of the app has changed; the history may say that more has been overtaken. */
  predicate SameApp(d: Device, e: Device) {
    && e.tenant == d.tenant && e.limit == d.limit && e.epoch == d.epoch && e.swept == d.swept
    && e.locals == d.locals && e.task == d.task
  }

  /** The history marks every entity and page that the server's move overtakes. */
  ghost predicate Marked(before: Db, after: Db, d: Device, next: Device)
    requires Sized(d)
  {
    && SameApp(d, next) && next.sees == d.sees && d.stale <= next.stale
    && (forall e :: 0 <= e < |ENTITIES| && e !in next.stale ==>
         !Overtakes(before, after, ScopeOf(d, e), d.locals[e].cursor))
    && (next.intact ==> d.intact && !ReplyOvertaken(before, after, d))
  }

  lemma MoveKeepsLocals(before: Db, log: Log, after: Db, next: Log, d: Device, e: Device)
    requires Moved(before, after, log.used, d.tenant) && LogMoved(before, log, after, next)
    requires Sized(d) && Marked(before, after, d, e) && LocalsOk(before, log, d)
    ensures LocalsOk(after, next, e)
  {
    forall k | 0 <= k < |ENTITIES|
      ensures LocalBase(after, next, e.locals[k], e.epoch, e.swept)
      ensures k !in e.stale ==> LocalOk(after, ScopeOf(e, k), e.locals[k], e.epoch)
    {
      assert LocalBase(before, log, d.locals[k], d.epoch, d.swept);
      if k !in e.stale {
        MoveKeepsLocal(before, after, log.used, ScopeOf(d, k), d.locals[k], d.epoch);
      }
    }
  }

  lemma MoveKeepsRefetch(before: Db, log: Log, after: Db, d: Device, e: Device, done: nat, begun: nat)
    requires RowsMoved(before, after, log.used) && Sized(d) && Marked(before, after, d, e)
    requires LocalsOk(before, log, d) && RefetchOk(before, d, done, begun)
    ensures RefetchOk(after, e, done, begun)
  {
    forall k | 0 <= k < |ENTITIES|
      ensures k < begun && k !in e.stale ==>
                Refreshed(after, ScopeOf(e, k), e.locals[k].cursor, e.locals[k].mirror, e.epoch)
      ensures k < done && k !in e.stale ==> KnownSeen(after, ScopeOf(e, k), e.locals[k].mirror, e.epoch)
    {
      assert LocalBase(before, log, d.locals[k], d.epoch, d.swept);
      if k !in e.stale {
        MoveKeepsCurrent(before, after, log.used, ScopeOf(d, k), d.locals[k].cursor, d.locals[k].mirror, d.epoch);
        MoveKeepsSeen(before, after, log.used, ScopeOf(d, k), Gone, d.locals[k].mirror, d.epoch);
      }
    }
  }

  lemma MoveKeepsPage(before: Db, log: Log, after: Db, next: Log, d: Device, e: Device)
    requires Moved(before, after, log.used, d.tenant) && LogMoved(before, log, after, next)
    requires Sized(d) && Marked(before, after, d, e) && LocalsOk(before, log, d)
    requires d.task.Walking? && d.task.entity < |ENTITIES| && d.task.reply.Some?
    requires PageOk(before, log, d, d.task.entity, d.task.cursor, d.task.full, d.task.reply.value)
    ensures PageOk(after, next, e, d.task.entity, d.task.cursor, d.task.full, d.task.reply.value)
  {
    var k, page := d.task.entity, d.task.reply.value;
    assert LocalBase(before, log, d.locals[k], d.epoch, d.swept);
    if Trusted(e, k, d.task.cursor, d.task.full) {
      MoveKeepsReply(before, after, log.used, ScopeOf(d, k), d.task.cursor, page, d.locals[k].mirror, d.epoch);
      MoveKeepsSeen(before, after, log.used, ScopeOf(d, k), page, d.locals[k].mirror, d.epoch);
    }
  }

  /** Whatever the server does between two steps of a device keeps its invariant. */
  lemma MoveKeepsDevice(before: Db, log: Log, after: Db, next: Log, d: Device, e: Device)
    requires Moved(before, after, log.used, d.tenant) && LogMoved(before, log, after, next)
    requires d.tenant in after.marks && DeviceOk(before, log, d) && Marked(before, after, d, e)
    ensures DeviceOk(after, next, e)
  {
    MoveKeepsLocals(before, log, after, next, d, e);
    match d.task
    case Idle =>
    case Finished(_) =>
    case Sweeping(_) => MoveKeepsRefetch(before, log, after, d, e, |ENTITIES|, |ENTITIES|);
    case Walking(k, c, full, reply) =>
      if full {
        MoveKeepsRefetch(before, log, after, d, e, k, if c == ZERO then k else k + 1);
      }
      if reply.Some? {
        MoveKeepsPage(before, log, after, next, d, e);
      }
  }

  // ---- drawing and committing ----

  lemma DrawKeepsInv(w: World, v: World)
    requires Inv(w) && Next(w, Step.Draw, v)
    ensures Inv(v)
  {
    assert forall id :: id in w.db.rows ==> StampSound(w.db.rows[id], w.db);
    forall d | d in w.devices
      ensures DeviceOk(v.db, v.log, w.devices[d])
    {
      assert DeviceOk(w.db, w.log, w.devices[d]);
      MoveKeepsDevice(w.db, w.log, v.db, v.log, w.devices[d], w.devices[d]);
    }
  }

  lemma CommitIsSound(w: World, v: World, values: set<nat>)
    requires Sound(w.db) && Homed(w.db) && LogOk(w.db, w.log) && CommitStep(w, v, values)
    ensures Sound(v.db) && LogOk(v.db, v.log) && RowsMoved(w.db, v.db, w.log.used)
  {
    forall id | id in v.db.rows
      ensures StampSound(v.db.rows[id], v.db)
      ensures Synced(v.db.rows[id].table) ==> v.db.rows[id].stamp !in v.log.pending
      ensures id in w.db.rows ==>
                v.db.rows[id].table == w.db.rows[id].table && v.db.rows[id].tenant == w.db.rows[id].tenant
    {
      if id in w.db.rows {
        assert StampSound(w.db.rows[id], w.db);
        assert RowWritten(w.db.rows[id], v.db.rows[id], values, v.db.drawn);
      } else {
        assert Stamped(v.db.rows[id], values, v.db.drawn);
      }
    }
  }

  lemma CommitMarks(before: Db, after: Db, d: Device)
    requires Sized(d)
    ensures Marked(before, after, d, AfterCommit(before, after, d))
  {
    assert forall e: nat :: e < |ENTITIES| && Overtakes(before, after, ScopeOf(d, e), d.locals[e].cursor) ==>
        e in Overtaken(before, after, d);
  }

  lemma CommitKeepsInv(w: World, v: World, values: set<nat>)
    requires Inv(w) && Next(w, Step.Commit(values), v)
    ensures Inv(v)
  {
    CommitIsSound(w, v, values);
    forall d | d in v.devices
      ensures DeviceOk(v.db, v.log, v.devices[d])
    {
      assert DeviceOk(w.db, w.log, w.devices[d]);
      CommitMarks(w.db, v.db, w.devices[d]);
      MoveKeepsDevice(w.db, w.log, v.db, v.log, w.devices[d], v.devices[d]);
    }
  }

  // ---- reaping ----

  lemma DoomedTenant(db: Db, gone: set<Id>, id: Id)
    requires Homed(db) && gone <= db.rows.Keys && id in db.rows
    ensures id in Doomed(db.rows, gone) ==> db.rows[id].tenant in TenantsOf(db.rows, gone)
  {
    assert RowHomed(db, db.rows[id]);
    if id in Doomed(db.rows, gone) && id !in gone {
      var o :| o in db.rows[id].owners * gone;
      assert db.rows[o].tenant in TenantsOf(db.rows, gone);
    }
  }

  /** A reap moves the watermark of the tenants whose rows it takes past everything drawn before. */
  lemma ReapMoves(before: Db, gone: set<Id>, after: Db, used: set<Id>, tenant: Id)
    requires Homed(before) && Reaped(before, gone, after) && gone <= before.rows.Keys && tenant in before.marks
    ensures Moved(before, after, used, tenant) && tenant in after.marks
    ensures tenant in TenantsOf(before.rows, gone) ==> Watermark(after, tenant) > before.drawn
  {
    var touched := tenant in TenantsOf(before.rows, gone);
    assert MarkMoved(touched, before.marks[tenant], after.marks[tenant], before.drawn, after.drawn);
    forall id | id in before.rows && before.rows[id].tenant == tenant && !touched
      ensures id in after.rows
    {
      DoomedTenant(before, gone, id);
    }
    forall id | id in after.rows
      ensures id in before.rows && after.rows[id].table == before.rows[id].table
      ensures after.rows[id].tenant == before.rows[id].tenant
    {
      assert KeptAs(before.rows[id], after.rows[id], gone, before.drawn, after.drawn);
    }
  }

  /** A reap restamps rows past every cursor. */
  lemma ReapOvertakesNothing(before: Db, gone: set<Id>, after: Db, s: Scope, c: Cursor)
    requires Reaped(before, gone, after) && Synced(s.table) && c.stamp <= before.drawn
    ensures !Overtakes(before, after, s, c)
  {
    forall id | Changed(before, after, id)
      ensures !Passed(c, id, after.rows[id], s)
    {
      assert KeptAs(before.rows[id], after.rows[id], gone, before.drawn, after.drawn);
    }
  }

  lemma HomedAfterReap(before: Db, gone: set<Id>, after: Db)
    requires Homed(before) && Reaped(before, gone, after)
    ensures Homed(after)
  {
    forall id | id in after.rows
      ensures RowHomed(after, after.rows[id])
    {
      assert RowHomed(before, before.rows[id]);
      forall o | o in after.rows[id].owners && o in after.rows
        ensures after.rows[o].tenant == after.rows[id].tenant
      {
        assert KeptAs(before.rows[o], after.rows[o], gone, before.drawn, after.drawn);
      }
    }
  }

  lemma LogAfterReap(before: Db, gone: set<Id>, after: Db, log: Log)
    requires LogOk(before, log) && Reaped(before, gone, after)
    ensures LogOk(after, log)
  {
    forall t | t in after.marks
      ensures after.marks[t] !in log.pending
    {
      assert MarkMoved(t in TenantsOf(before.rows, gone), before.marks[t], after.marks[t], before.drawn, after.drawn);
    }
    forall id | id in after.rows
      ensures id in log.used && (Synced(after.rows[id].table) ==> after.rows[id].stamp !in log.pending)
    {
      assert KeptAs(before.rows[id], after.rows[id], gone, before.drawn, after.drawn);
    }
  }

  lemma ReapMarks(before: Db, gone: set<Id>, after: Db, log: Log, d: Device)
    requires Reaped(before, gone, after) && DeviceOk(before, log, d)
    ensures Marked(before, after, d, d)
  {
    forall e | 0 <= e < |ENTITIES|
      ensures !Overtakes(before, after, ScopeOf(d, e), d.locals[e].cursor)
    {
      assert LocalBase(before, log, d.locals[e], d.epoch, d.swept);
      ReapOvertakesNothing(before, gone, after, ScopeOf(d, e), d.locals[e].cursor);
    }
    if d.task.Walking? && d.task.reply.Some? {
      ReapOvertakesNothing(before, gone, after, ScopeOf(d, d.task.entity), d.task.reply.value.next);
    }
  }

  lemma ReapKeepsInv(w: World, v: World, cutoff: int)
    requires Inv(w) && Next(w, Step.Reap(cutoff), v)
    ensures Inv(v)
  {
    var gone := Due(w.db.rows, cutoff);
    HomedAfterReap(w.db, gone, v.db);
    LogAfterReap(w.db, gone, v.db, w.log);
    forall d | d in w.devices
      ensures DeviceOk(v.db, v.log, w.devices[d])
    {
      assert DeviceOk(w.db, w.log, w.devices[d]);
      ReapMoves(w.db, gone, v.db, w.log.used, w.devices[d].tenant);
      ReapMarks(w.db, gone, v.db, w.log, w.devices[d]);
      MoveKeepsDevice(w.db, w.log, v.db, v.log, w.devices[d], w.devices[d]);
    }
  }

  // ---- visibility ----

  /** An entity that a change of visibility does not expose is up to date for the new visibility as well. */
  lemma UnexposedStaysOk(db: Db, d: Device, e: nat, sees: set<Id>)
    requires Sized(d) && e < |ENTITIES| && !Exposes(db, d, e, sees)
    requires LocalOk(db, ScopeOf(d, e), d.locals[e], d.epoch)
    ensures LocalOk(db, Scope(d.tenant, ENTITIES[e], sees), d.locals[e], d.epoch)
  {
    var s, t, local := ScopeOf(d, e), Scope(d.tenant, ENTITIES[e], sees), d.locals[e];
    forall id | id in local.mirror
      ensures (id in d.sees) == (id in sees) && Known(db, s, id) == Known(db, t, id)
    {
    }
    forall id | id in db.rows && Passed(local.cursor, id, db.rows[id], t)
      ensures Agrees(local.mirror, id, db.rows[id])
    {
      assert id in d.sees ==> Passed(local.cursor, id, db.rows[id], s);
    }
  }

  lemma UnexposedStaysSeen(db: Db, d: Device, e: nat, sees: set<Id>)
    requires Sized(d) && e < |ENTITIES| && !Exposes(db, d, e, sees)
    ensures var s, t, local := ScopeOf(d, e), Scope(d.tenant, ENTITIES[e], sees), d.locals[e];
            && (Refreshed(db, s, local.cursor, local.mirror, d.epoch) ==>
                 Refreshed(db, t, local.cursor, local.mirror, d.epoch))
            && (KnownSeen(db, s, local.mirror, d.epoch) ==> KnownSeen(db, t, local.mirror, d.epoch))
  {
    var s, t, local := ScopeOf(d, e), Scope(d.tenant, ENTITIES[e], sees), d.locals[e];
    assert forall id :: id in local.mirror ==> (id in d.sees) == (id in sees);
    forall id | id in db.rows && Passed(local.cursor, id, db.rows[id], t) && !db.rows[id].isDeleted
      ensures Passed(local.cursor, id, db.rows[id], s)
    {
    }
  }

  lemma RescopeKeepsDevice(db: Db, log: Log, d: Device, sees: set<Id>)
    requires DeviceOk(db, log, d)
    ensures DeviceOk(db, log, Rescoped(db, d, sees))
  {
    var after := Rescoped(db, d, sees);
    forall e | 0 <= e < |ENTITIES|
      ensures LocalBase(db, log, after.locals[e], after.epoch, after.swept)
      ensures e !in after.stale ==> e !in d.stale && LocalOk(db, ScopeOf(after, e), after.locals[e], after.epoch)
      ensures e !in after.stale && Refreshed(db, ScopeOf(d, e), d.locals[e].cursor, d.locals[e].mirror, d.epoch) ==>
                Refreshed(db, ScopeOf(after, e), d.locals[e].cursor, d.locals[e].mirror, d.epoch)
      ensures e !in after.stale && KnownSeen(db, ScopeOf(d, e), d.locals[e].mirror, d.epoch) ==>
                KnownSeen(db, ScopeOf(after, e), d.locals[e].mirror, d.epoch)
    {
      assert LocalBase(db, log, d.locals[e], d.epoch, d.swept);
      if e !in after.stale {
        UnexposedStaysOk(db, d, e, sees);
        UnexposedStaysSeen(db, d, e, sees);
      }
    }
  }

  // ---- what a device does ----

  lemma StartRefetchKeeps(db: Db, log: Log, d: Device, after: Device)
    requires Sound(db) && DeviceOk(db, log, d) && Acts(db, d, StartRefetch, after)
    ensures DeviceOk(db, log, after)
  {
    forall e | 0 <= e < |ENTITIES|
      ensures LocalBase(db, log, after.locals[e], after.epoch, after.swept)
      ensures Unseen(after.locals[e].mirror, after.epoch)
      ensures e !in after.stale ==> LocalOk(db, ScopeOf(after, e), after.locals[e], after.epoch)
    {
      assert LocalBase(db, log, d.locals[e], d.epoch, d.swept);
    }
  }

  lemma AskIsPageOk(db: Db, log: Log, d: Device, after: Device)
    requires Sound(db) && LogOk(db, log) && DeviceOk(db, log, d) && Acts(db, d, Ask, after)
    requires !Refusable(db, d.tenant, d.task.cursor)
    ensures after.task.Walking? && after.task.reply.Some?
    ensures PageOk(db, log, after, d.task.entity, d.task.cursor, d.task.full, after.task.reply.value)
  {
    var e, c, s := d.task.entity, d.task.cursor, ScopeOf(d, d.task.entity);
    assert LocalBase(db, log, d.locals[e], d.epoch, d.swept);
    assert Closed(db, log, c.stamp);
    ServedCursor(db, log, s, c, d.limit);
    if Trusted(after, e, c, d.task.full) {
      ServedReplyOk(db, s, c, d.limit, d.locals[e], d.epoch);
      if d.task.full {
        if c == ZERO {
          NothingPassedAtZero(db, s, d.locals[e].mirror, d.epoch, c);
        }
        ServedCloses(db, s, c, d.limit, d.locals[e].mirror, d.epoch);
      }
    }
  }

  lemma AskKeeps(db: Db, log: Log, d: Device, after: Device)
    requires Sound(db) && LogOk(db, log) && DeviceOk(db, log, d) && Acts(db, d, Ask, after)
    ensures DeviceOk(db, log, after)
  {
    if !Refusable(db, d.tenant, d.task.cursor) {
      AskIsPageOk(db, log, d, after);
      if d.task.full {
        SameRefetch(db, d, after, d.task.entity, if d.task.cursor == ZERO then d.task.entity else d.task.entity + 1);
      }
    }
  }

  lemma SameRefetch(db: Db, d: Device, after: Device, done: nat, begun: nat)
    requires Sized(d) && RefetchOk(db, d, done, begun)
    requires after.locals == d.locals && after.epoch == d.epoch && after.swept == d.swept
    requires after.stale == d.stale && after.tenant == d.tenant && after.sees == d.sees
    ensures Sized(after) ==> RefetchOk(db, after, done, begun)
  {
  }

  lemma DeliverKeepsLocals(db: Db, log: Log, d: Device, after: Device)
    requires Sound(db) && DeviceOk(db, log, d) && Acts(db, d, Deliver, after)
    ensures LocalsOk(db, log, after)
  {
    var e, c, page := d.task.entity, d.task.cursor, d.task.reply.value;
    forall k | 0 <= k < |ENTITIES|
      ensures LocalBase(db, log, after.locals[k], after.epoch, after.swept)
      ensures k !in after.stale ==> LocalOk(db, ScopeOf(after, k), after.locals[k], after.epoch)
    {
      assert LocalBase(db, log, d.locals[k], d.epoch, d.swept);
      if k == e {
        ApplyKeepsBase(db, log, d.locals[e].mirror, page.items, d.epoch, d.swept);
        if e !in after.stale {
          PageKeepsLocal(db, ScopeOf(d, e), c, page, d.locals[e], d.epoch);
        }
      }
    }
  }

  lemma DeliverRefreshes(db: Db, log: Log, d: Device, after: Device)
    requires Sound(db) && DeviceOk(db, log, d) && Acts(db, d, Deliver, after) && d.task.full
    requires d.task.entity !in after.stale
    ensures var e := d.task.entity;
            && Refreshed(db, ScopeOf(d, e), after.locals[e].cursor, after.locals[e].mirror, d.epoch)
            && (!d.task.reply.value.hasMore ==> KnownSeen(db, ScopeOf(d, e), after.locals[e].mirror, d.epoch))
  {
    var e, c, page, s := d.task.entity, d.task.cursor, d.task.reply.value, ScopeOf(d, d.task.entity);
    if c == ZERO {
      NothingPassedAtZero(db, s, d.locals[e].mirror, d.epoch, c);
    }
    PageRefreshes(db, s, c, page, d.locals[e].mirror, d.epoch);
    if !page.hasMore {
      PageCloses(db, s, c, page, d.locals[e].mirror, d.epoch);
    }
  }

  lemma DeliverKeepsRefetch(db: Db, log: Log, d: Device, after: Device)
    requires Sound(db) && DeviceOk(db, log, d) && Acts(db, d, Deliver, after) && d.task.full
    ensures RefetchOk(db, after, if d.task.reply.value.hasMore then d.task.entity else d.task.entity + 1,
                      d.task.entity + 1)
  {
    var e := d.task.entity;
    if e !in after.stale {
      DeliverRefreshes(db, log, d, after);
    }
    assert forall k :: 0 <= k < |ENTITIES| && k != e ==>
        after.locals[k] == d.locals[k] && (k in after.stale <==> k in d.stale);
  }

  lemma DeliverKeeps(db: Db, log: Log, d: Device, after: Device)
    requires Sound(db) && DeviceOk(db, log, d) && Acts(db, d, Deliver, after)
    ensures DeviceOk(db, log, after)
  {
    DeliverKeepsLocals(db, log, d, after);
    if d.task.full {
      DeliverKeepsRefetch(db, log, d, after);
    }
  }

  lemma SweepKeepsLocal(db: Db, s: Scope, local: Local, epoch: nat)
    requires LocalOk(db, s, local, epoch) && Refreshed(db, s, local.cursor, local.mirror, epoch)
    ensures var after := Local(local.cursor, Swept(local.mirror, epoch));
            && LocalOk(db, s, after, epoch)
            && Refreshed(db, s, after.cursor, after.mirror, epoch)
  {
  }

  lemma SweepKeeps(db: Db, log: Log, d: Device, after: Device)
    requires Sound(db) && DeviceOk(db, log, d) && Acts(db, d, Sweep, after)
    ensures DeviceOk(db, log, after)
  {
    var e := d.task.entity;
    forall k | 0 <= k < |ENTITIES|
      ensures LocalBase(db, log, after.locals[k], after.epoch, after.swept)
      ensures k !in after.stale ==>
                && LocalOk(db, ScopeOf(after, k), after.locals[k], after.epoch)
                && Refreshed(db, ScopeOf(after, k), after.locals[k].cursor, after.locals[k].mirror, after.epoch)
                && KnownSeen(db, ScopeOf(after, k), after.locals[k].mirror, after.epoch)
      ensures k <= e ==> AllSeen(after.locals[k].mirror, after.epoch)
    {
      assert LocalBase(db, log, d.locals[k], d.epoch, d.swept);
      if k == e && k !in d.stale {
        SweepKeepsLocal(db, ScopeOf(d, e), d.locals[e], d.epoch);
      }
    }
  }

  lemma ActKeepsDevice(db: Db, log: Log, d: Device, action: Action, after: Device)
    requires Sound(db) && LogOk(db, log) && DeviceOk(db, log, d) && Acts(db, d, action, after)
    ensures DeviceOk(db, log, after)
  {
    match action
    case StartRound =>
    case StartRefetch => StartRefetchKeeps(db, log, d, after);
    case Ask => AskKeeps(db, log, d, after);
    case Deliver => DeliverKeeps(db, log, d, after);
    case Sweep => SweepKeeps(db, log, d, after);
    case Finish =>
    case Kill =>
  }

  lemma NewDeviceOk(db: Db, log: Log, d: Device)
    requires Sound(db) && LogOk(db, log) && NewDevice(d, db)
    ensures DeviceOk(db, log, d)
  {
    forall e | 0 <= e < |ENTITIES|
      ensures LocalBase(db, log, d.locals[e], d.epoch, d.swept)
      ensures LocalOk(db, ScopeOf(d, e), d.locals[e], d.epoch)
    {
      NothingPassedAtZero(db, ScopeOf(d, e), d.locals[e].mirror, d.epoch, ZERO);
    }
  }

  /** Every step keeps the invariant: draws, commits, reaps, visibility, and each page, sweep and kill. */
  lemma StepKeepsInv(w: World, step: Step, v: World)
    requires Inv(w) && Next(w, step, v)
    ensures Inv(v)
  {
    match step
    case Draw => DrawKeepsInv(w, v);
    case Commit(values) => CommitKeepsInv(w, v, values);
    case Reap(cutoff) => ReapKeepsInv(w, v, cutoff);
    case Enroll(d) => NewDeviceOk(w.db, w.log, v.devices[d]);
    case Rescope(d, sees) => RescopeKeepsDevice(w.db, w.log, w.devices[d], sees);
    case Act(d, action) => ActKeepsDevice(w.db, w.log, w.devices[d], action, v.devices[d]);
  }

  lemma {:induction false} RunKeepsInv(run: seq<World>, steps: seq<Step>, i: nat)
    requires IsRun(run, steps) && i < |run|
    ensures Inv(run[i])
  {
    if i > 0 {
      RunKeepsInv(run, steps, i - 1);
      assert StepsTo(run, steps, i - 1);
      StepKeepsInv(run[i - 1], steps[i - 1], run[i]);
    }
  }
}
