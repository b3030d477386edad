/**
 * What a device may rely on: where its lost rows can be, what a sweep drops, when its mirror is exactly
 * what its member may see, and which cursors a watermark lets pass (backend/app/core/deletion.py:203-267,
 * backend/app/routers/sync.py:74-122, apps/mobile/src/data/pull.ts:27-96).
 */
module SyncResults {
  import opened Records
  import opened Reaper
  import opened SyncPull
  import opened SyncProtocol
  import opened SyncInvariant
  import opened SyncSafety

  // ---- lost rows ----

  /**
   * At any moment of any run, a row a device mirrors and the server has lost is on an entity whose next
   * incremental pull will be refused, or it was last delivered before a refetch that has not finished, or
   * its entity is stale.
   */
  lemma LostRowsAreExcused(run: seq<World>, steps: seq<Step>, i: nat, d: Id, e: nat, id: Id)
    requires IsRun(run, steps) && i < |run| && d in run[i].devices
    requires e < |ENTITIES| && e < |run[i].devices[d].locals| && id in run[i].devices[d].locals[e].mirror
    ensures var db, device := run[i].db, run[i].devices[d];
            || Known(db, ScopeOf(device, e), id)
            || Refusable(db, device.tenant, device.locals[e].cursor)
            || (device.locals[e].mirror[id].epoch < device.epoch && device.swept < device.epoch)
            || e in device.stale
  {
    RunKeepsInv(run, steps, i);
    var device := run[i].devices[d];
    assert DeviceOk(run[i].db, run[i].log, device);
    assert LocalBase(run[i].db, run[i].log, device.locals[e], device.epoch, device.swept);
  }

  /**
   * A sweep drops only rows the server no longer has under that id, live or deleted, and keeps a lost row
   * only where the next pull will be refused: one that was reaped after the refetch had delivered it.
   */
  lemma SweepDropsOnlyLost(run: seq<World>, steps: seq<Step>, i: nat, d: Id)
    requires IsRun(run, steps) && i < |steps| && steps[i] == Act(d, Sweep) && d in run[i].devices
    requires var task := run[i].devices[d].task; task.Sweeping? && task.entity !in run[i].devices[d].stale
    ensures d in run[i + 1].devices && Sized(run[i].devices[d]) && Sized(run[i + 1].devices[d])
    ensures run[i].devices[d].task.entity < |ENTITIES|
    ensures var device, e := run[i].devices[d], run[i].devices[d].task.entity;
            var before, after := device.locals[e].mirror, run[i + 1].devices[d].locals[e].mirror;
            && (forall id :: id in before && id !in after ==> !Known(run[i].db, ScopeOf(device, e), id))
            && (forall id :: id in after ==> id in before && after[id] == before[id])
            && forall id :: id in after && !Known(run[i].db, ScopeOf(device, e), id) ==>
                 Refusable(run[i].db, device.tenant, device.locals[e].cursor)
  {
    RunKeepsInv(run, steps, i);
    RunKeepsInv(run, steps, i + 1);
    assert StepsTo(run, steps, i);
    var device, after, e := run[i].devices[d], run[i + 1].devices[d], run[i].devices[d].task.entity;
    assert DeviceOk(run[i].db, run[i].log, device) && DeviceOk(run[i].db, run[i].log, after);
    assert RefetchOk(run[i].db, device, |ENTITIES|, |ENTITIES|);
    assert LocalOk(run[i].db, ScopeOf(after, e), after.locals[e], after.epoch);
  }

  /** A page with more to come always moves the cursor, so the client's guard against spinning never fires. */
  lemma PagesAdvance(db: Db, s: Scope, since: Cursor, limit: nat)
    requires Sound(db) && Synced(s.table) && limit > 0
    ensures var page := Served(db, s, since, limit);
            page.Page? && page.hasMore ==> page.next != since && page.items != []
  {
    if !Refusable(db, s.tenant, since) {
      var rest := Tail(View(db, s), since);
      PageIsPrefix(View(db, s), Watermark(db, s.tenant), since, limit);
      assert |rest| > limit ==> rest[limit - 1] in rest;
    }
  }

  // ---- exact mirrors ----

  /** The mirror holds exactly the scope's live rows, each in its current version. */
  ghost predicate Exact(db: Db, s: Scope, mirror: map<Id, Entry>) {
    && AllKnown(db, s, mirror)
    && forall id :: Known(db, s, id) ==> Agrees(mirror, id, db.rows[id])
  }

  /** The cursor is at or past the watermark and has passed every row in scope. */
  ghost predicate CaughtUp(db: Db, s: Scope, c: Cursor) {
    && c.stamp >= Watermark(db, s.tenant)
    && forall id :: Known(db, s, id) ==> Passed(c, id, db.rows[id], s)
  }

  /** What an incremental walk starts from: nothing lost is mirrored, and what is passed is as on the server. */
  ghost predicate Truthful(db: Db, s: Scope, local: Local) {
    Current(db, s, local.cursor, local.mirror) && AllKnown(db, s, local.mirror)
  }

  /** A cursor that has passed a row still has after a page. */
  lemma NextIsLater(db: Db, s: Scope, since: Cursor, limit: nat, r: SyncRow)
    requires Sound(db) && Synced(s.table) && limit > 0 && !Refusable(db, s.tenant, since) && !After(since, r)
    ensures !After(Served(db, s, since, limit).next, r)
  {
    var page, rest := Served(db, s, since, limit), Tail(View(db, s), since);
    PageIsPrefix(View(db, s), Watermark(db, s.tenant), since, limit);
    if page.hasMore {
      assert rest[limit - 1] in rest;
    } else {
      assert rest != [] ==> rest[|rest| - 1] in rest;
    }
  }

  /** The last page of a walk leaves nothing after its cursor. */
  lemma LastPageCatchesUp(db: Db, s: Scope, since: Cursor, limit: nat)
    requires Sound(db) && Synced(s.table) && limit > 0 && !Refusable(db, s.tenant, since)
    requires !Served(db, s, since, limit).hasMore
    ensures CaughtUp(db, s, Served(db, s, since, limit).next)
  {
    var stream := View(db, s);
    var rest, page := Tail(stream, since), Served(db, s, since, limit);
    PageIsPrefix(stream, Watermark(db, s.tenant), since, limit);
    forall id | Known(db, s, id)
      ensures !After(page.next, AsSyncRow(id, db.rows[id]))
    {
      var r := AsSyncRow(id, db.rows[id]);
      RestRows(db, s, since, r);
      if !After(since, r) {
        NextIsLater(db, s, since, limit, r);
      }
    }
  }

  lemma CaughtUpIsExactIff(db: Db, s: Scope, local: Local)
    requires CaughtUp(db, s, local.cursor)
    ensures Exact(db, s, local.mirror) <==> Truthful(db, s, local)
  {
  }

  /** With no refetch left unfinished, an entity at or past the watermark mirrors nothing the server lacks. */
  lemma SweptIsKnown(db: Db, log: Log, d: Device, e: nat)
    requires DeviceOk(db, log, d) && d.swept == d.epoch && e < |ENTITIES| && e !in d.stale
    requires !Refusable(db, d.tenant, d.locals[e].cursor)
    ensures Truthful(db, ScopeOf(d, e), d.locals[e])
  {
    assert LocalBase(db, log, d.locals[e], d.epoch, d.swept);
  }

  // ---- a page makes a mirror neither more nor less truthful ----

  lemma KnownAfterPage(db: Db, s: Scope, mirror: map<Id, Entry>, items: seq<SyncRow>, epoch: nat)
    requires OneRowPerId(items) && forall r :: r in items ==> Known(db, s, r.id)
    ensures AllKnown(db, s, Apply(mirror, items, epoch)) <==> AllKnown(db, s, mirror)
  {
    forall id
      ensures !Known(db, s, id) ==> (id in Apply(mirror, items, epoch) <==> id in mirror)
    {
      ApplyAt(mirror, items, epoch, id);
    }
  }

  lemma CurrentAfterPage(db: Db, s: Scope, since: Cursor, limit: nat, mirror: map<Id, Entry>, epoch: nat)
    requires Sound(db) && Synced(s.table) && limit > 0 && !Refusable(db, s.tenant, since)
    ensures var page := Served(db, s, since, limit);
            && page.Page?
            && (Current(db, s, page.next, Apply(mirror, page.items, epoch)) <==> Current(db, s, since, mirror))
  {
    var page := Served(db, s, since, limit);
    ServedItems(db, s, since, limit);
    var after := Apply(mirror, page.items, epoch);
    forall id | id in db.rows && Passed(since, id, db.rows[id], s)
      ensures Passed(page.next, id, db.rows[id], s)
      ensures Agrees(after, id, db.rows[id]) <==> Agrees(mirror, id, db.rows[id])
    {
      NextIsLater(db, s, since, limit, AsSyncRow(id, db.rows[id]));
      ApplyMisses(mirror, page.items, epoch, id);
    }
    forall id | id in db.rows && Passed(page.next, id, db.rows[id], s) && !Passed(since, id, db.rows[id], s)
      ensures Agrees(after, id, db.rows[id])
    {
      ApplyHits(mirror, page.items, epoch, AsSyncRow(id, db.rows[id]));
    }
  }

  lemma PageKeepsTruth(db: Db, s: Scope, limit: nat, local: Local, epoch: nat)
    requires Sound(db) && Synced(s.table) && limit > 0 && !Refusable(db, s.tenant, local.cursor)
    ensures var page := Served(db, s, local.cursor, limit);
            && page.Page?
            && (Truthful(db, s, Local(page.next, Apply(local.mirror, page.items, epoch))) <==>
                Truthful(db, s, local))
  {
    ServedItems(db, s, local.cursor, limit);
    CurrentAfterPage(db, s, local.cursor, limit, local.mirror, epoch);
    KnownAfterPage(db, s, local.mirror, Served(db, s, local.cursor, limit).items, epoch);
  }

  // ---- the last page of an entity ----

  predicate StepOf(step: Step, d: Id) { step.Act? && step.device == d }

  /** The app changes by its own steps only. */
  lemma {:induction false} Untouched(run: seq<World>, steps: seq<Step>, i: nat, j: nat, d: Id)
    requires IsRun(run, steps) && i <= j < |run| && d in run[i].devices
    requires forall k :: i <= k < j ==> !StepOf(steps[k], d)
    ensures d in run[j].devices && SameApp(run[i].devices[d], run[j].devices[d])
    decreases j - i
  {
    if i < j {
      assert StepsTo(run, steps, i);
      Untouched(run, steps, i + 1, j, d);
    }
  }

  /**
   * Whatever is committed, reaped or hidden while it is under way: when an incremental walk's last page is
   * delivered, the entity's mirror is exactly what the server had, live and visible, when it answered, if
   * and only if it mirrored nothing then that the server had lost; with no unfinished refetch before it,
   * it is.
   */
  lemma LastPageIsExact(run: seq<World>, steps: seq<Step>, i: nat, j: nat, d: Id)
    requires IsRun(run, steps) && i < j < |steps| && steps[i] == Act(d, Ask) && steps[j] == Act(d, Deliver)
    requires forall k :: i < k < j ==> !StepOf(steps[k], d)
    requires d in run[i].devices && d in run[i + 1].devices
    requires var task := run[i + 1].devices[d].task;
             && task.Walking? && !task.full && task.entity !in run[i].devices[d].stale
             && task.reply.Some? && task.reply.value.Page? && !task.reply.value.hasMore
    ensures var device, e := run[i].devices[d], run[i + 1].devices[d].task.entity;
            && e < |ENTITIES| && e < |device.locals|
            && d in run[j + 1].devices && e < |run[j + 1].devices[d].locals|
            && var exact := Exact(run[i].db, ScopeOf(device, e), run[j + 1].devices[d].locals[e].mirror);
               && (exact <==> AllKnown(run[i].db, ScopeOf(device, e), device.locals[e].mirror))
               && (device.swept == device.epoch ==> exact)
  {
    RunKeepsInv(run, steps, i);
    assert StepsTo(run, steps, i) && StepsTo(run, steps, j);
    var db, device, e := run[i].db, run[i].devices[d], run[i].devices[d].task.entity;
    assert DeviceOk(db, run[i].log, device);
    var s, local := ScopeOf(device, e), device.locals[e];
    assert LocalOk(db, s, local, device.epoch) && local.cursor == device.task.cursor;
    PageKeepsTruth(db, s, device.limit, local, device.epoch);
    LastPageCatchesUp(db, s, local.cursor, device.limit);
    var page := Served(db, s, local.cursor, device.limit);
    CaughtUpIsExactIff(db, s, Local(page.next, Apply(local.mirror, page.items, device.epoch)));
    if device.swept == device.epoch {
      SweptIsKnown(db, run[i].log, device, e);
    }
    Untouched(run, steps, i + 1, j, d);
  }

  // ---- whole rounds over a quiet server ----

  predicate Walks(action: Action) { action.Ask? || action.Deliver? || action.Sweep? }

  predicate Rescopes(step: Step, d: Id) { step.Rescope? && step.device == d }

  /** Nothing is committed and nothing changes visibility, and the device only carries on with what it does. */
  ghost predicate Undisturbed(run: seq<World>, steps: seq<Step>, i: nat, j: nat, d: Id) {
    && i <= j < |run| && |run| == |steps| + 1
    && (forall k :: i <= k <= j ==> run[k].db == run[i].db)
    && forall k :: i <= k < j ==> !Rescopes(steps[k], d) && (StepOf(steps[k], d) ==> Walks(steps[k].action))
  }

  /** A step that changes no row leaves every other device as it is. */
  lemma QuietStep(w: World, step: Step, v: World, d: Id)
    requires Next(w, step, v) && v.db == w.db && d in w.devices && !StepOf(step, d) && !Rescopes(step, d)
    ensures d in v.devices && v.devices[d] == w.devices[d]
  {
    if step.Commit? {
      assert forall id :: !Changed(w.db, v.db, id);
      assert Overtaken(w.db, v.db, w.devices[d]) == {};
      assert w.devices[d].stale + {} == w.devices[d].stale;
    }
  }

  ghost predicate AllCaughtUp(db: Db, d: Device, walked: nat)
    requires Sized(d)
  {
    forall e :: 0 <= e < |ENTITIES| && e < walked ==> CaughtUp(db, ScopeOf(d, e), d.locals[e].cursor)
  }

  predicate NoneStale(d: Device, walked: nat) { forall e :: 0 <= e < walked ==> e !in d.stale }

  /** The entities walked so far are caught up; a reply under way is what the server would answer now. */
  ghost predicate Underway(db: Db, d: Device, full: bool)
    requires Sound(db) && Sized(d)
  {
    match d.task
    case Idle => true
    case Walking(e, c, f, reply) =>
      && f == full && e < |ENTITIES| && AllCaughtUp(db, d, e)
      && (if full then NoneStale(d, e) && (c != ZERO ==> e !in d.stale) else c == d.locals[e].cursor)
      && (reply.Some? ==>
           reply.value == Served(db, ScopeOf(d, e), c, d.limit) && reply.value.Page? && d.intact)
    case Sweeping(_) => full && AllCaughtUp(db, d, |ENTITIES|) && NoneStale(d, |ENTITIES|)
    case Finished(f) =>
      && f == full && AllCaughtUp(db, d, |ENTITIES|)
      && (full ==> d.swept == d.epoch && NoneStale(d, |ENTITIES|))
  }

  lemma DeliverIsUnderway(db: Db, d: Device, after: Device, full: bool)
    requires Sound(db) && Sized(d) && TaskSized(d.task) && Underway(db, d, full) && Acts(db, d, Deliver, after)
    ensures Underway(db, after, full)
  {
    var e, c := d.task.entity, d.task.cursor;
    if !d.task.reply.value.hasMore {
      LastPageCatchesUp(db, ScopeOf(d, e), c, d.limit);
    }
  }

  lemma ActIsUnderway(db: Db, d: Device, action: Action, after: Device, full: bool)
    requires Sound(db) && Sized(d) && TaskSized(d.task) && Underway(db, d, full) && Acts(db, d, action, after)
    requires Walks(action)
    ensures Underway(db, after, full) && after.epoch == d.epoch && SameScopes(d, after)
    ensures !full ==> after.swept == d.swept && after.stale == d.stale
  {
    if action == Deliver {
      DeliverIsUnderway(db, d, after, full);
    }
  }

  predicate SameScopes(d: Device, e: Device) { e.tenant == d.tenant && e.sees == d.sees && e.limit == d.limit }

  lemma {:induction false} RunIsUnderway(run: seq<World>, steps: seq<Step>, i: nat, j: nat, d: Id, full: bool)
    requires IsRun(run, steps) && Undisturbed(run, steps, i, j, d) && Sound(run[i].db)
    requires d in run[i].devices && Sized(run[i].devices[d]) && Underway(run[i].db, run[i].devices[d], full)
    ensures d in run[j].devices && Sized(run[j].devices[d]) && Underway(run[i].db, run[j].devices[d], full)
    ensures var was, now := run[i].devices[d], run[j].devices[d];
            && now.epoch == was.epoch && SameScopes(was, now)
            && (!full ==> now.swept == was.swept && now.stale == was.stale)
    decreases j - i
  {
    if i < j {
      RunIsUnderway(run, steps, i, j - 1, d, full);
      assert StepsTo(run, steps, j - 1);
      if StepOf(steps[j - 1], d) {
        ActIsUnderway(run[i].db, run[j - 1].devices[d], steps[j - 1].action, run[j].devices[d], full);
      } else {
        QuietStep(run[j - 1], steps[j - 1], run[j], d);
      }
    }
  }

  // ---- incremental rounds ----

  lemma ActKeepsTruth(db: Db, d: Device, action: Action, after: Device, e: nat)
    requires Sound(db) && Sized(d) && TaskSized(d.task) && Underway(db, d, false) && Acts(db, d, action, after)
    requires Walks(action) && e < |ENTITIES|
    ensures Truthful(db, ScopeOf(after, e), after.locals[e]) <==> Truthful(db, ScopeOf(d, e), d.locals[e])
  {
    if action == Deliver && d.task.entity == e {
      PageKeepsTruth(db, ScopeOf(d, e), d.limit, d.locals[e], d.epoch);
    }
  }

  lemma {:induction false} RunKeepsTruth(run: seq<World>, steps: seq<Step>, i: nat, j: nat, d: Id, e: nat)
    requires IsRun(run, steps) && Undisturbed(run, steps, i, j, d) && Sound(run[i].db) && e < |ENTITIES|
    requires d in run[i].devices && Sized(run[i].devices[d]) && Underway(run[i].db, run[i].devices[d], false)
    ensures d in run[j].devices && Sized(run[j].devices[d])
    ensures var was, now := run[i].devices[d], run[j].devices[d];
            Truthful(run[i].db, ScopeOf(now, e), now.locals[e]) <==>
            Truthful(run[i].db, ScopeOf(was, e), was.locals[e])
    decreases j - i
  {
    if i < j {
      RunKeepsTruth(run, steps, i, j - 1, d, e);
      RunIsUnderway(run, steps, i, j - 1, d, false);
      assert StepsTo(run, steps, j - 1);
      if StepOf(steps[j - 1], d) {
        ActKeepsTruth(run[i].db, run[j - 1].devices[d], steps[j - 1].action, run[j].devices[d], e);
      } else {
        QuietStep(run[j - 1], steps[j - 1], run[j], d);
      }
    }
  }

  /** A round that starts now, and is at its end at `j`, with nothing committed or made visible meanwhile. */
  ghost predicate QuietRound(run: seq<World>, steps: seq<Step>, i: nat, j: nat, d: Id) {
    && IsRun(run, steps) && i < j < |run| && steps[i] == Act(d, StartRound)
    && Undisturbed(run, steps, i + 1, j, d) && d in run[i].devices
    && d in run[j].devices && run[j].devices[d].task == Finished(false)
  }

  lemma QuietRoundFacts(run: seq<World>, steps: seq<Step>, i: nat, j: nat, d: Id, e: nat)
    requires QuietRound(run, steps, i, j, d) && e < |ENTITIES|
    ensures run[j].db == run[i].db && Sound(run[i].db) && Sized(run[i].devices[d]) && Sized(run[j].devices[d])
    ensures var was, now := run[i].devices[d], run[j].devices[d];
            && SameScopes(was, now) && now.swept == was.swept && now.epoch == was.epoch && now.stale == was.stale
            && CaughtUp(run[i].db, ScopeOf(was, e), now.locals[e].cursor)
            && (Truthful(run[i].db, ScopeOf(was, e), now.locals[e]) <==>
                Truthful(run[i].db, ScopeOf(was, e), was.locals[e]))
  {
    assert StepsTo(run, steps, i);
    RunIsUnderway(run, steps, i + 1, j, d, false);
    RunKeepsTruth(run, steps, i + 1, j, d, e);
  }

  /**
   * A round over a quiet server that reaches its end leaves a mirror equal to what the server has, live
   * and visible, exactly when the mirror was truthful at its start, whatever state the device was in.
   */
  lemma RoundIsExactIff(run: seq<World>, steps: seq<Step>, i: nat, j: nat, d: Id, e: nat)
    requires QuietRound(run, steps, i, j, d) && e < |ENTITIES|
    ensures Sized(run[i].devices[d]) && Sized(run[j].devices[d])
    ensures Exact(run[j].db, ScopeOf(run[j].devices[d], e), run[j].devices[d].locals[e].mirror) <==>
            Truthful(run[i].db, ScopeOf(run[i].devices[d], e), run[i].devices[d].locals[e])
  {
    QuietRoundFacts(run, steps, i, j, d, e);
    CaughtUpIsExactIff(run[i].db, ScopeOf(run[i].devices[d], e), run[j].devices[d].locals[e]);
  }

  lemma SettledIsExact(db: Db, log: Log, d: Device, e: nat)
    requires DeviceOk(db, log, d) && d.swept == d.epoch && e < |ENTITIES| && e !in d.stale
    requires CaughtUp(db, ScopeOf(d, e), d.locals[e].cursor)
    ensures Exact(db, ScopeOf(d, e), d.locals[e].mirror)
  {
    SweptIsKnown(db, log, d, e);
    CaughtUpIsExactIff(db, ScopeOf(d, e), d.locals[e]);
  }

  /** And it was truthful if no refetch before it was cut off and the entity is not stale. */
  lemma FinishedRoundIsExact(run: seq<World>, steps: seq<Step>, i: nat, j: nat, d: Id, e: nat)
    requires QuietRound(run, steps, i, j, d) && e < |ENTITIES|
    requires run[i].devices[d].swept == run[i].devices[d].epoch && e !in run[i].devices[d].stale
    ensures Sized(run[j].devices[d])
    ensures Exact(run[j].db, ScopeOf(run[j].devices[d], e), run[j].devices[d].locals[e].mirror)
  {
    QuietRoundFacts(run, steps, i, j, d, e);
    RunKeepsInv(run, steps, j);
    SettledIsExact(run[j].db, run[j].log, run[j].devices[d], e);
  }

  // ---- refetches ----

  /** A refetch over a quiet server that reaches its end does so whatever the device held before. */
  lemma FinishedRefetchIsExact(run: seq<World>, steps: seq<Step>, i: nat, j: nat, d: Id, e: nat)
    requires IsRun(run, steps) && i < j < |run| && steps[i] == Act(d, StartRefetch) && e < |ENTITIES|
    requires Undisturbed(run, steps, i + 1, j, d) && d in run[j].devices && run[j].devices[d].task == Finished(true)
    ensures Sized(run[j].devices[d]) && NoneStale(run[j].devices[d], |ENTITIES|)
    ensures Exact(run[j].db, ScopeOf(run[j].devices[d], e), run[j].devices[d].locals[e].mirror)
  {
    assert StepsTo(run, steps, i);
    RunIsUnderway(run, steps, i + 1, j, d, true);
    RunKeepsInv(run, steps, j);
    SettledIsExact(run[j].db, run[j].log, run[j].devices[d], e);
  }

  ghost predicate MirrorsKnown(db: Db, d: Device)
    requires Sized(d)
  {
    forall e :: 0 <= e < |ENTITIES| ==> AllKnown(db, ScopeOf(d, e), d.locals[e].mirror)
  }

  lemma ActKeepsLost(db: Db, d: Device, action: Action, after: Device, full: bool)
    requires Sound(db) && Sized(d) && TaskSized(d.task) && Underway(db, d, full) && Acts(db, d, action, after)
    requires action.Ask? || action.Deliver?
    ensures MirrorsKnown(db, after) <==> MirrorsKnown(db, d)
  {
    if action == Deliver {
      var e, c := d.task.entity, d.task.cursor;
      var local, page := d.locals[e], d.task.reply.value;
      ServedItems(db, ScopeOf(d, e), c, d.limit);
      KnownAfterPage(db, ScopeOf(d, e), local.mirror, page.items, d.epoch);
      assert forall k :: 0 <= k < |ENTITIES| && k != e ==> after.locals[k] == d.locals[k];
      assert after.locals[e].mirror == Apply(local.mirror, page.items, d.epoch);
    }
  }

  lemma {:induction false} RunKeepsLost(run: seq<World>, steps: seq<Step>, i: nat, j: nat, d: Id, full: bool)
    requires IsRun(run, steps) && Undisturbed(run, steps, i, j, d) && Sound(run[i].db)
    requires d in run[i].devices && Sized(run[i].devices[d]) && Underway(run[i].db, run[i].devices[d], full)
    requires forall k :: i <= k < j && StepOf(steps[k], d) ==> !steps[k].action.Sweep?
    ensures d in run[j].devices && Sized(run[j].devices[d])
    ensures MirrorsKnown(run[i].db, run[j].devices[d]) <==> MirrorsKnown(run[i].db, run[i].devices[d])
    decreases j - i
  {
    if i < j {
      RunKeepsLost(run, steps, i, j - 1, d, full);
      RunIsUnderway(run, steps, i, j - 1, d, full);
      assert StepsTo(run, steps, j - 1);
      if StepOf(steps[j - 1], d) {
        ActKeepsLost(run[i].db, run[j - 1].devices[d], steps[j - 1].action, run[j].devices[d], full);
      } else {
        QuietStep(run[j - 1], steps[j - 1], run[j], d);
      }
    }
  }

  ghost predicate Faithful(db: Db, d: Device)
    requires Sized(d)
  {
    forall e :: 0 <= e < |ENTITIES| ==> Exact(db, ScopeOf(d, e), d.locals[e].mirror)
  }

  /**
   * A refetch over a quiet server, after its last page and before its first sweep: every cursor is at or
   * past the watermark, so no later round is refused; and if the app is killed there, the mirrors are
   * exact precisely when the device held no row the server lacked to begin with.
   */
  lemma UnsweptRefetchIsExactIff(run: seq<World>, steps: seq<Step>, i: nat, j: nat, d: Id)
    requires IsRun(run, steps) && i < j < |run| && steps[i] == Act(d, StartRefetch)
    requires Undisturbed(run, steps, i + 1, j, d) && d in run[j].devices && run[j].devices[d].task == Sweeping(0)
    requires forall k :: i < k < j && StepOf(steps[k], d) ==> !steps[k].action.Sweep?
    ensures d in run[i].devices && Sized(run[i].devices[d]) && Sized(run[j].devices[d])
    ensures AllCaughtUp(run[j].db, run[j].devices[d], |ENTITIES|)
    ensures Faithful(run[j].db, run[j].devices[d]) <==> MirrorsKnown(run[j].db, run[i].devices[d])
  {
    assert StepsTo(run, steps, i);
    RunIsUnderway(run, steps, i + 1, j, d, true);
    RunKeepsLost(run, steps, i + 1, j, d, true);
    RunKeepsInv(run, steps, j);
    var db, device := run[j].db, run[j].devices[d];
    assert MirrorsKnown(db, device) <==> MirrorsKnown(db, run[i].devices[d]);
    forall e | 0 <= e < |ENTITIES|
      ensures Exact(db, ScopeOf(device, e), device.locals[e].mirror) <==>
              AllKnown(db, ScopeOf(device, e), device.locals[e].mirror)
    {
      assert LocalOk(db, ScopeOf(device, e), device.locals[e], device.epoch);
      CaughtUpIsExactIff(db, ScopeOf(device, e), device.locals[e]);
    }
  }

  // ---- watermarks over runs ----

  lemma StepMoves(w: World, step: Step, v: World, tenant: Id)
    requires Next(w, step, v) && tenant in w.db.marks
    ensures w.db.drawn <= v.db.drawn && tenant in v.db.marks && w.db.marks[tenant] <= v.db.marks[tenant]
    ensures step.Reap? && tenant in TenantsOf(w.db.rows, Due(w.db.rows, step.cutoff)) ==>
              w.db.drawn < v.db.marks[tenant]
    ensures !(step.Reap? && tenant in TenantsOf(w.db.rows, Due(w.db.rows, step.cutoff))) ==>
              v.db.marks[tenant] == w.db.marks[tenant]
  {
    if step.Reap? {
      var touched := tenant in TenantsOf(w.db.rows, Due(w.db.rows, step.cutoff));
      assert MarkMoved(touched, w.db.marks[tenant], v.db.marks[tenant], w.db.drawn, v.db.drawn);
    }
  }

  lemma {:induction false} WatermarksNeverFall(run: seq<World>, steps: seq<Step>, i: nat, j: nat, tenant: Id)
    requires IsRun(run, steps) && i <= j < |run| && tenant in run[i].db.marks
    ensures run[i].db.drawn <= run[j].db.drawn
    ensures tenant in run[j].db.marks && run[i].db.marks[tenant] <= run[j].db.marks[tenant]
    decreases j - i
  {
    if i < j {
      assert StepsTo(run, steps, i);
      StepMoves(run[i], steps[i], run[i + 1], tenant);
      WatermarksNeverFall(run, steps, i + 1, j, tenant);
    }
  }

  /**
   * A cursor that passes the watermark check was issued after the last reap of its tenant: every value
   * drawn, and so every cursor stored on a device or on its way to one, before that reap is refused from
   * then on.
   */
  lemma PassingCursorIsNewer(run: seq<World>, steps: seq<Step>, k: nat, j: nat, tenant: Id, cursor: nat)
    requires IsRun(run, steps) && k < j < |run| && steps[k].Reap? && tenant in run[k].db.marks
    requires tenant in TenantsOf(run[k].db.rows, Due(run[k].db.rows, steps[k].cutoff))
    requires 0 < cursor && cursor >= Watermark(run[j].db, tenant)
    ensures cursor > run[k].db.drawn
    ensures forall d, e :: d in run[k].devices && 0 <= e < |run[k].devices[d].locals| ==>
              run[k].devices[d].locals[e].cursor.stamp < cursor
    ensures forall d :: d in run[k].devices ==> ReplyBelow(run[k].devices[d].task, cursor)
  {
    assert StepsTo(run, steps, k);
    StepMoves(run[k], steps[k], run[k + 1], tenant);
    WatermarksNeverFall(run, steps, k + 1, j, tenant);
    RunKeepsInv(run, steps, k);
    forall d, e | d in run[k].devices && 0 <= e < |run[k].devices[d].locals|
      ensures run[k].devices[d].locals[e].cursor.stamp <= run[k].db.drawn
    {
      var device := run[k].devices[d];
      assert DeviceOk(run[k].db, run[k].log, device);
      assert LocalBase(run[k].db, run[k].log, device.locals[e], device.epoch, device.swept);
    }
    forall d | d in run[k].devices
      ensures ReplyBelow(run[k].devices[d].task, cursor)
    {
      assert DeviceOk(run[k].db, run[k].log, run[k].devices[d]);
    }
  }

  predicate ReplyBelow(task: Task, cursor: nat) {
    task.Walking? && task.reply.Some? && task.reply.value.Page? ==> task.reply.value.next.stamp < cursor
  }

  /** After a reap of its tenant a device will be refused on every entity it has a cursor for. */
  lemma ReapRefusesDevice(run: seq<World>, steps: seq<Step>, k: nat, d: Id, e: nat)
    requires IsRun(run, steps) && k < |steps| && steps[k].Reap? && d in run[k].devices
    requires run[k].devices[d].tenant in TenantsOf(run[k].db.rows, Due(run[k].db.rows, steps[k].cutoff))
    requires e < |ENTITIES| && e < |run[k].devices[d].locals| && run[k].devices[d].locals[e].cursor.stamp > 0
    ensures Refusable(run[k + 1].db, run[k].devices[d].tenant, run[k].devices[d].locals[e].cursor)
  {
    RunKeepsInv(run, steps, k);
    var device := run[k].devices[d];
    assert DeviceOk(run[k].db, run[k].log, device);
    assert LocalBase(run[k].db, run[k].log, device.locals[e], device.epoch, device.swept);
    assert StepsTo(run, steps, k);
    StepMoves(run[k], steps[k], run[k + 1], device.tenant);
  }
}
