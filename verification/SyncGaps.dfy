/**
 * Rows that land below a cursor: those of a transaction that commits late
 * (docs/spec/sync-protocol.md:46-52), and those that become visible without being written
 * (docs/spec/sync-protocol.md:91-97, backend/app/routers/sync.py:134-149). When that happens, and exactly
 * when an incremental round makes up for it.
 */
module SyncGaps {
  import opened Records
  import opened Reaper
  import opened SyncPull
  import opened SyncProtocol
  import opened SyncInvariant
  import opened SyncSafety
  import opened SyncResults

  // ---- late commits ----

  /** A value that is open now and had been drawn by then was open then. */
  lemma {:induction false} OpenSince(run: seq<World>, steps: seq<Step>, t: nat, k: nat, v: nat)
    requires IsRun(run, steps) && t <= k < |run| && v in run[k].log.pending && v <= run[t].db.drawn
    ensures v in run[t].log.pending
    decreases k - t
  {
    if t < k {
      RunKeepsInv(run, steps, k - 1);
      assert StepsTo(run, steps, k - 1);
      DrawnGrows(run, steps, t, k - 1);
      OpenSince(run, steps, t, k - 1, v);
    }
  }

  lemma {:induction false} DrawnGrows(run: seq<World>, steps: seq<Step>, i: nat, j: nat)
    requires IsRun(run, steps) && i <= j < |run|
    ensures run[i].db.drawn <= run[j].db.drawn
    decreases j - i
  {
    if i < j {
      DrawnGrows(run, steps, i, j - 1);
      assert StepsTo(run, steps, j - 1);
    }
  }

  lemma OvertakingValue(w: World, v: World, values: set<nat>, s: Scope, c: Cursor) returns (value: nat)
    requires CommitStep(w, v, values) && Synced(s.table) && Overtakes(w.db, v.db, s, c)
    ensures value in values && value <= c.stamp
  {
    var id :| Changed(w.db, v.db, id) && Passed(c, id, v.db.rows[id], s);
    value := v.db.rows[id].stamp;
    if id in w.db.rows {
      assert RowWritten(w.db.rows[id], v.db.rows[id], values, v.db.drawn);
    } else {
      assert Stamped(v.db.rows[id], values, v.db.drawn);
    }
  }

  /**
   * Whatever a commit puts below a cursor carries a value that was drawn and not yet committed when the
   * page that gave the cursor was read.
   */
  lemma MissedOnlyIfOpen(run: seq<World>, steps: seq<Step>, t: nat, k: nat, s: Scope, c: Cursor)
    requires IsRun(run, steps) && t <= k < |steps| && steps[k].Commit? && Synced(s.table)
    requires c.stamp <= run[t].db.drawn && Overtakes(run[k].db, run[k + 1].db, s, c)
    ensures exists v :: v in run[t].log.pending && v <= c.stamp
  {
    assert StepsTo(run, steps, k);
    var v := OvertakingValue(run[k], run[k + 1], steps[k].values, s, c);
    OpenSince(run, steps, t, k, v);
  }

  // ---- and it can always happen ----

  function NewRow(s: Scope, stamp: nat): Row { Row(s.table, s.tenant, stamp, false, {}, {}, None) }

  /** The world after a transaction with the one value `v` has inserted a row. */
  ghost function Inserted(w: World, s: Scope, id: Id, v: nat): World {
    var db := w.db.(rows := w.db.rows[id := NewRow(s, v)]);
    World(db, Log(w.log.pending - {v}, w.log.used + db.rows.Keys),
          map d | d in w.devices :: AfterCommit(w.db, db, w.devices[d]))
  }

  /** The id is visible, new, and no row names it as its owner. */
  ghost predicate FreeId(w: World, s: Scope, id: Id) {
    id in s.sees && id !in w.log.used && forall k :: k in w.db.rows ==> id !in w.db.rows[k].owners
  }

  lemma InsertIsHomed(w: World, s: Scope, id: Id, v: nat)
    requires Inv(w) && FreeId(w, s, id) && s.tenant in w.db.marks
    ensures Homed(Inserted(w, s, id, v).db) && Schema(Inserted(w, s, id, v).db.rows)
  {
    var next := Inserted(w, s, id, v);
    forall k | k in next.db.rows
      ensures RowHomed(next.db, next.db.rows[k]) && RowSchema(next.db.rows[k])
    {
      if k != id {
        assert RowHomed(w.db, w.db.rows[k]) && RowSchema(w.db.rows[k]);
      }
    }
  }

  lemma InsertIsNext(w: World, s: Scope, id: Id, v: nat)
    requires Inv(w) && v in w.log.pending && FreeId(w, s, id) && s.tenant in w.db.marks && Synced(s.table)
    ensures Next(w, Commit({v}), Inserted(w, s, id, v))
  {
    InsertIsHomed(w, s, id, v);
    var next := Inserted(w, s, id, v);
    assert Committed(w.db, next.db, {v}, w.log.used);
  }

  /** Some transaction could put a row of the scope below the cursor next. */
  ghost predicate CanBeOvertaken(w: World, s: Scope, c: Cursor) {
    exists values, v :: Next(w, Commit(values), v) && Overtakes(w.db, v.db, s, c)
  }

  /**
   * At any moment of any run, a cursor can still miss a row exactly when some value below it has been
   * drawn and not committed.
   */
  lemma CanBeOvertakenIff(run: seq<World>, steps: seq<Step>, i: nat, s: Scope, c: Cursor)
    requires IsRun(run, steps) && i < |run| && Synced(s.table) && s.tenant in run[i].db.marks
    requires Closed(run[i].db, run[i].log, c.stamp) && exists id :: FreeId(run[i], s, id)
    ensures CanBeOvertaken(run[i], s, c) <==> exists v :: v in run[i].log.pending && v < c.stamp
  {
    RunKeepsInv(run, steps, i);
    var w := run[i];
    if CanBeOvertaken(w, s, c) {
      OvertakenOnlyByOpen(w, s, c);
    }
    if v :| v in w.log.pending && v < c.stamp {
      InsertOvertakes(w, s, c, v);
    }
  }

  lemma OvertakenOnlyByOpen(w: World, s: Scope, c: Cursor)
    requires CanBeOvertaken(w, s, c) && Synced(s.table) && Closed(w.db, w.log, c.stamp)
    ensures exists v :: v in w.log.pending && v < c.stamp
  {
    var values, v :| Next(w, Commit(values), v) && Overtakes(w.db, v.db, s, c);
    var value := OvertakingValue(w, v, values, s, c);
  }

  lemma InsertOvertakes(w: World, s: Scope, c: Cursor, v: nat)
    requires Inv(w) && v in w.log.pending && v < c.stamp && Synced(s.table) && s.tenant in w.db.marks
    requires exists id :: FreeId(w, s, id)
    ensures CanBeOvertaken(w, s, c)
  {
    var id :| FreeId(w, s, id);
    InsertIsNext(w, s, id, v);
    var next := Inserted(w, s, id, v);
    assert Changed(w.db, next.db, id) && Passed(c, id, next.db.rows[id], s);
  }

  // ---- what a late commit does to a mirror ----

  /** A version committed below the cursor that the mirror would need to hear of. */
  ghost predicate Misses(before: Db, after: Db, s: Scope, local: Local) {
    exists id :: Changed(before, after, id) && Passed(local.cursor, id, after.rows[id], s)
                 && (!after.rows[id].isDeleted || id in local.mirror)
  }

  ghost predicate ClosedStamps(w: World, mirror: map<Id, Entry>) {
    forall id :: id in mirror ==> Closed(w.db, w.log, mirror[id].stamp)
  }

  lemma CommittedValue(w: World, v: World, values: set<nat>, id: Id)
    requires CommitStep(w, v, values) && Changed(w.db, v.db, id) && Synced(v.db.rows[id].table)
    ensures v.db.rows[id].stamp in w.log.pending
  {
    if id in w.db.rows {
      assert RowWritten(w.db.rows[id], v.db.rows[id], values, v.db.drawn);
    } else {
      assert Stamped(v.db.rows[id], values, v.db.drawn);
    }
  }

  lemma MissedIsWrong(w: World, v: World, values: set<nat>, s: Scope, local: Local, id: Id)
    requires CommitStep(w, v, values) && Synced(s.table) && Changed(w.db, v.db, id)
    requires Passed(local.cursor, id, v.db.rows[id], s)
    requires ClosedStamps(w, local.mirror)
    ensures Agrees(local.mirror, id, v.db.rows[id]) <==> v.db.rows[id].isDeleted && id !in local.mirror
  {
    CommittedValue(w, v, values, id);
  }

  lemma UnchangedAgrees(w: World, v: World, values: set<nat>, s: Scope, local: Local, id: Id)
    requires CommitStep(w, v, values) && Current(w.db, s, local.cursor, local.mirror)
    requires id in v.db.rows && Passed(local.cursor, id, v.db.rows[id], s) && !Changed(w.db, v.db, id)
    ensures Agrees(local.mirror, id, v.db.rows[id])
  {
    assert RowWritten(w.db.rows[id], v.db.rows[id], values, v.db.drawn);
    assert Passed(local.cursor, id, w.db.rows[id], s);
  }

  lemma CommitTruthIff(w: World, v: World, values: set<nat>, s: Scope, local: Local)
    requires CommitStep(w, v, values) && Synced(s.table) && Truthful(w.db, s, local)
    requires ClosedStamps(w, local.mirror)
    ensures Truthful(v.db, s, local) <==> !Misses(w.db, v.db, s, local)
  {
    forall id | id in local.mirror
      ensures Known(v.db, s, id)
    {
      assert RowWritten(w.db.rows[id], v.db.rows[id], values, v.db.drawn);
    }
    forall id | id in v.db.rows && Passed(local.cursor, id, v.db.rows[id], s)
      ensures Agrees(local.mirror, id, v.db.rows[id]) <==>
              !(Changed(w.db, v.db, id) && (!v.db.rows[id].isDeleted || id in local.mirror))
    {
      if Changed(w.db, v.db, id) {
        MissedIsWrong(w, v, values, s, local, id);
      } else {
        UnchangedAgrees(w, v, values, s, local, id);
      }
    }
  }

  ghost predicate HasDevice(w: World, d: Id) { d in w.devices && Sized(w.devices[d]) }

  ghost predicate ExactAt(w: World, d: Id, e: nat)
    requires HasDevice(w, d) && e < |ENTITIES|
  {
    Exact(w.db, ScopeOf(w.devices[d], e), w.devices[d].locals[e].mirror)
  }

  ghost predicate TruthfulAt(w: World, d: Id, e: nat)
    requires HasDevice(w, d) && e < |ENTITIES|
  {
    Truthful(w.db, ScopeOf(w.devices[d], e), w.devices[d].locals[e])
  }

  lemma RoundExactIff(run: seq<World>, steps: seq<Step>, i: nat, j: nat, d: Id, e: nat)
    requires QuietRound(run, steps, i, j, d) && e < |ENTITIES|
    ensures HasDevice(run[i], d) && HasDevice(run[j], d)
    ensures ExactAt(run[j], d, e) <==> TruthfulAt(run[i], d, e)
    ensures run[j].devices[d].sees == run[i].devices[d].sees
  {
    RoundIsExactIff(run, steps, i, j, d, e);
    QuietRoundFacts(run, steps, i, j, d, e);
  }

  lemma RoundFrom(run: seq<World>, steps: seq<Step>, i: nat, j: nat, d: Id, e: nat, truthful: bool)
    requires QuietRound(run, steps, i, j, d) && e < |ENTITIES|
    requires HasDevice(run[i], d) && (TruthfulAt(run[i], d, e) <==> truthful)
    ensures HasDevice(run[j], d) && (ExactAt(run[j], d, e) <==> truthful)
  {
    RoundExactIff(run, steps, i, j, d, e);
  }

  /** The device is idle, no refetch of it was cut off, and the entity is up to date but for newer rows. */
  ghost predicate AtRest(w: World, d: Id, e: nat)
    requires e < |ENTITIES|
  {
    && HasDevice(w, d) && w.devices[d].task == Idle && w.devices[d].swept == w.devices[d].epoch
    && e !in w.devices[d].stale && !Refusable(w.db, w.devices[d].tenant, w.devices[d].locals[e].cursor)
  }

  ghost predicate MissesAt(w: World, v: World, d: Id, e: nat)
    requires HasDevice(w, d) && e < |ENTITIES|
  {
    Misses(w.db, v.db, ScopeOf(w.devices[d], e), w.devices[d].locals[e])
  }

  lemma RestIsTruthful(run: seq<World>, steps: seq<Step>, i: nat, d: Id, e: nat)
    requires IsRun(run, steps) && i < |steps|
    requires e < |ENTITIES| && AtRest(run[i], d, e)
    ensures HasDevice(run[i], d) && StepsTo(run, steps, i) && TruthfulAt(run[i], d, e)
    ensures ClosedStamps(run[i], run[i].devices[d].locals[e].mirror)
  {
    RunKeepsInv(run, steps, i);
    var device := run[i].devices[d];
    assert DeviceOk(run[i].db, run[i].log, device);
    assert LocalBase(run[i].db, run[i].log, device.locals[e], device.epoch, device.swept);
    SweptIsKnown(run[i].db, run[i].log, device, e);
  }

  lemma CommitStepTruth(w: World, v: World, values: set<nat>, d: Id, e: nat)
    requires Next(w, Commit(values), v) && HasDevice(w, d) && e < |ENTITIES| && TruthfulAt(w, d, e)
    requires ClosedStamps(w, w.devices[d].locals[e].mirror)
    ensures HasDevice(v, d)
    ensures TruthfulAt(v, d, e) <==> !MissesAt(w, v, d, e)
  {
    CommitTruthIff(w, v, values, ScopeOf(w.devices[d], e), w.devices[d].locals[e]);
  }

  lemma CommitAtRest(run: seq<World>, steps: seq<Step>, i: nat, d: Id, e: nat)
    returns (missed: bool)
    requires IsRun(run, steps) && i < |steps| && steps[i].Commit?
    requires e < |ENTITIES| && AtRest(run[i], d, e)
    ensures missed <==> MissesAt(run[i], run[i + 1], d, e)
    ensures HasDevice(run[i + 1], d) && (TruthfulAt(run[i + 1], d, e) <==> !missed)
  {
    missed := MissesAt(run[i], run[i + 1], d, e);
    RestIsTruthful(run, steps, i, d, e);
    CommitStepTruth(run[i], run[i + 1], steps[i].values, d, e);
  }

  /**
   * A round right after a commit leaves the mirror equal to what is live and visible exactly when the
   * commit put nothing below the entity's cursor that the mirror would need to hear of.
   */
  lemma CommitIsSeenIff(run: seq<World>, steps: seq<Step>, i: nat, j: nat, d: Id, e: nat)
    returns (missed: bool)
    requires QuietRound(run, steps, i + 1, j, d) && steps[i].Commit?
    requires e < |ENTITIES| && AtRest(run[i], d, e)
    ensures HasDevice(run[j], d)
    ensures missed <==> MissesAt(run[i], run[i + 1], d, e)
    ensures ExactAt(run[j], d, e) <==> !missed
  {
    missed := CommitAtRest(run, steps, i, d, e);
    RoundFrom(run, steps, i + 1, j, d, e, !missed);
  }

  // ---- what a change of visibility does to a mirror ----

  lemma ExposureTruthIff(db: Db, d: Device, e: nat, sees: set<Id>)
    requires Sized(d) && e < |ENTITIES| && Truthful(db, ScopeOf(d, e), d.locals[e])
    ensures Truthful(db, Scope(d.tenant, ENTITIES[e], sees), d.locals[e]) <==> !Exposes(db, d, e, sees)
  {
    var s, t, local := ScopeOf(d, e), Scope(d.tenant, ENTITIES[e], sees), d.locals[e];
    forall id | id in local.mirror
      ensures Known(db, t, id) <==> (id in d.sees) == (id in sees)
    {
      assert Known(db, s, id);
    }
    forall id | id in db.rows && Passed(local.cursor, id, db.rows[id], t) && AllKnown(db, t, local.mirror)
      ensures Agrees(local.mirror, id, db.rows[id]) <==> id in d.sees || db.rows[id].isDeleted
    {
      assert id in d.sees ==> Passed(local.cursor, id, db.rows[id], s);
      assert id in local.mirror ==> Known(db, s, id);
    }
  }

  lemma RescopeStepTruth(w: World, v: World, d: Id, sees: set<Id>, e: nat)
    requires Next(w, Rescope(d, sees), v) && HasDevice(w, d) && e < |ENTITIES| && TruthfulAt(w, d, e)
    ensures HasDevice(v, d) && v.devices[d].sees == sees
    ensures TruthfulAt(v, d, e) <==> !Exposes(w.db, w.devices[d], e, sees)
  {
    ExposureTruthIff(w.db, w.devices[d], e, sees);
  }

  lemma RescopeAtRest(run: seq<World>, steps: seq<Step>, i: nat, d: Id, e: nat)
    requires IsRun(run, steps) && i < |steps| && Rescopes(steps[i], d)
    requires e < |ENTITIES| && AtRest(run[i], d, e)
    ensures HasDevice(run[i + 1], d) && run[i + 1].devices[d].sees == steps[i].sees
    ensures TruthfulAt(run[i + 1], d, e) <==> !Exposes(run[i].db, run[i].devices[d], e, steps[i].sees)
  {
    RestIsTruthful(run, steps, i, d, e);
    RescopeStepTruth(run[i], run[i + 1], d, steps[i].sees, e);
  }

  /**
   * A round right after a change of visibility leaves the mirror equal to what is now live and visible
   * exactly when no mirrored row was hidden and no live row was revealed at or below the cursor.
   */
  lemma RescopeIsSeenIff(run: seq<World>, steps: seq<Step>, i: nat, j: nat, d: Id, e: nat)
    requires QuietRound(run, steps, i + 1, j, d) && Rescopes(steps[i], d)
    requires e < |ENTITIES| && AtRest(run[i], d, e)
    ensures HasDevice(run[j], d) && run[j].devices[d].sees == steps[i].sees
    ensures ExactAt(run[j], d, e) <==> !Exposes(run[i].db, run[i].devices[d], e, steps[i].sees)
  {
    RescopeAtRest(run, steps, i, d, e);
    RoundExactIff(run, steps, i + 1, j, d, e);
  }

  // ---- nothing else makes an entity stale ----

  /** A commit below one of the device's cursors or below the page under way, or a change of visibility. */
  ghost predicate Undermines(w: World, step: Step, v: World, d: Id) {
    || Rescopes(step, d)
    || (step.Commit? && d in w.devices &&
        (Overtaken(w.db, v.db, w.devices[d]) != {} || ReplyOvertaken(w.db, v.db, w.devices[d])))
  }

  predicate Untroubled(d: Device) {
    d.stale == {} && (d.task.Walking? && d.task.reply.Some? ==> d.intact)
  }

  lemma StepKeepsUntroubled(w: World, step: Step, v: World, d: Id)
    requires Next(w, step, v) && d in v.devices && !Undermines(w, step, v, d)
    requires d in w.devices ==> Untroubled(w.devices[d])
    ensures Untroubled(v.devices[d])
  {
  }

  /** An entity is stale only if something undermined the device, and not before. */
  lemma {:induction false} StaleHasACause(run: seq<World>, steps: seq<Step>, i: nat, d: Id)
    requires IsRun(run, steps) && i < |run| && d in run[i].devices && run[i].devices[d].stale != {}
    ensures exists k :: 0 <= k < i && Undermines(run[k], steps[k], run[k + 1], d)
  {
    if forall k :: 0 <= k < i ==> !Undermines(run[k], steps[k], run[k + 1], d) {
      StaysUntroubled(run, steps, i, d);
      assert false;
    }
  }

  lemma {:induction false} StaysUntroubled(run: seq<World>, steps: seq<Step>, i: nat, d: Id)
    requires IsRun(run, steps) && i < |run| && d in run[i].devices
    requires forall k :: 0 <= k < i ==> !Undermines(run[k], steps[k], run[k + 1], d)
    ensures Untroubled(run[i].devices[d])
  {
    if i > 0 {
      assert StepsTo(run, steps, i - 1);
      if d in run[i - 1].devices {
        StaysUntroubled(run, steps, i - 1, d);
      }
      StepKeepsUntroubled(run[i - 1], steps[i - 1], run[i], d);
    }
  }
}
