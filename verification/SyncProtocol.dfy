/**
 * Devices that mirror what a member may see of a tenant's rows while the server writes and reaps.
 * Drawing a sequence value and committing a row with it are separate steps; every page is served and
 * delivered in a step of its own, with commits, reaps, changes of visibility and kills between any two
 * of them (backend/app/models/base.py:18-48, backend/app/core/deletion.py:203-267,
 * backend/app/routers/sync.py:60-371, apps/mobile/src/data/pull.ts:27-96,
 * apps/mobile/src/data/mirror.ts:37-86).
 */
module SyncProtocol {
  import opened Records
  import opened Reaper
  import opened SyncPull

  /** The streams a device pulls, in dependency order. */
  const ENTITIES: seq<Table> :=
    [EventTypes, Locations, Members, Relationships, Events, Participants, Messages, Recipients]

  /** Every table with a cursor value is pulled, once each, and no other. */
  lemma EachStreamOnce(t: Table)
    ensures Synced(t) <==> t in ENTITIES
    ensures forall i, j :: 0 <= i < j < |ENTITIES| ==> ENTITIES[i] != ENTITIES[j]
  {
    assert ENTITIES[0] == EventTypes && ENTITIES[1] == Locations && ENTITIES[2] == Members;
    assert ENTITIES[3] == Relationships && ENTITIES[4] == Events && ENTITIES[5] == Participants;
    assert ENTITIES[6] == Messages && ENTITIES[7] == Recipients;
  }

  /** A mirrored row: the version it has, and the epoch of the round that delivered it. */
  datatype Entry = Entry(stamp: nat, epoch: nat)

  /** One entity on a device: its stored cursor and its mirrored rows. */
  datatype Local = Local(cursor: Cursor, mirror: map<Id, Entry>)

  /**
   * What the app is in the middle of: walking an entity with the cursor of its next request, perhaps
   * with a reply under way; sweeping; or about to record that the round is over. `full` is a refetch.
   */
  datatype Task =
    | Idle
    | Walking(entity: nat, cursor: Cursor, full: bool, reply: Option<PageResult>)
    | Sweeping(entity: nat)
    | Finished(full: bool)

  /**
   * `sees` are the rows its member may see, of all tables, rows that do not exist yet included; `swept`
   * is the last epoch whose refetch finished its sweep; the page limit is fixed in the app.
   *
   * `stale` and `intact` are history that no step reads: the entities whose cursor has passed a row they
   * may not have, and whether the page under way answers for what is committed and visible now.
   */
  datatype Device = Device(tenant: Id, limit: nat, sees: set<Id>, epoch: nat, swept: nat, locals: seq<Local>,
                           task: Task, stale: set<nat>, intact: bool)

  /** Sequence values drawn by transactions that have not committed, and every id that was ever a row's. */
  datatype Log = Log(pending: set<nat>, used: set<Id>)

  datatype World = World(db: Db, log: Log, devices: map<Id, Device>)

  const ZERO := Cursor(0, None)

  // ---- what the server serves ----

  function AsSyncRow(id: Id, r: Row): SyncRow { SyncRow(id, r.stamp, r.isDeleted) }

  /** One stream as one member sees it: the tenant's rows of a table, narrowed to what is visible. */
  datatype Scope = Scope(tenant: Id, table: Table, sees: set<Id>)

  predicate InScope(id: Id, r: Row, s: Scope) { r.tenant == s.tenant && r.table == s.table && id in s.sees }

  function StreamRows(db: Db, s: Scope): set<SyncRow> {
    set id | id in db.rows && InScope(id, db.rows[id], s) :: AsSyncRow(id, db.rows[id])
  }

  ghost predicate IsView(db: Db, s: Scope, stream: seq<SyncRow>) {
    Ordered(stream) && forall r :: r in stream <==> r in StreamRows(db, s)
  }

  /** The scope's rows in (sync_seq, id) order, tombstones included. */
  ghost function View(db: Db, s: Scope): (stream: seq<SyncRow>)
    requires Sound(db) && Synced(s.table)
    ensures IsView(db, s, stream)
  {
    ViewExists(db, s);
    var stream :| IsView(db, s, stream);
    stream
  }

  /** The cursor is past the row's current version. */
  predicate Passed(c: Cursor, id: Id, r: Row, s: Scope) {
    InScope(id, r, s) && !After(c, AsSyncRow(id, r))
  }

  function Watermark(db: Db, tenant: Id): nat {
    if tenant in db.marks then db.marks[tenant] else 0
  }

  ghost function Served(db: Db, s: Scope, since: Cursor, limit: nat): PageResult
    requires Sound(db) && Synced(s.table) && limit > 0
  {
    PullPage(View(db, s), Watermark(db, s.tenant), since, limit)
  }

  // ---- what a device does ----

  function ScopeOf(d: Device, e: nat): Scope
    requires e < |ENTITIES|
  {
    Scope(d.tenant, ENTITIES[e], d.sees)
  }

  ghost predicate Sized(d: Device) { |d.locals| == |ENTITIES| && d.limit > 0 }

  predicate TaskSized(t: Task) {
    match t
    case Walking(e, _, _, _) => e < |ENTITIES|
    case Sweeping(e) => e < |ENTITIES|
    case _ => true
  }

  function ApplyRow(mirror: map<Id, Entry>, r: SyncRow, epoch: nat): map<Id, Entry> {
    if r.isDeleted then mirror - {r.id} else mirror[r.id := Entry(r.stamp, epoch)]
  }

  function Apply(mirror: map<Id, Entry>, items: seq<SyncRow>, epoch: nat): map<Id, Entry> {
    if items == [] then mirror
    else ApplyRow(Apply(mirror, items[..|items| - 1], epoch), items[|items| - 1], epoch)
  }

  /** The sweep of one entity drops every row that no page of this epoch has delivered. */
  function Swept(mirror: map<Id, Entry>, epoch: nat): map<Id, Entry> {
    map id | id in mirror && mirror[id].epoch >= epoch :: mirror[id]
  }

  /** After the last page of an entity: the next entity, or the end of the walk. */
  function NextTask(locals: seq<Local>, e: nat, full: bool): Task
    requires |locals| == |ENTITIES|
  {
    if e + 1 < |ENTITIES| then Walking(e + 1, if full then ZERO else locals[e + 1].cursor, full, None)
    else if full then Sweeping(0)
    else Finished(false)
  }

  /** The first page of a refetch starts its entity anew; a page that was overtaken leaves it stale. */
  function StaleAfterPage(d: Device, e: nat, c: Cursor, full: bool): set<nat> {
    if !d.intact then d.stale + {e} else if full && c == ZERO then d.stale - {e} else d.stale
  }

  /** A delivered page is applied together with its cursor. */
  function Delivered(d: Device, e: nat, c: Cursor, full: bool, page: PageResult): Device
    requires |d.locals| == |ENTITIES| && e < |ENTITIES| && page.Page?
  {
    var local := Local(page.next, Apply(d.locals[e].mirror, page.items, d.epoch));
    var locals := d.locals[e := local];
    d.(locals := locals, stale := StaleAfterPage(d, e, c, full),
       task := if page.hasMore then Walking(e, page.next, full, None) else NextTask(locals, e, full))
  }

  function SweptEntity(d: Device, e: nat): Device
    requires |d.locals| == |ENTITIES| && e < |ENTITIES|
  {
    var last := e + 1 == |ENTITIES|;
    d.(locals := d.locals[e := d.locals[e].(mirror := Swept(d.locals[e].mirror, d.epoch))],
       task := if last then Finished(true) else Sweeping(e + 1),
       swept := if last then d.epoch else d.swept)
  }

  datatype Action =
    | StartRound
    | StartRefetch
    | Ask
    | Deliver
    | Sweep
    | Finish
    | Kill

  /**
   * One step of a device. A request that is answered 410 ends the round where it is; so does a kill, at
   * any moment, with a reply under way or not.
   */
  ghost predicate Acts(db: Db, d: Device, action: Action, after: Device)
    requires Sound(db) && Sized(d) && TaskSized(d.task)
  {
    match action
    case StartRound => d.task.Idle? && after == d.(task := Walking(0, d.locals[0].cursor, false, None))
    case StartRefetch => d.task.Idle? && after == d.(epoch := d.epoch + 1, task := Walking(0, ZERO, true, None))
    case Ask =>
      && d.task.Walking? && d.task.reply == None
      && var page := Served(db, ScopeOf(d, d.task.entity), d.task.cursor, d.limit);
         after == if page.Gone? then d.(task := Idle) else d.(task := d.task.(reply := Some(page)), intact := true)
    case Deliver =>
      && d.task.Walking? && d.task.reply.Some? && d.task.reply.value.Page?
      && after == Delivered(d, d.task.entity, d.task.cursor, d.task.full, d.task.reply.value)
    case Sweep => d.task.Sweeping? && after == SweptEntity(d, d.task.entity)
    case Finish => d.task.Finished? && after == d.(task := Idle)
    case Kill => after == d.(task := Idle)
  }

  // ---- steps of the whole system ----

  /** References stay inside a tenant, and every row's tenant exists. */
  ghost predicate Homed(db: Db) {
    forall id :: id in db.rows ==> RowHomed(db, db.rows[id])
  }

  ghost predicate RowHomed(db: Db, r: Row) {
    r.tenant in db.marks && forall o :: o in r.owners && o in db.rows ==> db.rows[o].tenant == r.tenant
  }

  /**
   * A transaction commits: it inserts or updates rows (soft-deletes included) or adds tenants. A synced
   * row it touches carries one of the values the transaction drew; ids are never used again.
   */
  ghost predicate Committed(before: Db, after: Db, values: set<nat>, used: set<Id>) {
    && MarksKept(before, after) && before.drawn == after.drawn
    && before.rows.Keys <= after.rows.Keys && Schema(after.rows) && Homed(after)
    && forall id :: id in after.rows ==>
         if id in before.rows then RowWritten(before.rows[id], after.rows[id], values, after.drawn)
         else id !in used && Stamped(after.rows[id], values, after.drawn)
  }

  ghost predicate MarksKept(before: Db, after: Db) {
    && before.marks.Keys <= after.marks.Keys
    && forall t :: t in after.marks ==> after.marks[t] == if t in before.marks then before.marks[t] else 0
  }

  predicate RowWritten(r: Row, s: Row, values: set<nat>, hi: nat) {
    s == r || (s.table == r.table && s.tenant == r.tenant && Stamped(s, values, hi))
  }

  predicate Stamped(s: Row, values: set<nat>, hi: nat) {
    if Synced(s.table) then s.stamp in values else s.stamp <= hi
  }

  predicate Changed(before: Db, after: Db, id: Id) {
    id in after.rows && !(id in before.rows && AsSyncRow(id, before.rows[id]) == AsSyncRow(id, after.rows[id]))
  }

  /** A new version is in scope at or below the cursor. */
  ghost predicate Overtakes(before: Db, after: Db, s: Scope, c: Cursor) {
    exists id :: Changed(before, after, id) && Passed(c, id, after.rows[id], s)
  }

  ghost predicate ReplyOvertaken(before: Db, after: Db, d: Device) {
    && d.task.Walking? && d.task.reply.Some? && d.task.reply.value.Page? && d.task.entity < |ENTITIES|
    && Overtakes(before, after, ScopeOf(d, d.task.entity), d.task.reply.value.next)
  }

  ghost function Overtaken(before: Db, after: Db, d: Device): set<nat> {
    set e: nat | e < |ENTITIES| && e < |d.locals| && Overtakes(before, after, ScopeOf(d, e), d.locals[e].cursor)
  }

  ghost function AfterCommit(before: Db, after: Db, d: Device): Device {
    d.(stale := d.stale + Overtaken(before, after, d), intact := d.intact && !ReplyOvertaken(before, after, d))
  }

  ghost predicate DevicesAfterCommit(w: World, v: World) {
    && v.devices.Keys == w.devices.Keys
    && forall d :: d in w.devices ==> v.devices[d] == AfterCommit(w.db, v.db, w.devices[d])
  }

  /** A mirrored row changes visibility, or a live row becomes visible below the cursor. */
  ghost predicate Exposes(db: Db, d: Device, e: nat, sees: set<Id>)
    requires e < |ENTITIES| && e < |d.locals|
  {
    || (exists id :: id in d.locals[e].mirror && (id in d.sees) != (id in sees))
    || exists id :: id in db.rows && id !in d.sees && !db.rows[id].isDeleted
                    && Passed(d.locals[e].cursor, id, db.rows[id], Scope(d.tenant, ENTITIES[e], sees))
  }

  ghost function Rescoped(db: Db, d: Device, sees: set<Id>): Device {
    var exposed := set e: nat | e < |ENTITIES| && e < |d.locals| && Exposes(db, d, e, sees);
    d.(sees := sees, stale := d.stale + exposed, intact := false)
  }

  ghost predicate ReapStep(before: Db, after: Db, cutoff: int) {
    Sound(after) && Reaped(before, Due(before.rows, cutoff), after)
  }

  predicate NewDevice(d: Device, db: Db) {
    && d.tenant in db.marks && d.limit > 0 && d.epoch == d.swept == 1 && d.task == Idle && d.stale == {}
    && |d.locals| == |ENTITIES| && forall i :: 0 <= i < |ENTITIES| ==> d.locals[i] == Local(ZERO, map[])
  }

  datatype Step =
    | Draw
    | Commit(values: set<nat>)
    | Reap(cutoff: int)
    | Enroll(device: Id)
    | Rescope(device: Id, sees: set<Id>)
    | Act(device: Id, action: Action)

  /** One drawn value, open until its transaction commits; a transaction that aborts commits no row. */
  ghost predicate DrawStep(w: World, v: World) {
    && v.devices == w.devices && v.db == w.db.(drawn := w.db.drawn + 1)
    && v.log == w.log.(pending := w.log.pending + {w.db.drawn + 1})
  }

  ghost predicate CommitStep(w: World, v: World, values: set<nat>) {
    && values <= w.log.pending && Committed(w.db, v.db, values, w.log.used) && DevicesAfterCommit(w, v)
    && v.log == Log(w.log.pending - values, w.log.used + v.db.rows.Keys)
  }

  ghost predicate Next(w: World, step: Step, v: World) {
    Sound(w.db) &&
    match step
    case Draw => DrawStep(w, v)
    case Commit(values) => CommitStep(w, v, values)
    case Reap(cutoff) => v.devices == w.devices && v.log == w.log && ReapStep(w.db, v.db, cutoff)
    case Enroll(d) =>
      && v.db == w.db && v.log == w.log && d !in w.devices && d in v.devices && NewDevice(v.devices[d], w.db)
      && v.devices == w.devices[d := v.devices[d]]
    case Rescope(d, sees) =>
      && v.db == w.db && v.log == w.log && d in w.devices
      && v.devices == w.devices[d := Rescoped(w.db, w.devices[d], sees)]
    case Act(d, action) =>
      && v.db == w.db && v.log == w.log && d in w.devices && d in v.devices
      && v.devices == w.devices[d := v.devices[d]]
      && Sized(w.devices[d]) && TaskSized(w.devices[d].task)
      && Acts(w.db, w.devices[d], action, v.devices[d])
  }

  /** A run starts from any well-formed database with no devices yet and no transaction under way. */
  ghost predicate IsRun(run: seq<World>, steps: seq<Step>) {
    && |run| == |steps| + 1
    && Sound(run[0].db) && Homed(run[0].db) && run[0].devices == map[]
    && run[0].log.pending == {} && run[0].db.rows.Keys <= run[0].log.used
    && forall i :: 0 <= i < |steps| ==> StepsTo(run, steps, i)
  }

  ghost predicate StepsTo(run: seq<World>, steps: seq<Step>, i: nat)
    requires i < |steps| && |run| == |steps| + 1
  {
    Next(run[i], steps[i], run[i + 1])
  }

  /** A run goes on with any step from where it stands. */
  lemma RunAppend(run: seq<World>, steps: seq<Step>, step: Step, next: World)
    requires IsRun(run, steps) && Next(run[|steps|], step, next)
    ensures IsRun(run + [next], steps + [step])
  {
    forall i | 0 <= i < |steps + [step]|
      ensures StepsTo(run + [next], steps + [step], i)
    {
      if i < |steps| {
        assert StepsTo(run, steps, i);
      }
    }
  }

  // ---- an ordered view always exists ----

  function Inserted(s: seq<SyncRow>, x: SyncRow): seq<SyncRow> {
    if s == [] || Before(x, s[0]) then [x] + s else [s[0]] + Inserted(s[1..], x)
  }

  lemma {:induction false} InsertedMembers(s: seq<SyncRow>, x: SyncRow, r: SyncRow)
    ensures r in Inserted(s, x) <==> r in s || r == x
  {
    if s != [] && !Before(x, s[0]) {
      InsertedMembers(s[1..], x, r);
      assert s == [s[0]] + s[1..];
    }
  }

  ghost predicate Comparable(s: seq<SyncRow>, x: SyncRow) {
    x.stamp > 0 && forall i :: 0 <= i < |s| ==> Before(x, s[i]) || Before(s[i], x)
  }

  lemma {:induction false} InsertedOrdered(s: seq<SyncRow>, x: SyncRow)
    requires Ordered(s) && Comparable(s, x)
    ensures Ordered(Inserted(s, x))
  {
    if s == [] {
    } else if Before(x, s[0]) {
      forall i | 0 <= i < |s|
        ensures Before(x, s[i])
      {
        assert i > 0 ==> Before(s[0], s[i]);
      }
    } else {
      InsertedOrdered(s[1..], x);
      var t := Inserted(s[1..], x);
      forall i | 0 <= i < |t|
        ensures Before(s[0], t[i])
      {
        InsertedMembers(s[1..], x, t[i]);
        assert t[i] in s[1..] || t[i] == x;
      }
    }
  }

  ghost predicate AllComparable(rows: set<SyncRow>) {
    && (forall a :: a in rows ==> a.stamp > 0)
    && forall a, b :: a in rows && b in rows && a != b ==> a.id != b.id
  }

  lemma {:induction false} SortedExists(rows: set<SyncRow>) returns (s: seq<SyncRow>)
    requires AllComparable(rows)
    ensures Ordered(s) && forall r :: r in s <==> r in rows
    decreases |rows|
  {
    if rows == {} {
      s := [];
    } else {
      var x :| x in rows;
      var t := SortedExists(rows - {x});
      forall i | 0 <= i < |t|
        ensures Before(x, t[i]) || Before(t[i], x)
      {
        assert t[i] in t;
      }
      InsertedOrdered(t, x);
      forall r {
        InsertedMembers(t, x, r);
      }
      s := Inserted(t, x);
    }
  }

  lemma ViewExists(db: Db, s: Scope)
    requires Sound(db) && Synced(s.table)
    ensures exists stream :: IsView(db, s, stream)
  {
    var stream := SortedExists(StreamRows(db, s));
    assert IsView(db, s, stream);
  }
}
