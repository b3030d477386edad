/**
 * When a refetch can finish. The documentation promises that a refetched client converges instead of
 * looping on 410 (backend/app/routers/sync.py:79-83); it does exactly when no entity's first page ends
 * below the watermark with more to come.
 */
module SyncStalls {
  import opened Records
  import opened Reaper
  import opened SyncPull
  import opened SyncProtocol
  import opened SyncInvariant
  import opened SyncSafety
  import opened SyncResults

  /** The entity has more than one page, and the first one ends below the watermark. */
  ghost predicate Stuck(db: Db, d: Device, e: nat)
    requires Sound(db) && Sized(d) && e < |ENTITIES|
  {
    StuckBehind(Tail(View(db, ScopeOf(d, e)), ZERO), Watermark(db, d.tenant), d.limit)
  }

  // ---- a stuck entity ----

  /** The first page of a stuck entity leaves a cursor that will be refused; so does being refused. */
  lemma StuckAnswer(db: Db, d: Device, e: nat, c: Cursor)
    requires Sound(db) && Sized(d) && e < |ENTITIES| && Stuck(db, d, e)
    requires c == ZERO || Refusable(db, d.tenant, c)
    ensures var page := Served(db, ScopeOf(d, e), c, d.limit);
            if c == ZERO then page.Page? && page.hasMore && Refusable(db, d.tenant, page.next) else page.Gone?
  {
    if c == ZERO {
      var stream := View(db, ScopeOf(d, e));
      var rest := Tail(stream, ZERO);
      TailOrdered(stream, ZERO);
      assert rest[d.limit - 1].stamp > 0;
    }
  }

  /**
   * The device is at or before the stuck entity, and there its cursor is zero or will be refused. With
   * `rounds` this is asked of incremental rounds as well as of refetches.
   */
  ghost predicate Stalled(db: Db, d: Device, e: nat, rounds: bool)
    requires Sound(db) && Sized(d) && e < |ENTITIES|
  {
    && Stuck(db, d, e)
    && (rounds ==> d.locals[e].cursor == ZERO || Refusable(db, d.tenant, d.locals[e].cursor))
    && match d.task
       case Idle => true
       case Walking(k, c, full, reply) => full || rounds ==> k <= e && (k == e ==> StalledAt(db, d, e, c, reply))
       case Sweeping(_) => false
       case Finished(full) => !full && !rounds
  }

  ghost predicate StalledAt(db: Db, d: Device, e: nat, c: Cursor, reply: Option<PageResult>)
    requires Sound(db) && Sized(d) && e < |ENTITIES|
  {
    && (c == ZERO || Refusable(db, d.tenant, c))
    && (reply.Some? ==> reply.value.Page? && reply.value.hasMore && Refusable(db, d.tenant, reply.value.next))
  }

  lemma AskStaysStalled(db: Db, d: Device, after: Device, e: nat, rounds: bool)
    requires Sound(db) && Sized(d) && TaskSized(d.task) && e < |ENTITIES| && Stalled(db, d, e, rounds)
    requires Acts(db, d, Ask, after)
    ensures Sized(after) && Stalled(db, after, e, rounds)
  {
    if d.task.entity == e && (d.task.full || rounds) {
      StuckAnswer(db, d, e, d.task.cursor);
    }
  }

  lemma DeliverStaysStalled(db: Db, d: Device, after: Device, e: nat, rounds: bool)
    requires Sound(db) && Sized(d) && TaskSized(d.task) && e < |ENTITIES| && Stalled(db, d, e, rounds)
    requires Acts(db, d, Deliver, after)
    ensures Sized(after) && Stalled(db, after, e, rounds)
  {
  }

  lemma ActStaysStalled(db: Db, d: Device, action: Action, after: Device, e: nat, rounds: bool)
    requires Sound(db) && Sized(d) && TaskSized(d.task) && e < |ENTITIES| && Stalled(db, d, e, rounds)
    requires Acts(db, d, action, after)
    ensures Sized(after) && Stalled(db, after, e, rounds)
  {
    match action
    case Ask => AskStaysStalled(db, d, after, e, rounds);
    case Deliver => DeliverStaysStalled(db, d, after, e, rounds);
    case StartRound =>
    case StartRefetch =>
    case Sweep =>
    case Finish =>
    case Kill =>
  }

  /** From `i` on nothing is committed or reaped, and the device's visibility stays as it is. */
  ghost predicate QuietFrom(run: seq<World>, i: nat, d: Id)
    requires i < |run| && d in run[i].devices
  {
    forall k :: i <= k < |run| ==>
      && run[k].db == run[i].db
      && (d in run[k].devices ==> run[k].devices[d].sees == run[i].devices[d].sees)
  }

  lemma OthersKeepApp(w: World, step: Step, v: World, d: Id)
    requires Next(w, step, v) && d in w.devices && !StepOf(step, d)
    ensures d in v.devices && SameApp(w.devices[d], v.devices[d])
  {
  }

  lemma SameAppStaysStalled(db: Db, d: Device, after: Device, e: nat, rounds: bool)
    requires Sound(db) && Sized(d) && e < |ENTITIES| && Stalled(db, d, e, rounds)
    requires SameApp(d, after) && after.sees == d.sees
    ensures Sized(after) && Stalled(db, after, e, rounds)
  {
  }

  lemma StepStaysStalled(w: World, step: Step, v: World, d: Id, e: nat, rounds: bool)
    requires Next(w, step, v) && v.db == w.db && d in w.devices && Sized(w.devices[d]) && e < |ENTITIES|
    requires Stalled(w.db, w.devices[d], e, rounds)
    requires d in v.devices ==> v.devices[d].sees == w.devices[d].sees
    ensures d in v.devices && Sized(v.devices[d]) && Stalled(w.db, v.devices[d], e, rounds)
  {
    if StepOf(step, d) {
      ActStaysStalled(w.db, w.devices[d], step.action, v.devices[d], e, rounds);
    } else {
      OthersKeepApp(w, step, v, d);
      SameAppStaysStalled(w.db, w.devices[d], v.devices[d], e, rounds);
    }
  }

  lemma {:induction false} RunStaysStalled(run: seq<World>, steps: seq<Step>, i: nat, j: nat, d: Id, e: nat,
                                           rounds: bool)
    requires IsRun(run, steps) && i <= j < |run| && d in run[i].devices && QuietFrom(run, i, d)
    requires Sound(run[i].db) && e < |ENTITIES| && Sized(run[i].devices[d])
    requires Stalled(run[i].db, run[i].devices[d], e, rounds)
    ensures d in run[j].devices && Sized(run[j].devices[d]) && Stalled(run[i].db, run[j].devices[d], e, rounds)
    decreases j - i
  {
    if i < j {
      RunStaysStalled(run, steps, i, j - 1, d, e, rounds);
      assert StepsTo(run, steps, j - 1);
      StepStaysStalled(run[j - 1], steps[j - 1], run[j], d, e, rounds);
    }
  }

  /**
   * The loop: while the server does not change, a device that is idle with a zero or refusable cursor on
   * a stuck entity never gets past it again, however often it starts a round or a refetch, and whether or
   * not it is killed in between. A new device is such a device.
   */
  lemma StuckNeverFinishes(run: seq<World>, steps: seq<Step>, i: nat, j: nat, d: Id, e: nat)
    requires IsRun(run, steps) && i <= j < |run| && d in run[i].devices && QuietFrom(run, i, d)
    requires Sound(run[i].db) && e < |ENTITIES| && Sized(run[i].devices[d]) && run[i].devices[d].task == Idle
    requires var device := run[i].devices[d];
             && Stuck(run[i].db, device, e)
             && (device.locals[e].cursor == ZERO || Refusable(run[i].db, device.tenant, device.locals[e].cursor))
    ensures d in run[j].devices
    ensures var task := run[j].devices[d].task; task == Idle || (task.Walking? && task.entity <= e)
  {
    RunStaysStalled(run, steps, i, j, d, e, true);
  }

  /** A device that was up to date is caught by the same loop once a refetch takes that entity's first page. */
  lemma RefetchStrands(db: Db, d: Device, asked: Device, after: Device, e: nat)
    requires Sound(db) && Sized(d) && e < |ENTITIES| && Stuck(db, d, e)
    requires d.task == Walking(e, ZERO, true, None)
    requires Acts(db, d, Ask, asked) && asked.task.Walking? && Acts(db, asked, Deliver, after)
    ensures Sized(after) && Stalled(db, after, e, true)
  {
    StuckAnswer(db, d, e, ZERO);
  }

  // ---- no stuck entity: the walk gets through ----

  function Since(d: Device, e: nat, full: bool): Cursor
    requires e < |d.locals|
  {
    if full then ZERO else d.locals[e].cursor
  }

  /** A walk of the entity from where it would start now is refused neither at once nor later. */
  ghost predicate Passable(db: Db, d: Device, e: nat, full: bool)
    requires Sound(db) && Sized(d) && e < |ENTITIES|
  {
    var rest := Tail(View(db, ScopeOf(d, e)), Since(d, e, full));
    && !Refusable(db, d.tenant, Since(d, e, full))
    && !StuckBehind(rest, Watermark(db, d.tenant), d.limit)
  }

  /** `longer` carries the run on, by walking steps of one device over an unchanged server. */
  ghost predicate CarriesOn(run: seq<World>, steps: seq<Step>, longer: seq<World>, more: seq<Step>, d: Id) {
    && IsRun(longer, more) && run != [] && run <= longer && steps <= more
    && (forall k :: |run| <= k < |longer| ==> longer[k].db == run[|run| - 1].db)
    && forall k :: |steps| <= k < |more| ==> StepOf(more[k], d) && (more[k].action.Ask? || more[k].action.Deliver?)
  }

  ghost function Last(run: seq<World>): World
    requires run != []
  {
    run[|run| - 1]
  }

  lemma OneMore(run: seq<World>, steps: seq<Step>, d: Id, action: Action, after: Device)
    returns (longer: seq<World>, more: seq<Step>)
    requires IsRun(run, steps) && Sound(Last(run).db) && d in Last(run).devices
    requires Sized(Last(run).devices[d]) && TaskSized(Last(run).devices[d].task)
    requires Acts(Last(run).db, Last(run).devices[d], action, after)
    ensures IsRun(longer, more) && longer == run + [Last(longer)] && more == steps + [Act(d, action)]
    ensures Last(longer) == World(Last(run).db, Last(run).log, Last(run).devices[d := after])
  {
    var next := World(Last(run).db, Last(run).log, Last(run).devices[d := after]);
    longer, more := run + [next], steps + [Act(d, action)];
    RunAppend(run, steps, Act(d, action), next);
  }

  lemma CarryOnTwice(run: seq<World>, steps: seq<Step>, mid: seq<World>, midSteps: seq<Step>,
                     longer: seq<World>, more: seq<Step>, d: Id)
    requires CarriesOn(run, steps, mid, midSteps, d) && CarriesOn(mid, midSteps, longer, more, d)
    ensures CarriesOn(run, steps, longer, more, d)
  {
    forall k | |run| <= k < |longer|
      ensures longer[k].db == run[|run| - 1].db
    {
      if k < |mid| {
        assert longer[k] == mid[k];
      } else {
        assert mid[|mid| - 1].db == run[|run| - 1].db;
      }
    }
    forall k | |steps| <= k < |more|
      ensures StepOf(more[k], d) && (more[k].action.Ask? || more[k].action.Deliver?)
    {
      if k < |midSteps| {
        assert more[k] == midSteps[k];
      }
    }
  }

  lemma OneCarriesOn(run: seq<World>, steps: seq<Step>, d: Id, action: Action, after: Device)
    returns (longer: seq<World>, more: seq<Step>)
    requires IsRun(run, steps) && Sound(Last(run).db) && d in Last(run).devices
    requires Sized(Last(run).devices[d]) && TaskSized(Last(run).devices[d].task)
    requires Acts(Last(run).db, Last(run).devices[d], action, after) && (action.Ask? || action.Deliver?)
    ensures CarriesOn(run, steps, longer, more, d)
    ensures Last(longer).db == Last(run).db && d in Last(longer).devices && Last(longer).devices[d] == after
  {
    longer, more := OneMore(run, steps, d, action, after);
  }

  function DeliveredAnew(d: Device, e: nat, c: Cursor, full: bool, page: PageResult): Device
    requires |d.locals| == |ENTITIES| && e < |ENTITIES| && page.Page?
  {
    Delivered(d.(intact := true), e, c, full, page)
  }

  /** One page of a walk that is not refused: asked for and delivered. */
  lemma OnePage(run: seq<World>, steps: seq<Step>, d: Id) returns (longer: seq<World>, more: seq<Step>)
    requires IsRun(run, steps) && Sound(Last(run).db) && d in Last(run).devices
    requires var device := Last(run).devices[d];
             && Sized(device) && device.task.Walking? && TaskSized(device.task) && device.task.reply == None
             && !Refusable(Last(run).db, device.tenant, device.task.cursor)
    ensures CarriesOn(run, steps, longer, more, d)
    ensures var db, device := Last(run).db, Last(run).devices[d];
            var page := Served(db, ScopeOf(device, device.task.entity), device.task.cursor, device.limit);
            && page.Page? && Last(longer).db == db && d in Last(longer).devices
            && Last(longer).devices[d] == DeliveredAnew(device, device.task.entity, device.task.cursor,
                                                        device.task.full, page)
  {
    var db, device := Last(run).db, Last(run).devices[d];
    var page := Served(db, ScopeOf(device, device.task.entity), device.task.cursor, device.limit);
    var asked := device.(task := device.task.(reply := Some(page)), intact := true);
    var mid, midSteps := OneCarriesOn(run, steps, d, Ask, asked);
    var after := Delivered(asked, device.task.entity, device.task.cursor, device.task.full, page);
    longer, more := OneCarriesOn(mid, midSteps, d, Deliver, after);
    CarryOnTwice(run, steps, mid, midSteps, longer, more, d);
  }

  /** Of the app, only the entity that is walked and the task have changed. */
  ghost predicate SameBut(d: Device, after: Device, e: nat) {
    && |after.locals| == |d.locals|
    && after == d.(locals := after.locals, task := after.task, stale := after.stale, intact := after.intact)
    && forall k :: 0 <= k < |d.locals| && k != e ==> after.locals[k] == d.locals[k]
  }

  /** The walk of an entity stands at a page boundary. */
  ghost predicate AtBoundary(d: Device, e: nat, full: bool, since: Cursor, rest: seq<SyncRow>, n: nat)
    requires n <= |rest|
  {
    && d.task == Walking(e, CursorAt(since, rest, n), full, None)
    && (n > 0 ==> d.limit <= n < |rest|)
  }

  lemma BoundaryPasses(db: Db, d: Device, e: nat, full: bool, n: nat)
    requires Sound(db) && Sized(d) && e < |ENTITIES| && Passable(db, d, e, full)
    requires var rest := Tail(View(db, ScopeOf(d, e)), Since(d, e, full));
             n <= |rest| && (n > 0 ==> d.limit <= n < |rest|)
    ensures !Refusable(db, d.tenant,
                       CursorAt(Since(d, e, full), Tail(View(db, ScopeOf(d, e)), Since(d, e, full)), n))
  {
    var stream := View(db, ScopeOf(d, e));
    var rest := Tail(stream, Since(d, e, full));
    TailOrdered(stream, Since(d, e, full));
    if n > d.limit {
      Strictly(rest, d.limit - 1, n - 1);
    }
  }

  /** One page further on: the next boundary, or the end of the entity. */
  lemma BoundaryPage(db: Db, was: Device, e: nat, full: bool, n: nat)
    requires Sound(db) && Sized(was) && e < |ENTITIES| && Passable(db, was, e, full)
    requires var rest := Tail(View(db, ScopeOf(was, e)), Since(was, e, full));
             n <= |rest| && (n > 0 ==> was.limit <= n < |rest|)
    ensures var rest := Tail(View(db, ScopeOf(was, e)), Since(was, e, full));
            var page := Served(db, ScopeOf(was, e), CursorAt(Since(was, e, full), rest, n), was.limit);
            && page.Page? && (page.hasMore <==> n + was.limit < |rest|)
            && (page.hasMore ==> page.next == CursorAt(Since(was, e, full), rest, n + was.limit))
  {
    BoundaryPasses(db, was, e, full, n);
    MidWalkPage(View(db, ScopeOf(was, e)), Watermark(db, was.tenant), Since(was, e, full), was.limit, n);
  }

  lemma PageAtFacts(rest: seq<SyncRow>, watermark: nat, since: Cursor, limit: nat, n: nat)
    requires limit > 0 && n <= |rest| && !(0 < CursorAt(since, rest, n).stamp < watermark)
    ensures var page := PageAt(rest, watermark, since, limit, n);
            && page.Page? && (page.hasMore <==> n + limit < |rest|)
            && (page.hasMore ==> page.next == CursorAt(since, rest, n + limit))
  {
  }

  lemma MidWalkPage(stream: seq<SyncRow>, watermark: nat, since: Cursor, limit: nat, n: nat)
    requires Ordered(stream) && limit > 0 && n <= |Tail(stream, since)|
    requires !(0 < CursorAt(since, Tail(stream, since), n).stamp < watermark)
    ensures var page := PullPage(stream, watermark, CursorAt(since, Tail(stream, since), n), limit);
            && page.Page? && (page.hasMore <==> n + limit < |Tail(stream, since)|)
            && (page.hasMore ==> page.next == CursorAt(since, Tail(stream, since), n + limit))
  {
    MidWalk(stream, watermark, since, limit, n);
    PageAtFacts(Tail(stream, since), watermark, since, limit, n);
  }

  lemma DeliveredFacts(was: Device, d: Device, e: nat, c: Cursor, full: bool, page: PageResult)
    requires Sized(was) && e < |ENTITIES| && SameBut(was, d, e) && page.Page?
    ensures var after := DeliveredAnew(d, e, c, full, page);
            && Sized(after) && SameBut(was, after, e)
            && after.task == if page.hasMore then Walking(e, page.next, full, None) else NextTask(after.locals, e, full)
  {
  }

  lemma NextBoundary(run: seq<World>, steps: seq<Step>, d: Id, was: Device, e: nat, full: bool, n: nat)
    returns (longer: seq<World>, more: seq<Step>)
    requires IsRun(run, steps) && Sound(Last(run).db) && d in Last(run).devices
    requires Sized(was) && e < |ENTITIES| && Passable(Last(run).db, was, e, full)
    requires var rest := Tail(View(Last(run).db, ScopeOf(was, e)), Since(was, e, full));
             n <= |rest| && AtBoundary(Last(run).devices[d], e, full, Since(was, e, full), rest, n)
    requires SameBut(was, Last(run).devices[d], e)
    ensures CarriesOn(run, steps, longer, more, d) && Last(longer).db == Last(run).db && d in Last(longer).devices
    ensures Sized(Last(longer).devices[d]) && SameBut(was, Last(longer).devices[d], e)
    ensures var rest := Tail(View(Last(run).db, ScopeOf(was, e)), Since(was, e, full));
            var after := Last(longer).devices[d];
            if |rest| - n > was.limit
            then n + was.limit < |rest| && AtBoundary(after, e, full, Since(was, e, full), rest, n + was.limit)
            else after.task == NextTask(after.locals, e, full)
  {
    var db, device := Last(run).db, Last(run).devices[d];
    BoundaryPasses(db, was, e, full, n);
    BoundaryPage(db, was, e, full, n);
    var page := Served(db, ScopeOf(was, e), device.task.cursor, was.limit);
    DeliveredFacts(was, device, e, device.task.cursor, full, page);
    longer, more := OnePage(run, steps, d);
  }

  /** The walk of a passable entity reaches the next one. */
  lemma WalkEntity(run: seq<World>, steps: seq<Step>, d: Id, was: Device, e: nat, full: bool, n: nat)
    returns (longer: seq<World>, more: seq<Step>)
    requires IsRun(run, steps) && Sound(Last(run).db) && d in Last(run).devices
    requires Sized(was) && e < |ENTITIES| && Passable(Last(run).db, was, e, full)
    requires var rest := Tail(View(Last(run).db, ScopeOf(was, e)), Since(was, e, full));
             n <= |rest| && AtBoundary(Last(run).devices[d], e, full, Since(was, e, full), rest, n)
    requires SameBut(was, Last(run).devices[d], e)
    ensures CarriesOn(run, steps, longer, more, d) && Last(longer).db == Last(run).db && d in Last(longer).devices
    ensures Sized(Last(longer).devices[d]) && SameBut(was, Last(longer).devices[d], e)
    ensures Last(longer).devices[d].task == NextTask(Last(longer).devices[d].locals, e, full)
    decreases |Tail(View(Last(run).db, ScopeOf(was, e)), Since(was, e, full))| - n
  {
    var rest := Tail(View(Last(run).db, ScopeOf(was, e)), Since(was, e, full));
    longer, more := NextBoundary(run, steps, d, was, e, full, n);
    if |rest| - n > was.limit {
      var mid, midSteps := longer, more;
      longer, more := WalkEntity(mid, midSteps, d, was, e, full, n + was.limit);
      CarryOnTwice(run, steps, mid, midSteps, longer, more, d);
    }
  }

  /** All entities from `e` on can be passed. */
  ghost predicate AllPassable(db: Db, d: Device, e: nat, full: bool)
    requires Sound(db) && Sized(d)
  {
    forall k :: e <= k < |ENTITIES| ==> Passable(db, d, k, full)
  }

  lemma SamePassable(db: Db, d: Device, after: Device, e: nat, full: bool)
    requires Sound(db) && Sized(d) && Sized(after) && SameBut(d, after, e) && AllPassable(db, d, e, full)
    ensures AllPassable(db, after, e + 1, full)
  {
    forall k | e + 1 <= k < |ENTITIES|
      ensures Passable(db, after, k, full)
    {
      assert Passable(db, d, k, full);
      assert Since(after, k, full) == Since(d, k, full);
    }
  }

  /** The end of a walk: a refetch is about to sweep, a round is over. */
  function WalkedOut(full: bool): Task { if full then Sweeping(0) else Finished(false) }

  /** A walk whose entities can all be passed reaches its end. */
  lemma WalkOut(run: seq<World>, steps: seq<Step>, d: Id, e: nat, full: bool)
    returns (longer: seq<World>, more: seq<Step>)
    requires IsRun(run, steps) && Sound(Last(run).db) && d in Last(run).devices && e < |ENTITIES|
    requires var device := Last(run).devices[d];
             && Sized(device) && AllPassable(Last(run).db, device, e, full)
             && device.task == Walking(e, Since(device, e, full), full, None)
    ensures CarriesOn(run, steps, longer, more, d) && Last(longer).db == Last(run).db && d in Last(longer).devices
    ensures Last(longer).devices[d].task == WalkedOut(full)
    decreases |ENTITIES| - e
  {
    var was := Last(run).devices[d];
    longer, more := WalkEntity(run, steps, d, was, e, full, 0);
    if e + 1 < |ENTITIES| {
      SamePassable(Last(run).db, was, Last(longer).devices[d], e, full);
      var mid, midSteps := longer, more;
      longer, more := WalkOut(mid, midSteps, d, e + 1, full);
      CarryOnTwice(run, steps, mid, midSteps, longer, more, d);
    }
  }

  // ---- exactly when a refetch can finish ----

  ghost predicate NoneStuck(db: Db, d: Device)
    requires Sound(db) && Sized(d)
  {
    forall e :: 0 <= e < |ENTITIES| ==> !Stuck(db, d, e)
  }

  /** `longer` continues the run over an unchanged server, in whatever way; `d` sees the same throughout. */
  ghost predicate Continues(run: seq<World>, steps: seq<Step>, longer: seq<World>, more: seq<Step>, d: Id) {
    && IsRun(longer, more) && run != [] && run <= longer && steps <= more && d in Last(run).devices
    && forall k :: |run| <= k < |longer| ==>
         && longer[k].db == Last(run).db
         && (d in longer[k].devices ==> longer[k].devices[d].sees == Last(run).devices[d].sees)
  }

  lemma ContinuesQuietly(run: seq<World>, steps: seq<Step>, longer: seq<World>, more: seq<Step>, d: Id)
    requires Continues(run, steps, longer, more, d)
    ensures |run| - 1 < |longer| && longer[|run| - 1] == Last(run) && QuietFrom(longer, |run| - 1, d)
  {
  }

  ghost predicate ReachesSweep(run: seq<World>, steps: seq<Step>, longer: seq<World>, more: seq<Step>, d: Id) {
    Continues(run, steps, longer, more, d) && d in Last(longer).devices && Last(longer).devices[d].task.Sweeping?
  }

  lemma {:induction false} OnlyActs(run: seq<World>, steps: seq<Step>, i: nat, j: nat, d: Id)
    requires IsRun(run, steps) && i <= j < |run| && d in run[i].devices
    requires forall k :: i <= k < j ==> StepOf(steps[k], d)
    ensures d in run[j].devices && run[j].devices[d].sees == run[i].devices[d].sees && run[j].log == run[i].log
    decreases j - i
  {
    if i < j {
      OnlyActs(run, steps, i, j - 1, d);
      assert StepsTo(run, steps, j - 1);
    }
  }

  lemma CarriedOnContinues(run: seq<World>, steps: seq<Step>, longer: seq<World>, more: seq<Step>, d: Id)
    requires IsRun(run, steps) && d in Last(run).devices && run <= longer && steps <= more && IsRun(longer, more)
    requires forall k :: |run| <= k < |longer| ==> longer[k].db == Last(run).db
    requires forall k :: |steps| <= k < |more| ==> StepOf(more[k], d)
    ensures Continues(run, steps, longer, more, d)
  {
    assert longer[|run| - 1] == Last(run);
    forall k | |run| <= k < |longer|
      ensures d in longer[k].devices && longer[k].devices[d].sees == Last(run).devices[d].sees
    {
      OnlyActs(longer, more, |run| - 1, k, d);
    }
  }

  lemma RefetchGetsThrough(run: seq<World>, steps: seq<Step>, d: Id) returns (longer: seq<World>, more: seq<Step>)
    requires IsRun(run, steps) && Sound(Last(run).db) && d in Last(run).devices
    requires Sized(Last(run).devices[d]) && Last(run).devices[d].task == Idle
    requires NoneStuck(Last(run).db, Last(run).devices[d])
    ensures ReachesSweep(run, steps, longer, more, d)
  {
    var db, device := Last(run).db, Last(run).devices[d];
    var started := device.(epoch := device.epoch + 1, task := Walking(0, ZERO, true, None));
    var mid, midSteps := OneMore(run, steps, d, StartRefetch, started);
    forall k | 0 <= k < |ENTITIES|
      ensures Passable(db, started, k, true)
    {
      assert !Stuck(db, device, k);
    }
    longer, more := WalkOut(mid, midSteps, d, 0, true);
    AfterStart(run, steps, mid, midSteps, longer, more, d);
    CarriedOnContinues(run, steps, longer, more, d);
  }

  lemma AfterStart(run: seq<World>, steps: seq<Step>, mid: seq<World>, midSteps: seq<Step>,
                   longer: seq<World>, more: seq<Step>, d: Id)
    requires IsRun(run, steps) && |mid| == |run| + 1 && run <= mid && Last(mid).db == Last(run).db
    requires |midSteps| == |steps| + 1 && steps <= midSteps && StepOf(midSteps[|steps|], d)
    requires CarriesOn(mid, midSteps, longer, more, d)
    ensures run <= longer && steps <= more
    ensures forall k :: |run| <= k < |longer| ==> longer[k].db == Last(run).db
    ensures forall k :: |steps| <= k < |more| ==> StepOf(more[k], d)
  {
    forall k | |run| <= k < |longer|
      ensures longer[k].db == Last(run).db
    {
      assert k == |run| ==> longer[k] == mid[k];
    }
    forall k | |steps| <= k < |more|
      ensures StepOf(more[k], d)
    {
      assert k == |steps| ==> more[k] == midSteps[k];
    }
  }

  lemma SweepMeansNoneStuck(run: seq<World>, steps: seq<Step>, longer: seq<World>, more: seq<Step>, d: Id, e: nat)
    requires IsRun(run, steps) && Sound(Last(run).db) && d in Last(run).devices && e < |ENTITIES|
    requires Sized(Last(run).devices[d]) && Last(run).devices[d].task == Idle
    requires ReachesSweep(run, steps, longer, more, d)
    ensures !Stuck(Last(run).db, Last(run).devices[d], e)
  {
    var i := |run| - 1;
    ContinuesQuietly(run, steps, longer, more, d);
    if Stuck(Last(run).db, Last(run).devices[d], e) {
      RunStaysStalled(longer, more, i, |longer| - 1, d, e, false);
    }
  }

  /**
   * While the server stays as it is, an idle device's refetch can reach its sweep if and only if none of
   * its entities is stuck.
   */
  lemma RefetchFinishesIff(run: seq<World>, steps: seq<Step>, d: Id)
    requires IsRun(run, steps) && d in Last(run).devices && Sound(Last(run).db)
    requires Sized(Last(run).devices[d]) && Last(run).devices[d].task == Idle
    ensures NoneStuck(Last(run).db, Last(run).devices[d])
       <==> exists longer, more :: ReachesSweep(run, steps, longer, more, d)
  {
    if NoneStuck(Last(run).db, Last(run).devices[d]) {
      var longer, more := RefetchGetsThrough(run, steps, d);
    }
    if longer, more :| ReachesSweep(run, steps, longer, more, d) {
      forall e | 0 <= e < |ENTITIES| {
        SweepMeansNoneStuck(run, steps, longer, more, d, e);
      }
    }
  }

  // ---- a whole walk ----

  lemma CarriedOnUndisturbed(run: seq<World>, steps: seq<Step>, longer: seq<World>, more: seq<Step>, d: Id)
    requires IsRun(run, steps) && CarriesOn(run, steps, longer, more, d)
    ensures Undisturbed(longer, more, |run| - 1, |longer| - 1, d)
    ensures forall k :: |run| - 1 <= k < |longer| - 1 && StepOf(more[k], d) ==> !more[k].action.Sweep?
  {
    assert longer[|run| - 1] == run[|run| - 1];
  }

  function StartOf(full: bool): Action { if full then StartRefetch else StartRound }

  function Begun(d: Device, full: bool): Device
    requires |d.locals| == |ENTITIES|
  {
    d.(epoch := if full then d.epoch + 1 else d.epoch, task := Walking(0, Since(d, 0, full), full, None))
  }

  /** What a walk from its start to its end, over an unchanged server, leaves on the device. */
  ghost predicate WalkedThrough(db: Db, d: Device, after: Device, full: bool)
    requires Sized(d)
  {
    && Sized(after) && SameScopes(d, after) && after.task == WalkedOut(full)
    && AllCaughtUp(db, after, |ENTITIES|)
    && (MirrorsKnown(db, after) <==> MirrorsKnown(db, d))
    && (!full && d.swept == d.epoch && d.stale == {} ==> Faithful(db, after))
  }

  /** An idle device whose entities can all be passed has a walk from start to end. */
  lemma WholeWalk(run: seq<World>, steps: seq<Step>, d: Id, full: bool)
    returns (longer: seq<World>, more: seq<Step>)
    requires IsRun(run, steps) && Sound(Last(run).db) && d in Last(run).devices
    requires var device := Last(run).devices[d];
             Sized(device) && device.task == Idle && AllPassable(Last(run).db, device, 0, full)
    ensures IsRun(longer, more) && run <= longer && Last(longer).db == Last(run).db && d in Last(longer).devices
    ensures WalkedThrough(Last(run).db, Last(run).devices[d], Last(longer).devices[d], full)
    ensures steps <= more && Last(longer).log == Last(run).log
    ensures !full ==> QuietRound(longer, more, |run| - 1, |longer| - 1, d)
  {
    var db, device := Last(run).db, Last(run).devices[d];
    var begun := Begun(device, full);
    var mid, midSteps := OneMore(run, steps, d, StartOf(full), begun);
    BegunPassable(db, device, full);
    longer, more := WalkOut(mid, midSteps, d, 0, full);
    CarriedOnUndisturbed(mid, midSteps, longer, more, d);
    AfterStart(run, steps, mid, midSteps, longer, more, d);
    assert longer[|run| - 1] == Last(run);
    OnlyActs(longer, more, |run| - 1, |longer| - 1, d);
    WalkedFacts(longer, more, |run| - 1, d, device, full);
  }

  lemma BegunPassable(db: Db, d: Device, full: bool)
    requires Sound(db) && Sized(d) && AllPassable(db, d, 0, full)
    ensures AllPassable(db, Begun(d, full), 0, full)
  {
    forall k | 0 <= k < |ENTITIES|
      ensures Passable(db, Begun(d, full), k, full)
    {
      assert Passable(db, d, k, full);
    }
  }

  lemma WalkedFacts(run: seq<World>, steps: seq<Step>, i: nat, d: Id, was: Device, full: bool)
    requires IsRun(run, steps) && i + 1 < |run| && d in run[i + 1].devices && Sized(was)
    requires run[i + 1].devices[d] == Begun(was, full) && Undisturbed(run, steps, i + 1, |run| - 1, d)
    requires forall k :: i + 1 <= k < |run| - 1 && StepOf(steps[k], d) ==> !steps[k].action.Sweep?
    requires d in Last(run).devices && Last(run).devices[d].task == WalkedOut(full)
    ensures WalkedThrough(run[i + 1].db, was, Last(run).devices[d], full)
  {
    var j := |run| - 1;
    RunKeepsInv(run, steps, i + 1);
    RunIsUnderway(run, steps, i + 1, j, d, full);
    RunKeepsLost(run, steps, i + 1, j, d, full);
    assert Last(run) == run[j];
    if !full && was.swept == was.epoch && was.stale == {} {
      RunKeepsInv(run, steps, j);
      forall e | 0 <= e < |ENTITIES|
        ensures Exact(run[j].db, ScopeOf(run[j].devices[d], e), run[j].devices[d].locals[e].mirror)
      {
        SettledIsExact(run[j].db, run[j].log, run[j].devices[d], e);
      }
    }
  }
}
