/**
 * Runs in which the documented convergence fails, for every page limit: a new device that can never
 * finish its first round (backend/app/routers/sync.py:79-90), and a device whose finished rounds go on
 * mirroring a row the server has deleted, because the refetch that should have dropped it was killed
 * before its sweep (apps/mobile/src/data/pull.ts:77-96). The app's limit is 500
 * (apps/mobile/src/data/pull.ts:20).
 */
module SyncWitnesses {
  import opened Records
  import opened Sizes
  import opened Reaper
  import opened SyncPull
  import opened SyncProtocol
  import opened SyncInvariant
  import opened SyncSafety
  import opened SyncResults
  import opened SyncGaps
  import opened SyncStalls

  const TENANT: Id := 7
  const DEVICE: Id := 9

  function Enrolled(limit: nat, sees: set<Id>): Device {
    Device(TENANT, limit, sees, 1, 1, seq(|ENTITIES|, i => Local(ZERO, map[])), Idle, {}, true)
  }

  // ---- a new device that never syncs ----

  function Place(stamp: nat): Row { Row(Locations, TENANT, stamp, false, {}, {}, None) }

  function Purged(stamp: nat): Row { Row(Members, TENANT, stamp, true, {}, {}, Some(0)) }

  /** One location more than a page holds. */
  function Places(limit: nat): map<Id, Row> { map id: Id | 1 <= id <= limit + 1 :: Place(id) }

  /** And a member purged on day 0. */
  function BeforeReap(limit: nat): Db {
    Db(Places(limit)[limit + 2 := Purged(limit + 2)], limit + 2, map[TENANT := 0])
  }

  function AfterReap(limit: nat): Db { Db(Places(limit), limit + 5, map[TENANT := limit + 5]) }

  function Everything(limit: nat): set<Id> { Places(limit).Keys + {limit + 2} }

  lemma WitnessIsSound(limit: nat)
    ensures Sound(BeforeReap(limit)) && Homed(BeforeReap(limit)) && Sound(AfterReap(limit))
  {
  }

  lemma WitnessIsDue(limit: nat)
    ensures Due(BeforeReap(limit).rows, 0) == {limit + 2}
    ensures TenantsOf(BeforeReap(limit).rows, {limit + 2}) == {TENANT}
    ensures Doomed(BeforeReap(limit).rows, {limit + 2}) == {limit + 2}
  {
    assert {} * {limit + 2} == {};
    assert limit + 2 in BeforeReap(limit).rows;
  }

  lemma WitnessRowIsKept(limit: nat, r: Row)
    requires r.refs == {}
    ensures KeptAs(r, r, {limit + 2}, BeforeReap(limit).drawn, AfterReap(limit).drawn)
  {
    assert Cleared(r, {limit + 2}).refs == {};
  }

  lemma ReapOfWitness(limit: nat)
    ensures Reaped(BeforeReap(limit), {limit + 2}, AfterReap(limit))
  {
    WitnessIsDue(limit);
    forall id | id in AfterReap(limit).rows
      ensures KeptAs(BeforeReap(limit).rows[id], AfterReap(limit).rows[id], {limit + 2},
                     BeforeReap(limit).drawn, AfterReap(limit).drawn)
    {
      WitnessRowIsKept(limit, Place(id));
    }
    assert AfterReap(limit).rows.Keys == BeforeReap(limit).rows.Keys - {limit + 2};
  }

  ghost function FirstPlaces(n: nat): set<SyncRow> {
    if n == 0 then {} else FirstPlaces(n - 1) + {AsSyncRow(n, Place(n))}
  }

  lemma {:induction false} PlacesCount(n: nat)
    ensures |FirstPlaces(n)| == n && forall r :: r in FirstPlaces(n) ==> r.id <= n
  {
    if n > 0 {
      PlacesCount(n - 1);
      assert AsSyncRow(n, Place(n)) !in FirstPlaces(n - 1);
    }
  }

  lemma {:induction false} PlacesAreIn(rest: seq<SyncRow>, n: nat)
    requires forall id: nat :: 1 <= id <= n ==> AsSyncRow(id, Place(id)) in rest
    ensures FirstPlaces(n) <= Elements(rest)
  {
    if n > 0 {
      PlacesAreIn(rest, n - 1);
    }
  }

  /** An ordered list with `n` different places in it has at least that many entries. */
  lemma AtLeast(rest: seq<SyncRow>, n: nat)
    requires Ordered(rest) && forall id: nat :: 1 <= id <= n ==> AsSyncRow(id, Place(id)) in rest
    ensures |rest| >= n
  {
    PlacesCount(n);
    PlacesAreIn(rest, n);
    SubsetSize(FirstPlaces(n), Elements(rest));
    assert forall i, j :: 0 <= i < j < |rest| ==> Before(rest[i], rest[j]);
    DistinctSize(rest);
  }

  ghost function PlacesToPull(limit: nat): seq<SyncRow>
    requires Sound(AfterReap(limit))
  {
    Tail(View(AfterReap(limit), Scope(TENANT, Locations, Everything(limit))), ZERO)
  }

  lemma PlacesFillThePage(limit: nat)
    requires limit > 0 && Sound(AfterReap(limit))
    ensures |PlacesToPull(limit)| > limit
  {
    var db, s := AfterReap(limit), Scope(TENANT, Locations, Everything(limit));
    var rest := PlacesToPull(limit);
    TailOrdered(View(db, s), ZERO);
    forall id: nat | 1 <= id <= limit + 1
      ensures AsSyncRow(id, Place(id)) in rest
    {
      RestRows(db, s, ZERO, AsSyncRow(id, Place(id)));
    }
    AtLeast(rest, limit + 1);
  }

  lemma LocationsAreStuck(limit: nat)
    requires limit > 0
    ensures Sound(AfterReap(limit)) && Stuck(AfterReap(limit), Enrolled(limit, Everything(limit)), 1)
  {
    WitnessIsSound(limit);
    PlacesFillThePage(limit);
    var rest := PlacesToPull(limit);
    RestRows(AfterReap(limit), Scope(TENANT, Locations, Everything(limit)), ZERO, rest[limit - 1]);
    assert rest[limit - 1] in rest;
  }

  predicate StillBefore(task: Task, e: nat) { task == Idle || (task.Walking? && task.entity <= e) }

  lemma NeverPastLocations(limit: nat, run: seq<World>, steps: seq<Step>, longer: seq<World>, more: seq<Step>, k: nat)
    requires limit > 0 && run != [] && Last(run).db == AfterReap(limit)
    requires Last(run).devices == map[DEVICE := Enrolled(limit, Everything(limit))]
    requires Continues(run, steps, longer, more, DEVICE) && |run| <= k < |longer|
    ensures DEVICE in longer[k].devices && StillBefore(longer[k].devices[DEVICE].task, 1)
  {
    ContinuesQuietly(run, steps, longer, more, DEVICE);
    LocationsAreStuck(limit);
    StuckNeverFinishes(longer, more, |run| - 1, k, DEVICE, 1);
  }

  lemma ReapThenEnroll(limit: nat) returns (run: seq<World>, steps: seq<Step>)
    requires limit > 0
    ensures IsRun(run, steps) && steps == [Reap(0), Enroll(DEVICE)]
    ensures Last(run).db == AfterReap(limit)
    ensures Last(run).devices == map[DEVICE := Enrolled(limit, Everything(limit))]
  {
    WitnessIsSound(limit);
    WitnessIsDue(limit);
    ReapOfWitness(limit);
    var log := Log({}, BeforeReap(limit).rows.Keys);
    var start, reaped := World(BeforeReap(limit), log, map[]), World(AfterReap(limit), log, map[]);
    var enrolled := World(AfterReap(limit), log, map[DEVICE := Enrolled(limit, Everything(limit))]);
    RunAppend([start], [], Reap(0), reaped);
    RunAppend([start] + [reaped], [] + [Reap(0)], Enroll(DEVICE), enrolled);
    run, steps := [start] + [reaped] + [enrolled], [] + [Reap(0)] + [Enroll(DEVICE)];
  }

  /**
   * For any page limit: one member is reaped, then a device enrols. While the server stays as it is, that
   * device never gets past the second entity, whatever it starts and however often.
   */
  lemma NewDeviceNeverSyncs(limit: nat) returns (run: seq<World>, steps: seq<Step>)
    requires limit > 0
    ensures IsRun(run, steps) && steps == [Reap(0), Enroll(DEVICE)] && DEVICE in Last(run).devices
    ensures NewDevice(Last(run).devices[DEVICE], Last(run).db) && Last(run).devices[DEVICE].limit == limit
    ensures forall longer: seq<World>, more: seq<Step>, k: nat ::
              Continues(run, steps, longer, more, DEVICE) && |run| <= k < |longer| ==>
              DEVICE in longer[k].devices && StillBefore(longer[k].devices[DEVICE].task, 1)
  {
    run, steps := ReapThenEnroll(limit);
    forall longer: seq<World>, more: seq<Step>, k: nat |
      Continues(run, steps, longer, more, DEVICE) && |run| <= k < |longer|
      ensures DEVICE in longer[k].devices && StillBefore(longer[k].devices[DEVICE].task, 1)
    {
      NeverPastLocations(limit, run, steps, longer, more, k);
    }
  }

  // ---- a deleted member that stays ----

  const MEMBER: Id := 3

  const LIVING: Db := Db(map[MEMBER := Row(Members, TENANT, 1, false, {}, {}, None)], 1, map[TENANT := 0])

  const PURGED: Db := Db(map[MEMBER := Purged(2)], 2, map[TENANT := 0])

  const REAPED: Db := Db(map[], 5, map[TENANT := 5])

  lemma MemberIsLiving()
    ensures Sound(LIVING) && Homed(LIVING) && Sound(LIVING.(drawn := 2))
  {
  }

  lemma MemberIsPurged(used: set<Id>)
    ensures Sound(PURGED) && Committed(LIVING.(drawn := 2), PURGED, {2}, used)
  {
  }

  lemma MemberIsReaped()
    ensures Sound(REAPED) && ReapStep(PURGED, REAPED, 0)
  {
    assert Due(PURGED.rows, 0) == {MEMBER};
    assert TenantsOf(PURGED.rows, {MEMBER}) == {TENANT};
    assert Doomed(PURGED.rows, {MEMBER}) == {MEMBER};
  }

  /** With at most one row in the whole database nothing is stuck at any limit. */
  lemma FewRowsPass(db: Db, d: Device, full: bool)
    requires Sound(db) && Sized(d) && db.rows.Keys <= {MEMBER}
    requires forall e :: 0 <= e < |ENTITIES| ==> !Refusable(db, d.tenant, Since(d, e, full))
    ensures AllPassable(db, d, 0, full)
  {
    forall e | 0 <= e < |ENTITIES|
      ensures Passable(db, d, e, full)
    {
      var stream := View(db, ScopeOf(d, e));
      var rest := Tail(stream, Since(d, e, full));
      TailOrdered(stream, Since(d, e, full));
      forall r | r in rest
        ensures r.id == MEMBER && r == AsSyncRow(MEMBER, db.rows[MEMBER])
      {
        RestRows(db, ScopeOf(d, e), Since(d, e, full), r);
      }
      AtMostOne(rest);
    }
  }

  lemma AtMostOne(rest: seq<SyncRow>)
    requires Ordered(rest) && forall a, b :: a in rest && b in rest ==> a == b
    ensures |rest| <= 1
  {
    assert forall i :: 0 <= i < |rest| ==> rest[i] in rest;
    assert |rest| > 1 ==> Before(rest[0], rest[1]);
  }

  lemma Append(run: seq<World>, steps: seq<Step>, step: Step, next: World) returns (longer: seq<World>, more: seq<Step>)
    requires IsRun(run, steps) && Next(Last(run), step, next)
    ensures IsRun(longer, more) && Last(longer) == next
  {
    RunAppend(run, steps, step, next);
    longer, more := run + [next], steps + [step];
  }

  /** A tenant with one member, and a device that has just enrolled. */
  lemma EnrolledOnly(limit: nat) returns (run: seq<World>, steps: seq<Step>)
    requires limit > 0
    ensures IsRun(run, steps)
    ensures Last(run) == World(LIVING, Log({}, {MEMBER}), map[DEVICE := Enrolled(limit, {MEMBER})])
  {
    MemberIsLiving();
    var start := World(LIVING, Log({}, {MEMBER}), map[]);
    var enrolled := World(LIVING, Log({}, {MEMBER}), map[DEVICE := Enrolled(limit, {MEMBER})]);
    run, steps := Append([start], [], Enroll(DEVICE), enrolled);
  }

  lemma ExactMirrorsMember(d: Device)
    requires Sized(d) && d.tenant == TENANT && d.sees == {MEMBER} && Faithful(LIVING, d)
    ensures MEMBER in d.locals[2].mirror
  {
    assert Exact(LIVING, ScopeOf(d, 2), d.locals[2].mirror);
    assert Known(LIVING, ScopeOf(d, 2), MEMBER);
  }

  /** What the witness's device is: idle, of that tenant and limit, and allowed to see the member. */
  ghost predicate Witness(d: Device, limit: nat) {
    Sized(d) && d.tenant == TENANT && d.limit == limit && d.sees == {MEMBER} && d.task == Idle
  }

  /** The device has finished its first round: the living member is mirrored. */
  lemma SyncedOnce(limit: nat) returns (run: seq<World>, steps: seq<Step>)
    requires limit > 0
    ensures IsRun(run, steps) && Last(run).db == LIVING
    ensures DEVICE in Last(run).devices && Witness(Last(run).devices[DEVICE], limit)
    ensures MEMBER in Last(run).devices[DEVICE].locals[2].mirror
  {
    MemberIsLiving();
    run, steps := EnrolledOnly(limit);
    FewRowsPass(LIVING, Enrolled(limit, {MEMBER}), false);
    run, steps := WholeWalk(run, steps, DEVICE, false);
    var device := Last(run).devices[DEVICE];
    ExactMirrorsMember(device);
    run, steps := OneMore(run, steps, DEVICE, Finish, device.(task := Idle));
  }

  ghost function CommitWorld(w: World, db: Db, values: set<nat>): World {
    World(db, Log(w.log.pending - values, w.log.used + db.rows.Keys),
          map d | d in w.devices :: AfterCommit(w.db, db, w.devices[d]))
  }

  /** The member is purged and reaped; the device still mirrors it. */
  lemma ReapedBehindIt(limit: nat) returns (run: seq<World>, steps: seq<Step>)
    requires limit > 0
    ensures IsRun(run, steps) && Last(run).db == REAPED && DEVICE in Last(run).devices
    ensures Witness(Last(run).devices[DEVICE], limit) && !MirrorsKnown(REAPED, Last(run).devices[DEVICE])
  {
    run, steps := SyncedOnce(limit);
    MemberIsLiving();
    MemberIsReaped();
    var synced := Last(run);
    MemberIsPurged(synced.log.used);
    var drawn := synced.(db := LIVING.(drawn := 2), log := synced.log.(pending := synced.log.pending + {2}));
    run, steps := Append(run, steps, Draw, drawn);
    var purged := CommitWorld(drawn, PURGED, {2});
    run, steps := Append(run, steps, Commit({2}), purged);
    run, steps := Append(run, steps, Reap(0), purged.(db := REAPED));
    assert !AllKnown(REAPED, ScopeOf(purged.devices[DEVICE], 2), purged.devices[DEVICE].locals[2].mirror);
  }

  /**
   * For any page limit: a refetch walks everything and is killed before its sweep. The round after it
   * finishes, no cursor would be refused, and still the device mirrors a row the server has lost.
   */
  lemma CutRefetchLeavesALostRow(limit: nat) returns (run: seq<World>, steps: seq<Step>)
    requires limit > 0
    ensures IsRun(run, steps) && Sound(Last(run).db) && DEVICE in Last(run).devices
    ensures var db, device := Last(run).db, Last(run).devices[DEVICE];
            && Sized(device) && device.limit == limit && device.task == Finished(false)
            && (forall e :: 0 <= e < |ENTITIES| ==> !Refusable(db, device.tenant, device.locals[e].cursor))
            && !MirrorsKnown(db, device)
  {
    MemberIsReaped();
    run, steps := ReapedBehindIt(limit);
    FewRowsPass(REAPED, Last(run).devices[DEVICE], true);
    run, steps := WholeWalk(run, steps, DEVICE, true);
    var walked := Last(run).devices[DEVICE];
    run, steps := OneMore(run, steps, DEVICE, Kill, walked.(task := Idle));
    NoneRefusable(walked);
    FewRowsPass(REAPED, Last(run).devices[DEVICE], false);
    run, steps := WholeWalk(run, steps, DEVICE, false);
    NoneRefusable(Last(run).devices[DEVICE]);
  }

  lemma NoneRefusable(d: Device)
    requires Sized(d) && AllCaughtUp(REAPED, d, |ENTITIES|)
    ensures forall e :: 0 <= e < |ENTITIES| ==> !Refusable(REAPED, d.tenant, d.locals[e].cursor)
  {
    forall e | 0 <= e < |ENTITIES|
      ensures !Refusable(REAPED, d.tenant, d.locals[e].cursor)
    {
      assert CaughtUp(REAPED, ScopeOf(d, e), d.locals[e].cursor);
    }
  }

  // ---- rows below the cursor ----

  const OTHER: Id := 4

  function Live(stamp: nat): Row { Row(Members, TENANT, stamp, false, {}, {}, None) }

  /** No watermark: nothing is refused or stuck. */
  lemma UnmarkedPasses(db: Db, d: Device)
    requires Sound(db) && Sized(d) && Watermark(db, d.tenant) == 0
    ensures AllPassable(db, d, 0, false)
  {
  }

  /** A device that enrols and finishes its first round is at rest, and has passed everything it may see. */
  lemma SyncedFirst(run: seq<World>, steps: seq<Step>, limit: nat, sees: set<Id>)
    returns (longer: seq<World>, more: seq<Step>)
    requires IsRun(run, steps) && limit > 0 && Sound(Last(run).db) && Last(run).db.marks == map[TENANT := 0]
    requires DEVICE !in Last(run).devices
    ensures IsRun(longer, more) && Last(longer).db == Last(run).db && AtRest(Last(longer), DEVICE, 2)
    ensures Last(longer).log == Last(run).log && Last(longer).devices[DEVICE].limit == limit
    ensures Last(longer).devices[DEVICE].tenant == TENANT && Last(longer).devices[DEVICE].sees == sees
    ensures CaughtUp(Last(run).db, Scope(TENANT, Members, sees), Last(longer).devices[DEVICE].locals[2].cursor)
  {
    var device, w := Enrolled(limit, sees), Last(run);
    longer, more := Append(run, steps, Enroll(DEVICE), w.(devices := w.devices[DEVICE := device]));
    UnmarkedPasses(w.db, device);
    var i := |longer| - 1;
    longer, more := WholeWalk(longer, more, DEVICE, false);
    QuietRoundFacts(longer, more, i, |longer| - 1, DEVICE, 2);
    longer, more := OneMore(longer, more, DEVICE, Finish, Last(longer).devices[DEVICE].(task := Idle));
  }

  /** A step of the server and the device's next round. */
  lemma StepThenRound(run: seq<World>, steps: seq<Step>, step: Step, next: World)
    returns (longer: seq<World>, more: seq<Step>)
    requires IsRun(run, steps) && Next(Last(run), step, next) && Sound(next.db) && HasDevice(next, DEVICE)
    requires next.devices[DEVICE].task == Idle && Watermark(next.db, next.devices[DEVICE].tenant) == 0
    ensures |longer| > |steps| + 1 && QuietRound(longer, more, |steps| + 1, |longer| - 1, DEVICE)
    ensures longer[|steps|] == Last(run) && longer[|steps| + 1] == next && more[|steps|] == step
  {
    RunAppend(run, steps, step, next);
    UnmarkedPasses(next.db, next.devices[DEVICE]);
    longer, more := WholeWalk(run + [next], steps + [step], DEVICE, false);
    assert longer[|steps|] == (run + [next])[|steps|] && longer[|steps| + 1] == (run + [next])[|steps| + 1];
    assert more[|steps|] == (steps + [step])[|steps|];
  }

  const BLANK: Db := Db(map[], 0, map[TENANT := 0])

  const SECOND: Db := Db(map[OTHER := Live(2)], 2, map[TENANT := 0])

  const BOTH: Db := Db(map[OTHER := Live(2), MEMBER := Live(1)], 2, map[TENANT := 0])

  /** Two transactions have drawn a value each, and only the second has committed. */
  lemma SecondCommitted() returns (run: seq<World>, steps: seq<Step>)
    ensures IsRun(run, steps) && Last(run) == World(SECOND, Log({1}, {OTHER}), map[])
  {
    var start := World(BLANK, Log({}, {}), map[]);
    var one := World(BLANK.(drawn := 1), Log({1}, {}), map[]);
    var two := World(BLANK.(drawn := 2), Log({1, 2}, {}), map[]);
    assert {} + {0 + 1} == {1} && {1} + {1 + 1} == {1, 2} && {1, 2} - {2} == {1};
    run, steps := Append([start], [], Draw, one);
    run, steps := Append(run, steps, Draw, two);
    assert Committed(two.db, SECOND, {2}, {});
    run, steps := Append(run, steps, Commit({2}), World(SECOND, Log({1}, {OTHER}), map[]));
  }

  lemma LateIsMissed(w: World)
    requires HasDevice(w, DEVICE) && w.db == SECOND && w.devices[DEVICE].tenant == TENANT
    requires w.devices[DEVICE].sees == {MEMBER, OTHER}
    requires CaughtUp(SECOND, Scope(TENANT, Members, {MEMBER, OTHER}), w.devices[DEVICE].locals[2].cursor)
    ensures MissesAt(w, CommitWorld(w, BOTH, {1}), DEVICE, 2)
  {
    var c := w.devices[DEVICE].locals[2].cursor;
    assert Known(SECOND, Scope(TENANT, Members, {MEMBER, OTHER}), OTHER);
    assert Changed(SECOND, BOTH, MEMBER) && Passed(c, MEMBER, BOTH.rows[MEMBER], ScopeOf(w.devices[DEVICE], 2));
  }

  lemma LateIsNext(w: World) returns (next: World)
    requires w.log == Log({1}, {OTHER}) && HasDevice(w, DEVICE) && w.db == SECOND
    requires w.devices[DEVICE].tenant == TENANT && w.devices[DEVICE].sees == {MEMBER, OTHER}
    requires CaughtUp(SECOND, Scope(TENANT, Members, {MEMBER, OTHER}), w.devices[DEVICE].locals[2].cursor)
    ensures next.db == BOTH && Sound(BOTH) && Next(w, Commit({1}), next)
    ensures HasDevice(next, DEVICE) && SameApp(w.devices[DEVICE], next.devices[DEVICE])
    ensures MissesAt(w, next, DEVICE, 2)
  {
    next := CommitWorld(w, BOTH, {1});
    LateIsCommitted();
    LateIsMissed(w);
  }

  /**
   * For any page limit: two transactions draw a value each, the second commits, a device finishes its
   * first round, and the first commits. The device's next round finishes too, and does not bring the row.
   */
  lemma LateCommitIsMissed(limit: nat) returns (run: seq<World>, steps: seq<Step>, i: nat, j: nat)
    requires limit > 0
    ensures QuietRound(run, steps, i + 1, j, DEVICE) && steps[i] == Commit({1}) && AtRest(run[i], DEVICE, 2)
    ensures run[i].devices[DEVICE].limit == limit && HasDevice(run[j], DEVICE) && !ExactAt(run[j], DEVICE, 2)
  {
    run, steps := SecondCommitted();
    run, steps := SyncedFirst(run, steps, limit, {MEMBER, OTHER});
    var w := Last(run);
    i := |steps|;
    var next;
    run, steps, next := CommitThenRound(run, steps);
    j := |run| - 1;
    MissedStaysMissed(run, steps, i, j, w, next);
  }

  lemma CommitThenRound(run: seq<World>, steps: seq<Step>)
    returns (longer: seq<World>, more: seq<Step>, next: World)
    requires IsRun(run, steps) && Last(run).log == Log({1}, {OTHER}) && Last(run).db == SECOND
    requires AtRest(Last(run), DEVICE, 2) && Last(run).devices[DEVICE].tenant == TENANT
    requires Last(run).devices[DEVICE].sees == {MEMBER, OTHER}
    requires CaughtUp(SECOND, Scope(TENANT, Members, {MEMBER, OTHER}), Last(run).devices[DEVICE].locals[2].cursor)
    ensures |longer| > |steps| + 1 && QuietRound(longer, more, |steps| + 1, |longer| - 1, DEVICE)
    ensures longer[|steps|] == Last(run) && longer[|steps| + 1] == next && more[|steps|] == Commit({1})
    ensures MissesAt(Last(run), next, DEVICE, 2)
  {
    next := LateIsNext(Last(run));
    longer, more := StepThenRound(run, steps, Commit({1}), next);
  }

  lemma MissedStaysMissed(run: seq<World>, steps: seq<Step>, i: nat, j: nat, w: World, next: World)
    requires QuietRound(run, steps, i + 1, j, DEVICE) && steps[i].Commit?
    requires run[i] == w && run[i + 1] == next && AtRest(w, DEVICE, 2) && MissesAt(w, next, DEVICE, 2)
    ensures HasDevice(run[j], DEVICE) && !ExactAt(run[j], DEVICE, 2)
  {
    var missed := CommitIsSeenIff(run, steps, i, j, DEVICE, 2);
  }

  lemma LateIsCommitted()
    ensures Sound(SECOND) && Sound(BOTH) && Committed(SECOND, BOTH, {1}, {OTHER})
  {
  }

  lemma RevealedIsExposed(w: World)
    requires HasDevice(w, DEVICE) && w.db == BOTH && w.devices[DEVICE].tenant == TENANT
    requires w.devices[DEVICE].sees == {OTHER}
    requires CaughtUp(BOTH, Scope(TENANT, Members, {OTHER}), w.devices[DEVICE].locals[2].cursor)
    ensures Exposes(BOTH, w.devices[DEVICE], 2, {MEMBER, OTHER})
  {
    assert Known(BOTH, Scope(TENANT, Members, {OTHER}), OTHER);
    var c, s := w.devices[DEVICE].locals[2].cursor, Scope(TENANT, Members, {MEMBER, OTHER});
    assert Passed(c, MEMBER, BOTH.rows[MEMBER], s);
  }

  /**
   * For any page limit: a member becomes visible whose row is older than one the device has seen. The
   * device's next round finishes, and does not bring it.
   */
  lemma RevealedRowIsMissed(limit: nat) returns (run: seq<World>, steps: seq<Step>, i: nat, j: nat)
    requires limit > 0
    ensures QuietRound(run, steps, i + 1, j, DEVICE) && steps[i] == Rescope(DEVICE, {MEMBER, OTHER})
    ensures AtRest(run[i], DEVICE, 2) && run[i].devices[DEVICE].limit == limit
    ensures HasDevice(run[j], DEVICE) && !ExactAt(run[j], DEVICE, 2)
  {
    run, steps := [World(BOTH, Log({}, {MEMBER, OTHER}), map[])], [];
    run, steps := SyncedFirst(run, steps, limit, {OTHER});
    i := |steps|;
    var w := Last(run);
    RevealedIsExposed(w);
    var after := Rescoped(w.db, w.devices[DEVICE], {MEMBER, OTHER});
    run, steps := StepThenRound(run, steps, Rescope(DEVICE, {MEMBER, OTHER}),
        w.(devices := w.devices[DEVICE := after]));
    j := |run| - 1;
    RescopeIsSeenIff(run, steps, i, j, DEVICE, 2);
  }
}
