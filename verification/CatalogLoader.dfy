/** The idempotent upsert of catalog files (backend/app/core/advancement_catalog.py:88-236). */
module CatalogLoader {
  import opened Records
  import opened MetricConditions
  import opened CatalogSpec

  /** (rank code, version): the identity of a requirement set. */
  type SetKey = (string, string)

  /** One rank's entry in one ranks file. */
  datatype Block = Block(key: SetKey, items: seq<Item>)

  datatype Delta = Delta(sets: nat, counts: Counts)

  type Store = map<SetKey, Rows>

  function RowsOf(store: Store, key: SetKey): Rows {
    if key in store then store[key] else map[]
  }

  // ---- the three loops over one set ----

  /** After the upsert loop over `lines`: their rows are live and hold them, all others are untouched. */
  ghost predicate Upserted(before: Rows, lines: seq<Line>, rows: Rows, lo: nat, hi: nat) {
    && rows.Keys == before.Keys + Slots(lines)
    && (forall s :: s in before && s !in Slots(lines) ==> rows[s] == before[s])
    && AllUpserted(rows, lines)
    && IdsKept(before, rows, lo, hi)
    && NewIdsDistinct(before, rows)
  }

  ghost predicate AllUpserted(rows: Rows, lines: seq<Line>) {
    forall i :: 0 <= i < |lines| ==> UpsertedAt(rows, lines, i)
  }

  ghost predicate UpsertedAt(rows: Rows, lines: seq<Line>, i: nat)
    requires i < |lines|
  {
    lines[i].Slot() in rows && !rows[lines[i].Slot()].isDeleted && Holds(rows[lines[i].Slot()].req, lines[i], i)
  }

  lemma SlotsAppend(lines: seq<Line>, l: Line)
    ensures Slots(lines + [l]) == Slots(lines) + {l.Slot()}
  {
    assert l in lines + [l];
    assert forall x :: x in lines + [l] <==> x in lines || x == l;
  }

  lemma DistinctAppend(lines: seq<Line>, l: Line)
    requires DistinctSlots(lines) && l.Slot() !in Slots(lines)
    ensures DistinctSlots(lines + [l])
  {
    forall i, j | 0 <= i < j < |lines + [l]|
      ensures (lines + [l])[i].Slot() != (lines + [l])[j].Slot()
    {
      SlotsContain(lines, i);
    }
  }

  lemma UpsertedLines(lines: seq<Line>, rows: Rows, l: Line, row: Row)
    requires AllUpserted(rows, lines)
    requires l.Slot() !in Slots(lines) && !row.isDeleted && Holds(row.req, l, |lines|)
    ensures AllUpserted(rows[l.Slot() := row], lines + [l])
  {
    var after, more := rows[l.Slot() := row], lines + [l];
    forall i | 0 <= i < |more|
      ensures UpsertedAt(after, more, i)
    {
      if i < |lines| {
        assert UpsertedAt(rows, lines, i);
        SlotsContain(lines, i);
      }
    }
  }

  lemma UpsertedIds(before: Rows, rows: Rows, lo: nat, mid: nat, s: Slot, row: Row, hi: nat)
    requires IdsKept(before, rows, lo, mid) && NewIdsDistinct(before, rows)
    requires if s in before then row.req.id == before[s].req.id && hi == mid
             else s !in rows && row.req.id == mid && hi == mid + 1
    ensures IdsKept(before, rows[s := row], lo, hi) && NewIdsDistinct(before, rows[s := row])
  {
  }

  /** Writing the row of the next line, whose slot is new to the file. */
  lemma UpsertOne(before: Rows, lines: seq<Line>, rows: Rows, lo: nat, mid: nat, l: Line, row: Row, hi: nat)
    requires Upserted(before, lines, rows, lo, mid)
    requires l.Slot() !in Slots(lines)
    requires !row.isDeleted && Holds(row.req, l, |lines|)
    requires if l.Slot() in before then row.req.id == before[l.Slot()].req.id && hi == mid
             else row.req.id == mid && hi == mid + 1
    ensures Upserted(before, lines + [l], rows[l.Slot() := row], lo, hi)
  {
    SlotsAppend(lines, l);
    UpsertedLines(lines, rows, l, row);
    UpsertedIds(before, rows, lo, mid, l.Slot(), row, hi);
  }

  lemma DifferenceGrows(a: set<Slot>, x: Slot, b: set<Slot>)
    requires x !in a
    ensures |a + {x} - b| == |a - b| + (if x in b then 0 else 1)
  {
    assert a + {x} - b == if x in b then a - b else a - b + {x};
  }

  lemma DoneGrows(a: set<Slot>, todo: set<Slot>, x: Slot)
    requires x in todo
    ensures |a - (todo - {x})| == |a - todo| + (if x in a then 1 else 0)
  {
    assert a - (todo - {x}) == if x in a then a - todo + {x} else a - todo;
  }

  /** The rows when the tombstoning loop still has `todo` to look at. */
  ghost function Swept(existing: Rows, upserted: Rows, seen: set<Slot>, todo: set<Slot>): Rows {
    map s | s in upserted ::
      if s in existing && s !in seen && s !in todo then existing[s].(isDeleted := true) else upserted[s]
  }

  lemma NothingSwept(existing: Rows, upserted: Rows, seen: set<Slot>)
    ensures Swept(existing, upserted, seen, existing.Keys) == upserted
    ensures Missing(existing, seen) - existing.Keys == {}
  {
  }

  lemma SweepStep(existing: Rows, upserted: Rows, seen: set<Slot>, todo: set<Slot>, s: Slot)
    requires todo <= existing.Keys && s in todo
    requires forall t :: t in existing && t !in seen ==> t in upserted && upserted[t] == existing[t]
    ensures var rows, after := Swept(existing, upserted, seen, todo), Swept(existing, upserted, seen, todo - {s});
            var done, next := Missing(existing, seen) - todo, Missing(existing, seen) - (todo - {s});
            if s !in seen && !existing[s].isDeleted
            then s in rows && rows[s] == existing[s] && after == rows[s := existing[s].(isDeleted := true)]
                 && |next| == |done| + 1
            else (s in seen || (s in rows && rows[s] == existing[s])) && after == rows && |next| == |done|
  {
    DoneGrows(Missing(existing, seen), todo, s);
    var rows, after := Swept(existing, upserted, seen, todo), Swept(existing, upserted, seen, todo - {s});
    if s !in seen && !existing[s].isDeleted {
      assert after == rows[s := existing[s].(isDeleted := true)];
    } else {
      assert s !in seen ==> existing[s] == existing[s].(isDeleted := true);
      assert after == rows;
    }
  }

  lemma CreatedOne(before: Rows, lines: seq<Line>, l: Line)
    requires l.Slot() !in Slots(lines)
    ensures |CreatedSlots(before, lines + [l])| == |CreatedSlots(before, lines)| + (if l.Slot() in before then 0 else 1)
  {
    SlotsAppend(lines, l);
    DifferenceGrows(Slots(lines), l.Slot(), before.Keys);
  }

  lemma UpdatedAreSlots(before: Rows, lines: seq<Line>)
    ensures UpdatedSlots(before, lines) <= Slots(lines)
  {
    forall s | s in UpdatedSlots(before, lines)
      ensures s in Slots(lines)
    {
      var i :| 0 <= i < |lines| && lines[i].Slot() == s;
      SlotsContain(lines, i);
    }
  }

  lemma UpdatedOne(before: Rows, lines: seq<Line>, l: Line)
    requires l.Slot() !in Slots(lines)
    ensures |UpdatedSlots(before, lines + [l])| ==
            |UpdatedSlots(before, lines)| + (if Differs(before, l, |lines|) then 1 else 0)
  {
    UpdatedAreSlots(before, lines);
    UpdatedAppend(before, lines, l);
  }

  lemma UpdatedAppend(before: Rows, lines: seq<Line>, l: Line)
    ensures UpdatedSlots(before, lines + [l]) ==
            UpdatedSlots(before, lines) + (if Differs(before, l, |lines|) then {l.Slot()} else {})
  {
    var more := lines + [l];
    assert forall i :: 0 <= i < |lines| ==> more[i] == lines[i];
    assert more[|lines|] == l;
    forall s | s in UpdatedSlots(before, more)
      ensures s in UpdatedSlots(before, lines) + (if Differs(before, l, |lines|) then {l.Slot()} else {})
    {
      var i :| 0 <= i < |more| && Differs(before, more[i], i) && more[i].Slot() == s;
      if i < |lines| {
        assert Differs(before, lines[i], i) && lines[i].Slot() == s;
      }
    }
    forall s | s in UpdatedSlots(before, lines)
      ensures s in UpdatedSlots(before, more)
    {
      var i :| 0 <= i < |lines| && Differs(before, lines[i], i) && lines[i].Slot() == s;
      assert Differs(before, more[i], i) && more[i].Slot() == s;
    }
  }

  // ---- the upsert loop as a fold ----

  /** The row a line ends up with: a new one, the existing one, or the existing one corrected and revived. */
  function RowFor(existing: Rows, line: Line, order: nat, newId: Id): Row {
    if line.Slot() !in existing then
      Row(Requirement(newId, line.number, line.letter, None, order, line.text, line.stableKey, line.metrics,
          line.autoCredit), false)
    else if Differs(existing, line, order) then
      Row(existing[line.Slot()].req.(text := line.text, stableKey := line.stableKey, metrics := line.metrics,
                                     autoCredit := line.autoCredit, sortOrder := order), false)
    else existing[line.Slot()]
  }

  datatype Progressed = Progressed(rows: Rows, created: nat, updated: nat, nextId: nat)

  function UpsertLines(existing: Rows, lines: seq<Line>, nextId: nat): Progressed {
    if lines == [] then Progressed(existing, 0, 0, nextId)
    else
      var init, l := lines[..|lines| - 1], lines[|lines| - 1];
      var p := UpsertLines(existing, init, nextId);
      var row := RowFor(existing, l, |init|, p.nextId);
      if l.Slot() !in existing then Progressed(p.rows[l.Slot() := row], p.created + 1, p.updated, p.nextId + 1)
      else Progressed(p.rows[l.Slot() := row], p.created,
          p.updated + (if Differs(existing, l, |init|) then 1 else 0), p.nextId)
  }

  lemma LastIsNew(lines: seq<Line>)
    requires DistinctSlots(lines) && lines != []
    ensures DistinctSlots(lines[..|lines| - 1]) && lines[|lines| - 1].Slot() !in Slots(lines[..|lines| - 1])
    ensures lines == lines[..|lines| - 1] + [lines[|lines| - 1]]
  {
    var init := lines[..|lines| - 1];
    forall l | l in init
      ensures l.Slot() != lines[|lines| - 1].Slot()
    {
      var i :| 0 <= i < |init| && init[i] == l;
      assert lines[i].Slot() != lines[|lines| - 1].Slot();
    }
  }

  lemma {:induction false} UpsertLinesRows(existing: Rows, lines: seq<Line>, nextId: nat)
    requires DistinctSlots(lines) && Keyed(existing)
    ensures Upserted(existing, lines, UpsertLines(existing, lines, nextId).rows, nextId,
        UpsertLines(existing, lines, nextId).nextId)
  {
    if lines != [] {
      var init, l := lines[..|lines| - 1], lines[|lines| - 1];
      LastIsNew(lines);
      UpsertLinesRows(existing, init, nextId);
      var p := UpsertLines(existing, init, nextId);
      UpsertOne(existing, init, p.rows, nextId, p.nextId, l, RowFor(existing, l, |init|, p.nextId),
          UpsertLines(existing, lines, nextId).nextId);
    }
  }

  lemma {:induction false} UpsertLinesCounts(existing: Rows, lines: seq<Line>, nextId: nat)
    requires DistinctSlots(lines)
    ensures UpsertLines(existing, lines, nextId).created == |CreatedSlots(existing, lines)|
    ensures UpsertLines(existing, lines, nextId).updated == |UpdatedSlots(existing, lines)|
  {
    if lines == [] {
      assert CreatedSlots(existing, lines) == {} && UpdatedSlots(existing, lines) == {};
    } else {
      var init, l := lines[..|lines| - 1], lines[|lines| - 1];
      LastIsNew(lines);
      UpsertLinesCounts(existing, init, nextId);
      CreatedOne(existing, init, l);
      UpdatedOne(existing, init, l);
    }
  }

  class CatalogStore {
    var sets: Store
    var nextId: nat

    /** Ids are drawn in order and never reused. */
    ghost predicate Valid()
      reads this
    {
      ValidStore(sets, nextId)
    }

    constructor ()
      ensures Valid() && sets == map[]
    {
      sets := map[];
      nextId := 0;
    }

    /** First loop: create, correct or revive the row of each item; stop at the first bad item. */
    method UpsertItems(existing: Rows, items: seq<Item>)
      returns (ok: bool, rows: Rows, seen: set<Slot>, created: nat, updated: nat)
      requires Keyed(existing)
      modifies this`nextId
      ensures old(nextId) <= nextId
      ensures ok <==> ValidItems(items)
      ensures ok ==>
                && DistinctSlots(LinesOf(items)) && seen == Slots(LinesOf(items))
                && UpsertLines(existing, LinesOf(items), old(nextId)) == Progressed(rows, created, updated, nextId)
    {
      rows, seen, created, updated := existing, {}, 0, 0;
      ghost var lines: seq<Line> := [];
      for i := 0 to |items|
        invariant ParsedSoFar(items, lines, i)
        invariant DistinctSlots(lines) && seen == Slots(lines)
        invariant old(nextId) <= nextId
        invariant UpsertLines(existing, lines, old(nextId)) == Progressed(rows, created, updated, nextId)
      {
        var item := items[i];
        if (item.number, item.letter) in seen {
          RepeatedSlot(items, lines, i);
          return false, rows, seen, created, updated;
        }
        var accepted, metrics := ValidateMetrics(item.metrics);
        if !accepted {
          return false, rows, seen, created, updated;
        }
        ghost var line := LineOf(item);
        assert (lines + [line])[..|lines + [line]| - 1] == lines;
        DistinctAppend(lines, line);
        SlotsAppend(lines, line);
        var row := UpsertRow(existing, item, metrics, i);
        if (item.number, item.letter) !in existing {
          created := created + 1;
        } else if row != existing[(item.number, item.letter)] {
          updated := updated + 1;
        }
        rows := rows[(item.number, item.letter) := row];
        seen := seen + {(item.number, item.letter)};
        lines := lines + [line];
      }
      assert lines == LinesOf(items);
      AllDistinct(items, lines);
      ok := true;
    }

    /** One item of the first loop; an existing row is rewritten only when something differs. */
    method UpsertRow(existing: Rows, item: Item, metrics: Option<seq<Condition>>, order: nat) returns (row: Row)
      requires Keyed(existing) && AcceptedMetrics(item.metrics) && metrics == ParsedMetrics(item.metrics)
      modifies this`nextId
      ensures row == RowFor(existing, LineOf(item), order, old(nextId))
      ensures nextId == old(nextId) + (if (item.number, item.letter) in existing then 0 else 1)
      ensures (item.number, item.letter) in existing ==>
                (row != existing[(item.number, item.letter)] <==> Differs(existing, LineOf(item), order))
    {
      var slot := (item.number, item.letter);
      var stableKey := if item.stableKey == Some("") then None else item.stableKey;
      if slot !in existing {
        row := Row(Requirement(nextId, item.number, item.letter, None, order, item.text, stableKey, metrics,
            item.autoCredit), false);
        nextId := nextId + 1;
      } else {
        row := existing[slot];
        var changed :=
          || row.req.text != item.text
          || row.req.stableKey != stableKey
          || row.req.metrics != metrics
          || row.req.autoCredit != item.autoCredit
          || row.req.sortOrder != order
          || row.isDeleted;
        if changed {
          row := Row(row.req.(text := item.text, stableKey := stableKey, metrics := metrics,
                              autoCredit := item.autoCredit, sortOrder := order), false);
        }
      }
    }

    /** Second loop: tombstone the rows of the set that are not in the file. */
    method TombstoneMissing(existing: Rows, upserted: Rows, seen: set<Slot>) returns (rows: Rows, removed: nat)
      requires forall s :: s in existing && s !in seen ==> s in upserted && upserted[s] == existing[s]
      ensures rows.Keys == upserted.Keys
      ensures forall s :: s in rows ==>
                rows[s] == if s in existing && s !in seen then existing[s].(isDeleted := true) else upserted[s]
      ensures removed == |Missing(existing, seen)|
    {
      rows, removed := upserted, 0;
      var todo := existing.Keys;
      NothingSwept(existing, upserted, seen);
      while todo != {}
        invariant todo <= existing.Keys
        invariant rows == Swept(existing, upserted, seen, todo)
        invariant removed == |Missing(existing, seen) - todo|
        decreases |todo|
      {
        var s :| s in todo;
        SweepStep(existing, upserted, seen, todo, s);
        if s !in seen && !rows[s].isDeleted {
          rows := rows[s := rows[s].(isDeleted := true)];
          removed := removed + 1;
        }
        todo := todo - {s};
      }
      assert Missing(existing, seen) - todo == Missing(existing, seen);
    }

    /** Third loop: hang lettered rows off the bare-numbered row of the same file, and unlink the rest. */
    method LinkParents(tombstoned: Rows, items: seq<Item>, seen: set<Slot>) returns (rows: Rows)
      requires forall i :: 0 <= i < |items| ==> AcceptedMetrics(items[i].metrics)
      requires DistinctSlots(LinesOf(items)) && seen == Slots(LinesOf(items)) && seen <= tombstoned.Keys
      ensures rows.Keys == tombstoned.Keys
      ensures forall s :: s in rows && s !in seen ==> rows[s] == tombstoned[s]
      ensures forall i :: 0 <= i < |items| ==> Linked(tombstoned, rows, LinesOf(items), i)
    {
      ghost var lines := LinesOf(items);
      rows := tombstoned;
      for i := 0 to |items|
        invariant rows == LinkedUpTo(tombstoned, seen, lines, i)
      {
        SlotsContain(lines, i);
        rows := LinkRow(rows, seen, items[i]);
      }
      LinkedUpToAll(tombstoned, lines);
    }

    method LinkRow(linked: Rows, seen: set<Slot>, item: Item) returns (rows: Rows)
      requires AcceptedMetrics(item.metrics) && LineOf(item).Slot() in linked && seen <= linked.Keys
      ensures rows == Relink(linked, seen, LineOf(item))
    {
      rows := linked;
      var slot, bare := (item.number, item.letter), (item.number, "");
      var parent := if item.letter != "" && bare in seen then Some(rows[bare].req.id) else None;
      if rows[slot].req.parent != parent {
        rows := rows[slot := rows[slot].(req := rows[slot].req.(parent := parent))];
      }
    }

    /** Loads one rank's items into its set; a bad file leaves the store as it was. */
    method UpsertRequirementSet(block: Block) returns (ok: bool, delta: Delta)
      requires Valid()
      modifies this
      ensures Valid() && old(nextId) <= nextId
      ensures ok <==> ValidItems(block.items)
      ensures !ok ==> sets == old(sets)
      ensures ok ==> BlockStep(old(sets), block, sets, delta, old(nextId), nextId)
    {
      var key := block.key;
      var existing := RowsOf(sets, key);
      var newSets := if key in sets then 0 else 1;
      var rows, seen, created, updated;
      ok, rows, seen, created, updated := UpsertItems(existing, block.items);
      if !ok {
        OlderStoreValid(sets, old(nextId), nextId);
        return false, Delta(0, Counts(0, 0, 0));
      }
      UpsertLinesRows(existing, LinesOf(block.items), old(nextId));
      UpsertLinesCounts(existing, LinesOf(block.items), old(nextId));
      var tombstoned, removed := TombstoneMissing(existing, rows, seen);
      var linked := LinkParents(tombstoned, block.items, seen);
      LoadFinished(existing, LinesOf(block.items), rows, tombstoned, linked, old(nextId), nextId, created, updated,
          removed);
      sets := sets[key := linked];
      delta := Delta(newSets, Counts(created, updated, removed));
      StaysValid(old(sets), block, sets, delta, old(nextId), nextId);
    }

    /** Loads the blocks of all files in order; the caller rolls everything back when one is bad. */
    method LoadCatalog(blocks: seq<Block>) returns (ok: bool, deltas: seq<Delta>, ghost run: Trace)
      requires Valid()
      modifies this
      ensures Valid()
      ensures ok <==> AllValid(blocks)
      ensures !ok ==> sets == old(sets)
      ensures ok ==> LoadRun(old(sets), blocks, deltas, run) && EndOf(old(sets), run) == sets
    {
      var snapshot := sets;
      ok, deltas, run := LoadBlocks(blocks);
      if !ok {
        sets := snapshot;
        OlderStoreValid(snapshot, old(nextId), nextId);
      }
    }

    /** The loop over the blocks; it stops at the first bad one. */
    method LoadBlocks(blocks: seq<Block>) returns (ok: bool, deltas: seq<Delta>, ghost run: Trace)
      requires Valid()
      modifies this
      ensures Valid() && old(nextId) <= nextId
      ensures ok <==> AllValid(blocks)
      ensures ok ==> LoadRun(old(sets), blocks, deltas, run) && EndOf(old(sets), run) == sets
    {
      ok, deltas, run := true, [], [];
      for i := 0 to |blocks|
        invariant ValidStore(sets, nextId) && old(nextId) <= nextId
        invariant LoadRun(old(sets), blocks[..i], deltas, run) && EndOf(old(sets), run) == sets
      {
        ghost var lo := nextId;
        var loaded, delta := UpsertRequirementSet(blocks[i]);
        if !loaded {
          OneBad(blocks, i);
          return false, deltas, run;
        }
        TakeNext(blocks, i);
        RunAppend(old(sets), blocks[..i], deltas, run, blocks[i], delta, Loaded(sets, lo, nextId));
        run, deltas := run + [Loaded(sets, lo, nextId)], deltas + [delta];
      }
      assert blocks[..|blocks|] == blocks;
      RunIsValid(old(sets), blocks, deltas, run);
    }
  }

  lemma OneBad(blocks: seq<Block>, i: nat)
    requires i < |blocks| && !ValidItems(blocks[i].items)
    ensures !AllValid(blocks)
  {
    assert blocks[i] in blocks;
  }

  lemma TakeNext(blocks: seq<Block>, i: nat)
    requires i < |blocks|
    ensures blocks[..i + 1] == blocks[..i] + [blocks[i]]
  {
  }

  lemma {:induction false} RunIsValid(start: Store, blocks: seq<Block>, deltas: seq<Delta>, run: Trace)
    requires LoadRun(start, blocks, deltas, run)
    ensures AllValid(blocks)
  {
    if blocks != [] {
      var n := |blocks| - 1;
      RunIsValid(start, blocks[..n], deltas[..n], run[..n]);
      ValidAppend(blocks);
    }
  }

  lemma ValidAppend(blocks: seq<Block>)
    requires blocks != [] && AllValid(blocks[..|blocks| - 1]) && ValidItems(blocks[|blocks| - 1].items)
    ensures AllValid(blocks)
  {
    assert blocks == blocks[..|blocks| - 1] + [blocks[|blocks| - 1]];
  }

  /** The rows with the parent link of one line set to what the file says. */
  function Relink(rows: Rows, slots: set<Slot>, line: Line): Rows
    requires line.Slot() in rows
  {
    rows[line.Slot() := rows[line.Slot()].(req := rows[line.Slot()].req.(parent := ParentLink(rows, slots, line)))]
  }

  /** The rows when the linking loop has done the first `i` lines. */
  ghost function LinkedUpTo(rows: Rows, slots: set<Slot>, lines: seq<Line>, i: nat): (linked: Rows)
    requires i <= |lines| && forall l :: l in lines ==> l.Slot() in rows
    ensures linked.Keys == rows.Keys
  {
    if i == 0 then rows else Relink(LinkedUpTo(rows, slots, lines, i - 1), slots, lines[i - 1])
  }

  /** Linking moves parent links only, and only of lines already met. */
  lemma {:induction false} LinkedUpToKeeps(rows: Rows, slots: set<Slot>, lines: seq<Line>, i: nat, s: Slot)
    requires i <= |lines| && (forall l :: l in lines ==> l.Slot() in rows) && s in rows
    ensures var linked := LinkedUpTo(rows, slots, lines, i);
            && linked[s] == rows[s].(req := rows[s].req.(parent := linked[s].req.parent))
            && ((forall k :: 0 <= k < i ==> lines[k].Slot() != s) ==> linked[s] == rows[s])
  {
    if i > 0 {
      LinkedUpToKeeps(rows, slots, lines, i - 1, s);
    }
  }

  /** The link line `k` got when it was met stays: its slot does not come again. */
  lemma {:induction false} LinkedUpToAt(rows: Rows, slots: set<Slot>, lines: seq<Line>, i: nat, k: nat)
    requires k < i <= |lines| && DistinctSlots(lines) && forall l :: l in lines ==> l.Slot() in rows
    ensures LinkedUpTo(rows, slots, lines, i)[lines[k].Slot()].req.parent == ParentLink(rows, slots, lines[k])
  {
    if k < i - 1 {
      LinkedUpToAt(rows, slots, lines, i - 1, k);
    } else {
      LinkSource(rows, slots, lines, k);
    }
  }

  lemma LinkSource(rows: Rows, slots: set<Slot>, lines: seq<Line>, k: nat)
    requires k < |lines| && forall l :: l in lines ==> l.Slot() in rows
    ensures ParentLink(LinkedUpTo(rows, slots, lines, k), slots, lines[k]) == ParentLink(rows, slots, lines[k])
  {
    var bare := (lines[k].number, "");
    if bare in rows {
      LinkedUpToKeeps(rows, slots, lines, k, bare);
    }
  }

  lemma LinkedUpToAll(rows: Rows, lines: seq<Line>)
    requires DistinctSlots(lines) && forall l :: l in lines ==> l.Slot() in rows
    ensures var linked := LinkedUpTo(rows, Slots(lines), lines, |lines|);
            && (forall s :: s in linked && s !in Slots(lines) ==> linked[s] == rows[s])
            && forall i :: 0 <= i < |lines| ==> Linked(rows, linked, lines, i)
  {
    var linked := LinkedUpTo(rows, Slots(lines), lines, |lines|);
    forall s | s in rows && s !in Slots(lines)
      ensures linked[s] == rows[s]
    {
      LinkedUpToKeeps(rows, Slots(lines), lines, |lines|, s);
      forall k | 0 <= k < |lines| {
        SlotsContain(lines, k);
      }
    }
    forall i | 0 <= i < |lines|
      ensures Linked(rows, linked, lines, i)
    {
      SlotsContain(lines, i);
      LinkedUpToKeeps(rows, Slots(lines), lines, |lines|, lines[i].Slot());
      LinkedUpToAt(rows, Slots(lines), lines, |lines|, i);
    }
  }

  /** Only the parent link of the row may have moved, and it is what the file says. */
  ghost predicate Linked(before: Rows, rows: Rows, lines: seq<Line>, i: nat)
    requires i < |lines|
  {
    var s := lines[i].Slot();
    && s in before && s in rows
    && rows[s] == before[s].(req := before[s].req.(parent := ParentLink(before, Slots(lines), lines[i])))
  }

  /** No id is used twice, within a set or across sets, and the ones to come are unused. */
  ghost predicate ValidStore(sets: Store, nextId: nat) {
    && (forall k :: k in sets ==> ValidRows(sets[k], nextId))
    && forall k, l :: k in sets && l in sets && k != l ==> SeparateRows(sets[k], sets[l])
  }

  ghost predicate SeparateRows(rows: Rows, others: Rows) {
    forall s, t :: s in rows && t in others ==> rows[s].req.id != others[t].req.id
  }

  ghost predicate ValidRows(rows: Rows, nextId: nat) {
    DistinctRowIds(rows) && Keyed(rows) && forall s :: s in rows ==> rows[s].req.id < nextId
  }

  ghost predicate BlockStep(before: Store, block: Block, after: Store, delta: Delta, lo: nat, hi: nat) {
    && ValidItems(block.items)
    && block.key in after
    && after == before[block.key := after[block.key]]
    && LoadStep(RowsOf(before, block.key), LinesOf(block.items), after[block.key], delta.counts, lo, hi)
    && delta.sets == if block.key in before then 0 else 1
  }

  ghost predicate AllValid(blocks: seq<Block>) {
    forall b :: b in blocks ==> ValidItems(b.items)
  }

  /** The store after one block, with the id counter before and after it. */
  datatype Loaded = Loaded(store: Store, lo: nat, hi: nat)

  type Trace = seq<Loaded>

  ghost function EndOf(start: Store, run: Trace): Store {
    if run == [] then start else run[|run| - 1].store
  }

  /** A run of successful block loads from `start`, recorded block by block. */
  ghost predicate LoadRun(start: Store, blocks: seq<Block>, deltas: seq<Delta>, run: Trace) {
    && |run| == |deltas| == |blocks|
    && (blocks != [] ==>
         var n := |blocks| - 1;
         && LoadRun(start, blocks[..n], deltas[..n], run[..n])
         && BlockStep(EndOf(start, run[..n]), blocks[n], run[n].store, deltas[n], run[n].lo, run[n].hi))
  }

  lemma RunAppend(start: Store, blocks: seq<Block>, deltas: seq<Delta>, run: Trace, block: Block, delta: Delta,
                  next: Loaded)
    requires LoadRun(start, blocks, deltas, run)
    requires BlockStep(EndOf(start, run), block, next.store, delta, next.lo, next.hi)
    ensures LoadRun(start, blocks + [block], deltas + [delta], run + [next])
  {
    var n := |blocks|;
    assert (run + [next])[..n] == run && (blocks + [block])[..n] == blocks && (deltas + [delta])[..n] == deltas;
  }

  lemma OlderStoreValid(sets: Store, older: nat, newer: nat)
    requires ValidStore(sets, older) && older <= newer
    ensures ValidStore(sets, newer)
  {
  }

  ghost predicate ParsedSoFar(items: seq<Item>, lines: seq<Line>, i: nat) {
    && |lines| == i <= |items|
    && forall k :: 0 <= k < i ==> AcceptedMetrics(items[k].metrics) && lines[k] == LineOf(items[k])
  }

  lemma RepeatedSlot(items: seq<Item>, lines: seq<Line>, i: nat)
    requires i < |items| && ParsedSoFar(items, lines, i)
    requires (items[i].number, items[i].letter) in Slots(lines)
    ensures !ValidItems(items)
  {
    var l :| l in lines && l.Slot() == (items[i].number, items[i].letter);
    var k :| 0 <= k < |lines| && lines[k] == l;
    assert (items[k].number, items[k].letter) == (items[i].number, items[i].letter);
  }

  lemma AllDistinct(items: seq<Item>, lines: seq<Line>)
    requires forall i :: 0 <= i < |items| ==> AcceptedMetrics(items[i].metrics)
    requires lines == LinesOf(items) && DistinctSlots(lines)
    ensures ValidItems(items)
  {
    forall i, j | 0 <= i < j < |items|
      ensures (items[i].number, items[i].letter) != (items[j].number, items[j].letter)
    {
      assert lines[i].Slot() != lines[j].Slot();
    }
  }

  lemma LoadFinished(existing: Rows, lines: seq<Line>, upserted: Rows, tombstoned: Rows, linked: Rows, lo: nat, hi: nat,
                     created: nat, updated: nat, removed: nat)
    requires DistinctSlots(lines) && Upserted(existing, lines, upserted, lo, hi)
    requires tombstoned.Keys == upserted.Keys
    requires forall s :: s in tombstoned ==>
               tombstoned[s] ==
               if s in existing && s !in Slots(lines) then existing[s].(isDeleted := true) else upserted[s]
    requires linked.Keys == tombstoned.Keys
    requires forall s :: s in linked && s !in Slots(lines) ==> linked[s] == tombstoned[s]
    requires forall i :: 0 <= i < |lines| ==> Linked(tombstoned, linked, lines, i)
    requires created == |CreatedSlots(existing, lines)| && updated == |UpdatedSlots(existing, lines)|
    requires removed == |Missing(existing, Slots(lines))|
    ensures LoadStep(existing, lines, linked, Counts(created, updated, removed), lo, hi)
  {
    LinkedIds(upserted, tombstoned, linked, lines, existing);
    SameIdsKept(existing, upserted, linked, lo, hi);
    LoadedSynced(existing, lines, upserted, tombstoned, linked);
  }

  lemma LoadedSynced(existing: Rows, lines: seq<Line>, upserted: Rows, tombstoned: Rows, linked: Rows)
    requires DistinctSlots(lines) && AllUpserted(upserted, lines)
    requires tombstoned.Keys == upserted.Keys == linked.Keys == existing.Keys + Slots(lines)
    requires forall s :: s in tombstoned ==>
               tombstoned[s] ==
               if s in existing && s !in Slots(lines) then existing[s].(isDeleted := true) else upserted[s]
    requires forall s :: s in linked && s !in Slots(lines) ==> linked[s] == tombstoned[s]
    requires forall s :: s in linked ==> linked[s].req.id == tombstoned[s].req.id
    requires forall i :: 0 <= i < |lines| ==> Linked(tombstoned, linked, lines, i)
    ensures Synced(linked, lines)
  {
    LinkedLines(upserted, tombstoned, linked, lines, existing);
  }

  lemma SameIdsKept(before: Rows, upserted: Rows, linked: Rows, lo: nat, hi: nat)
    requires IdsKept(before, upserted, lo, hi) && NewIdsDistinct(before, upserted)
    requires linked.Keys == upserted.Keys && forall s :: s in linked ==> linked[s].req.id == upserted[s].req.id
    ensures IdsKept(before, linked, lo, hi) && NewIdsDistinct(before, linked)
  {
  }

  lemma LinkedIds(upserted: Rows, tombstoned: Rows, linked: Rows, lines: seq<Line>, existing: Rows)
    requires tombstoned.Keys == upserted.Keys == linked.Keys
    requires forall s :: s in tombstoned ==>
               tombstoned[s] ==
               if s in existing && s !in Slots(lines) then existing[s].(isDeleted := true) else upserted[s]
    requires forall s :: s in existing && s !in Slots(lines) ==> s in upserted && upserted[s] == existing[s]
    requires forall s :: s in linked && s !in Slots(lines) ==> linked[s] == tombstoned[s]
    requires forall i :: 0 <= i < |lines| ==> Linked(tombstoned, linked, lines, i)
    ensures forall s :: s in linked ==> linked[s].req.id == upserted[s].req.id == tombstoned[s].req.id
  {
    forall s | s in linked
      ensures linked[s].req.id == upserted[s].req.id
    {
      if s in Slots(lines) {
        var l :| l in lines && l.Slot() == s;
        var i :| 0 <= i < |lines| && lines[i] == l;
        assert Linked(tombstoned, linked, lines, i);
      }
    }
  }

  lemma LinkedLines(upserted: Rows, tombstoned: Rows, linked: Rows, lines: seq<Line>, existing: Rows)
    requires tombstoned.Keys == upserted.Keys == linked.Keys
    requires forall s :: s in tombstoned && s in Slots(lines) ==> tombstoned[s] == upserted[s]
    requires forall s :: s in linked ==> linked[s].req.id == tombstoned[s].req.id
    requires AllUpserted(upserted, lines)
    requires forall i :: 0 <= i < |lines| ==> Linked(tombstoned, linked, lines, i)
    ensures forall i :: 0 <= i < |lines| ==> LineStored(linked, lines, i)
  {
    forall i | 0 <= i < |lines|
      ensures LineStored(linked, lines, i)
    {
      SlotsContain(lines, i);
      assert UpsertedAt(upserted, lines, i) && Linked(tombstoned, linked, lines, i);
      assert ParentLink(tombstoned, Slots(lines), lines[i]) == ParentLink(linked, Slots(lines), lines[i]);
    }
  }

  lemma RowsStayKeyed(before: Rows, lines: seq<Line>, after: Rows)
    requires Keyed(before) && Synced(after, lines) && after.Keys == before.Keys + Slots(lines)
    requires forall s :: s in before && s !in Slots(lines) ==> after[s] == before[s].(isDeleted := true)
    ensures Keyed(after)
  {
    forall s | s in Slots(lines)
      ensures s in after && (after[s].req.number, after[s].req.letter) == s
    {
      var l :| l in lines && l.Slot() == s;
      var i :| 0 <= i < |lines| && lines[i] == l;
      assert LineStored(after, lines, i);
    }
  }

  lemma IdsStayDistinct(before: Rows, after: Rows, lo: nat, hi: nat)
    requires DistinctRowIds(before) && (forall s :: s in before ==> before[s].req.id < lo)
    requires IdsKept(before, after, lo, hi) && NewIdsDistinct(before, after)
    ensures DistinctRowIds(after) && forall s :: s in after ==> after[s].req.id < hi
  {
  }

  lemma RowsStayValid(before: Rows, lines: seq<Line>, after: Rows, counts: Counts, lo: nat, hi: nat)
    requires ValidRows(before, lo) && LoadStep(before, lines, after, counts, lo, hi)
    ensures ValidRows(after, hi)
  {
    RowsStayKeyed(before, lines, after);
    IdsStayDistinct(before, after, lo, hi);
  }

  lemma LoadedRowsSeparate(before: Rows, after: Rows, others: Rows, lo: nat, hi: nat)
    requires IdsKept(before, after, lo, hi) && SeparateRows(before, others)
    requires forall t :: t in others ==> others[t].req.id < lo
    ensures SeparateRows(after, others) && SeparateRows(others, after)
  {
  }

  lemma StaysValid(before: Store, block: Block, after: Store, delta: Delta, lo: nat, hi: nat)
    requires ValidStore(before, lo) && BlockStep(before, block, after, delta, lo, hi)
    ensures ValidStore(after, hi)
  {
    var was := RowsOf(before, block.key);
    assert ValidRows(was, lo);
    RowsStayValid(was, LinesOf(block.items), after[block.key], delta.counts, lo, hi);
    OlderStoreValid(before, lo, hi);
    forall k | k in before && k != block.key
      ensures SeparateRows(after[block.key], before[k]) && SeparateRows(before[k], after[block.key])
    {
      assert ValidRows(before[k], lo);
      LoadedRowsSeparate(was, after[block.key], before[k], lo, hi);
    }
  }
}
