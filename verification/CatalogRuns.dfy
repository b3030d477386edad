/** Sequences of catalog loads, and what they guarantee to the advancement engine. */
module CatalogRuns {
  import opened Records
  import opened Completeness
  import opened Convergence
  import opened Election
  import opened CatalogSpec
  import opened CatalogLoader

  // ---- the last file wins, and rows keep their ids ----

  ghost predicate Loads(blocks: seq<Block>, key: SetKey) {
    exists b :: b in blocks && b.key == key
  }

  /** The lines of the last block for `key`. */
  ghost function LastLines(blocks: seq<Block>, key: SetKey): seq<Line>
    requires AllValid(blocks) && Loads(blocks, key)
  {
    var n := |blocks| - 1;
    LoadsLast(blocks, key);
    if blocks[n].key == key then LinesOf(blocks[n].items) else LastLines(blocks[..n], key)
  }

  lemma LoadsLast(blocks: seq<Block>, key: SetKey)
    requires blocks != []
    ensures Loads(blocks, key) <==> Loads(blocks[..|blocks| - 1], key) || blocks[|blocks| - 1].key == key
    ensures AllValid(blocks) ==> AllValid(blocks[..|blocks| - 1]) && ValidItems(blocks[|blocks| - 1].items)
  {
    var n := |blocks| - 1;
    assert blocks == blocks[..n] + [blocks[n]];
    assert blocks[n] in blocks;
  }

  lemma OneLoadStores(before: Store, block: Block, after: Store, delta: Delta, lo: nat, hi: nat, key: SetKey)
    requires BlockStep(before, block, after, delta, lo, hi)
    ensures block.key in after && Synced(after[block.key], LinesOf(block.items))
    ensures key != block.key ==>
        RowsOf(after, key) == RowsOf(before, key) && (key in before ==> key in after && after[key] == before[key])
  {
  }

  /** After any successful loads, a loaded set holds exactly its last file; the others are untouched. */
  lemma {:induction false} LastFileIsStored(start: Store, blocks: seq<Block>, deltas: seq<Delta>, run: Trace,
                                            key: SetKey)
    requires LoadRun(start, blocks, deltas, run) && AllValid(blocks)
    ensures Loads(blocks, key) ==> StoresLast(EndOf(start, run), blocks, key)
    ensures !Loads(blocks, key) ==> RowsOf(EndOf(start, run), key) == RowsOf(start, key)
  {
    if blocks != [] {
      var n := |blocks| - 1;
      LoadsLast(blocks, key);
      LastFileIsStored(start, blocks[..n], deltas[..n], run[..n], key);
      OneLoadStores(EndOf(start, run[..n]), blocks[n], run[n].store, deltas[n], run[n].lo, run[n].hi, key);
    }
  }

  ghost predicate StoresLast(store: Store, blocks: seq<Block>, key: SetKey)
    requires AllValid(blocks) && Loads(blocks, key)
  {
    key in store && Synced(store[key], LastLines(blocks, key))
  }

  /** A (number, letter) keeps its row and the row its id through every later load, dropped or restored. */
  lemma {:induction false} IdsAreForever(start: Store, blocks: seq<Block>, deltas: seq<Delta>, run: Trace,
                                         key: SetKey, s: Slot)
    requires LoadRun(start, blocks, deltas, run) && s in RowsOf(start, key)
    ensures s in RowsOf(EndOf(start, run), key)
    ensures RowsOf(EndOf(start, run), key)[s].req.id == RowsOf(start, key)[s].req.id
  {
    if blocks != [] {
      var n := |blocks| - 1;
      IdsAreForever(start, blocks[..n], deltas[..n], run[..n], key, s);
      OneLoadKeepsId(EndOf(start, run[..n]), blocks[n], run[n].store, deltas[n], run[n].lo, run[n].hi, key, s);
    }
  }

  lemma OneLoadKeepsId(before: Store, block: Block, after: Store, delta: Delta, lo: nat, hi: nat, key: SetKey, s: Slot)
    requires BlockStep(before, block, after, delta, lo, hi) && s in RowsOf(before, key)
    ensures s in RowsOf(after, key) && RowsOf(after, key)[s].req.id == RowsOf(before, key)[s].req.id
  {
  }

  // ---- what loads do, in terms of the items alone ----

  /** A block leaves live rows for exactly its items, each saying what the item says, and touches no other set. */
  lemma BlockStoresItems(before: Store, block: Block, after: Store, delta: Delta, lo: nat, hi: nat)
    requires BlockStep(before, block, after, delta, lo, hi)
    ensures block.key in after && FileStored(after[block.key], block.items)
    ensures forall key :: key != block.key ==> RowsOf(after, key) == RowsOf(before, key)
  {
    SyncedStoresFile(after[block.key], block.items);
  }

  /**
   * In the block's set a row outside the file keeps everything but is a tombstone, every row keeps its id,
   * and rows are added for items only.
   */
  lemma BlockKeepsRows(before: Store, block: Block, after: Store, delta: Delta, lo: nat, hi: nat, s: Slot)
    requires BlockStep(before, block, after, delta, lo, hi)
    ensures RowKept(RowsOf(before, block.key), RowsOf(after, block.key), s, InFile(block.items, s))
  {
    LoadKeepsRow(RowsOf(before, block.key), block.items, after[block.key], delta.counts, lo, hi, s);
  }

  predicate RowKept(before: Rows, after: Rows, s: Slot, inFile: bool) {
    if s !in before then s in after ==> inFile
    else s in after && after[s].req.id == before[s].req.id && (!inFile ==> after[s] == Row(before[s].req, true))
  }

  lemma LoadKeepsRow(before: Rows, items: seq<Item>, after: Rows, counts: Counts, lo: nat, hi: nat, s: Slot)
    requires ValidItems(items) && LoadStep(before, LinesOf(items), after, counts, lo, hi)
    ensures RowKept(before, after, s, InFile(items, s))
  {
    SlotsAreItems(items, s);
  }

  /**
   * Created, updated and removed are the items without a row, the items whose row was a tombstone or said
   * something else, and the live rows outside the file.
   */
  lemma BlockCountsItems(before: Store, block: Block, after: Store, delta: Delta, lo: nat, hi: nat)
    requires BlockStep(before, block, after, delta, lo, hi)
    ensures delta.sets == if block.key in before then 0 else 1
    ensures delta.counts.created == |NewItems(RowsOf(before, block.key), block.items)|
    ensures delta.counts.updated == |ChangedItems(RowsOf(before, block.key), block.items)|
    ensures delta.counts.removed == |DroppedRows(RowsOf(before, block.key), block.items)|
  {
    var existing := RowsOf(before, block.key);
    CreatedAreNewItems(existing, block.items);
    UpdatedAreChangedItems(existing, block.items);
    RemovedAreDropped(existing, block.items);
  }

  lemma RemovedAreDropped(before: Rows, items: seq<Item>)
    requires ValidItems(items)
    ensures RemovedSlots(before, LinesOf(items)) == DroppedRows(before, items)
  {
    forall s
      ensures s in Slots(LinesOf(items)) <==> InFile(items, s)
    {
      SlotsAreItems(items, s);
    }
  }

  predicate InFile(items: seq<Item>, s: Slot) {
    exists i :: 0 <= i < |items| && SlotOf(items[i]) == s
  }

  ghost function DroppedRows(before: Rows, items: seq<Item>): set<Slot> {
    set s | s in before && !before[s].isDeleted && !InFile(items, s)
  }

  /** Block `n` is the last one for this set. */
  ghost predicate LastBlockOf(blocks: seq<Block>, key: SetKey, n: nat) {
    n < |blocks| && blocks[n].key == key && forall k :: n < k < |blocks| ==> blocks[k].key != key
  }

  lemma {:induction false} LastLinesAreItems(blocks: seq<Block>, key: SetKey, n: nat)
    requires AllValid(blocks) && LastBlockOf(blocks, key, n)
    ensures Loads(blocks, key) && LastLines(blocks, key) == LinesOf(blocks[n].items)
  {
    var m := |blocks| - 1;
    LoadsLast(blocks, key);
    if n < m {
      LastLinesAreItems(blocks[..m], key, n);
    }
  }

  /** After any successful loads every loaded set stores the items of its last block. */
  lemma LastItemsAreStored(start: Store, blocks: seq<Block>, deltas: seq<Delta>, run: Trace, key: SetKey, n: nat)
    requires LoadRun(start, blocks, deltas, run) && LastBlockOf(blocks, key, n)
    ensures ValidItems(blocks[n].items)
    ensures key in EndOf(start, run) && Synced(EndOf(start, run)[key], LinesOf(blocks[n].items))
    ensures FileStored(EndOf(start, run)[key], blocks[n].items)
  {
    RunIsValid(start, blocks, deltas, run);
    LastLinesAreItems(blocks, key, n);
    LastFileIsStored(start, blocks, deltas, run, key);
    assert blocks[n] in blocks;
    SyncedStoresFile(EndOf(start, run)[key], blocks[n].items);
  }

  // ---- when loading the same files again reports nothing ----

  ghost predicate Idle(deltas: seq<Delta>) {
    forall d :: d in deltas ==> d == Delta(0, Counts(0, 0, 0))
  }

  ghost predicate StoredAs(start: Store, stored: map<SetKey, seq<Line>>) {
    forall k :: k in stored ==> k in start && Synced(start[k], stored[k])
  }

  lemma OneLoadIdle(before: Store, block: Block, after: Store, delta: Delta, lo: nat, hi: nat, stored: seq<Line>)
    requires BlockStep(before, block, after, delta, lo, hi)
    requires block.key in before && Synced(before[block.key], stored)
    ensures delta == Delta(0, Counts(0, 0, 0)) <==> LinesOf(block.items) == stored
    ensures LinesOf(block.items) == stored ==> after == before
  {
    ReloadIdleIffSameLines(before[block.key], stored, LinesOf(block.items), after[block.key], delta.counts, lo, hi);
  }

  ghost predicate AllStored(blocks: seq<Block>, stored: map<SetKey, seq<Line>>)
    requires AllValid(blocks) && forall b :: b in blocks ==> b.key in stored
  {
    forall b :: b in blocks ==> LinesOf(b.items) == stored[b.key]
  }

  lemma LastBlock(blocks: seq<Block>, deltas: seq<Delta>, stored: map<SetKey, seq<Line>>)
    requires blocks != [] && |deltas| == |blocks| && AllValid(blocks) && forall b :: b in blocks ==> b.key in stored
    ensures var n := |blocks| - 1;
            && AllValid(blocks[..n]) && blocks[n].key in stored && (forall b :: b in blocks[..n] ==> b.key in stored)
            && (AllStored(blocks, stored) <==>
                AllStored(blocks[..n], stored) && LinesOf(blocks[n].items) == stored[blocks[n].key])
            && (Idle(deltas) <==> Idle(deltas[..n]) && deltas[n] == Delta(0, Counts(0, 0, 0)))
  {
    var n := |blocks| - 1;
    assert blocks == blocks[..n] + [blocks[n]] && deltas == deltas[..n] + [deltas[n]];
    assert blocks[n] in blocks && deltas[n] in deltas;
    assert forall d :: d in deltas <==> d in deltas[..n] || d == deltas[n];
  }

  /** A pass over stored sets reports nothing exactly when each block has the lines already stored. */
  lemma {:induction false} PassIdleIffStored(start: Store, blocks: seq<Block>, deltas: seq<Delta>, run: Trace,
                                             stored: map<SetKey, seq<Line>>)
    requires LoadRun(start, blocks, deltas, run) && AllValid(blocks) && StoredAs(start, stored)
    requires forall b :: b in blocks ==> b.key in stored
    ensures Idle(deltas) <==> AllStored(blocks, stored)
    ensures Idle(deltas) ==> EndOf(start, run) == start
  {
    if blocks != [] {
      var n := |blocks| - 1;
      LastBlock(blocks, deltas, stored);
      PassIdleIffStored(start, blocks[..n], deltas[..n], run[..n], stored);
      if Idle(deltas[..n]) {
        OneLoadIdle(start, blocks[n], run[n].store, deltas[n], run[n].lo, run[n].hi, stored[blocks[n].key]);
      }
    }
  }

  /** Blocks for the same (rank, version) have the same lines. */
  ghost predicate ConsistentFiles(blocks: seq<Block>)
    requires AllValid(blocks)
  {
    forall b, c :: b in blocks && c in blocks && b.key == c.key ==> LinesOf(b.items) == LinesOf(c.items)
  }

  ghost function LastOf(blocks: seq<Block>): map<SetKey, seq<Line>>
    requires AllValid(blocks)
  {
    map b | b in blocks :: b.key := LastLines(blocks, b.key)
  }

  lemma {:induction false} LastIsSome(blocks: seq<Block>, key: SetKey) returns (b: Block)
    requires AllValid(blocks) && Loads(blocks, key)
    ensures b in blocks && b.key == key && LastLines(blocks, key) == LinesOf(b.items)
  {
    var n := |blocks| - 1;
    assert blocks == blocks[..n] + [blocks[n]];
    assert blocks[n] in blocks;
    if blocks[n].key == key {
      b := blocks[n];
    } else {
      b := LastIsSome(blocks[..n], key);
    }
  }

  lemma ConsistentIffAllLast(blocks: seq<Block>)
    requires AllValid(blocks)
    ensures ConsistentFiles(blocks) <==> forall b :: b in blocks ==> LinesOf(b.items) == LastLines(blocks, b.key)
  {
    forall b | b in blocks
      ensures exists c :: c in blocks && c.key == b.key && LastLines(blocks, b.key) == LinesOf(c.items)
    {
      var c := LastIsSome(blocks, b.key);
    }
  }

  /**
   * Loading the same files a second time reports zero sets, rows created, updated and removed
   * exactly when no two blocks of the files give different lines for one (rank, version).
   */
  lemma ReloadIdleIffConsistent(start: Store, blocks: seq<Block>, deltas1: seq<Delta>, run1: Trace,
                                deltas2: seq<Delta>, run2: Trace)
    requires LoadRun(start, blocks, deltas1, run1) && LoadRun(EndOf(start, run1), blocks, deltas2, run2)
    requires AllValid(blocks)
    ensures Idle(deltas2) <==> ConsistentFiles(blocks)
    ensures Idle(deltas2) ==> EndOf(EndOf(start, run1), run2) == EndOf(start, run1)
  {
    var stored := LastOf(blocks);
    forall k | k in stored
      ensures k in EndOf(start, run1) && Synced(EndOf(start, run1)[k], stored[k])
    {
      LastFileIsStored(start, blocks, deltas1, run1, k);
    }
    PassIdleIffStored(EndOf(start, run1), blocks, deltas2, run2, stored);
    ConsistentIffAllLast(blocks);
    assert AllStored(blocks, stored) <==> forall b :: b in blocks ==> LinesOf(b.items) == LastLines(blocks, b.key);
  }

  // ---- what the engine reads from a loaded set ----

  /** The live rows of a set, each once, in display order. */
  ghost predicate DisplayOrder(view: seq<Requirement>, rows: Rows) {
    && (forall r :: r in view <==> exists s :: s in rows && !rows[s].isDeleted && rows[s].req == r)
    && forall i, j :: 0 <= i < j < |view| ==> view[i].sortOrder <= view[j].sortOrder && view[i] != view[j]
  }

  /** Row of line `i` in a set that holds the file. */
  ghost function FileRow(rows: Rows, lines: seq<Line>, i: nat): Requirement
    requires Synced(rows, lines) && i < |lines|
  {
    assert LineStored(rows, lines, i);
    rows[lines[i].Slot()].req
  }

  lemma LiveIsFileRow(rows: Rows, lines: seq<Line>, view: seq<Requirement>, r: Requirement)
    requires Synced(rows, lines) && DisplayOrder(view, rows) && r in view
    ensures r.sortOrder < |lines| && r == FileRow(rows, lines, r.sortOrder)
  {
    var s :| s in rows && !rows[s].isDeleted && rows[s].req == r;
    var l :| l in lines && l.Slot() == s;
    var i :| 0 <= i < |lines| && lines[i] == l;
    assert LineStored(rows, lines, i);
  }

  lemma FileRowIsLive(rows: Rows, lines: seq<Line>, view: seq<Requirement>, i: nat)
    requires Synced(rows, lines) && DisplayOrder(view, rows) && i < |lines|
    ensures FileRow(rows, lines, i) in view && FileRow(rows, lines, i).sortOrder == i
  {
    assert LineStored(rows, lines, i);
  }

  /** Display positions never run ahead of sort orders, which are strictly increasing and below the file's length. */
  lemma {:induction false} OrderAtLeastPosition(rows: Rows, lines: seq<Line>, view: seq<Requirement>, i: nat)
    requires Synced(rows, lines) && DisplayOrder(view, rows) && i < |view|
    ensures i <= view[i].sortOrder < |lines|
    ensures view[i] == FileRow(rows, lines, view[i].sortOrder)
  {
    LiveIsFileRow(rows, lines, view, view[i]);
    if i > 0 {
      OrderAtLeastPosition(rows, lines, view, i - 1);
    }
  }

  /** The requirement shown at position `k` is the file's line `k`. */
  lemma {:induction false} ViewAt(rows: Rows, lines: seq<Line>, view: seq<Requirement>, k: nat)
    requires Synced(rows, lines) && DisplayOrder(view, rows) && k < |lines|
    ensures k < |view| && view[k] == FileRow(rows, lines, k)
    decreases k
  {
    FileRowIsLive(rows, lines, view, k);
    var m :| 0 <= m < |view| && view[m] == FileRow(rows, lines, k);
    OrderAtLeastPosition(rows, lines, view, m);
    if m < k {
      ViewAt(rows, lines, view, m);
      FileRowIsLive(rows, lines, view, m);
      assert false;
    }
    OrderAtLeastPosition(rows, lines, view, k);
  }

  /** What is shown of a set is exactly the last file, line by line. */
  lemma ViewIsFile(rows: Rows, lines: seq<Line>, view: seq<Requirement>)
    requires Synced(rows, lines) && DisplayOrder(view, rows)
    ensures |view| == |lines|
    ensures forall i :: 0 <= i < |lines| ==> view[i] == FileRow(rows, lines, i) && Holds(view[i], lines[i], i)
  {
    if |view| > 0 {
      OrderAtLeastPosition(rows, lines, view, |view| - 1);
    }
    if |lines| > 0 {
      ViewAt(rows, lines, view, |lines| - 1);
    }
    forall i | 0 <= i < |lines|
      ensures view[i] == FileRow(rows, lines, i) && Holds(view[i], lines[i], i)
    {
      ViewAt(rows, lines, view, i);
      assert LineStored(rows, lines, i);
    }
  }

  /** Every shown parent link leads to a shown requirement of the same number, without a letter or parent. */
  lemma ViewIsForest(rows: Rows, lines: seq<Line>, view: seq<Requirement>)
    requires Synced(rows, lines) && DisplayOrder(view, rows)
    ensures Forest(view)
    ensures forall r :: r in view && r.parent.Some? ==>
              exists p :: p in view && p.id == r.parent.value &&
                          p.number == r.number && p.letter == "" && p.parent.None?
  {
    forall r | r in view && r.parent.Some?
      ensures exists p :: p in view && p.id == r.parent.value &&
                          p.number == r.number && p.letter == "" && p.parent.None?
    {
      LiveIsFileRow(rows, lines, view, r);
      assert LineStored(rows, lines, r.sortOrder);
      var bare := (r.number, "");
      var l :| l in lines && l.Slot() == bare;
      var j :| 0 <= j < |lines| && lines[j] == l;
      FileRowIsLive(rows, lines, view, j);
      assert LineStored(rows, lines, j);
      assert FileRow(rows, lines, j).parent.None?;
    }
  }

  lemma ViewHasDistinctIds(rows: Rows, view: seq<Requirement>)
    requires DistinctRowIds(rows) && DisplayOrder(view, rows)
    ensures DistinctIds(view)
  {
    forall i, j | 0 <= i < j < |view|
      ensures view[i].id != view[j].id
    {
      assert view[i] in view && view[j] in view;
      var s :| s in rows && !rows[s].isDeleted && rows[s].req == view[i];
      var t :| t in rows && !rows[t].isDeleted && rows[t].req == view[j];
    }
  }

  /**
   * The loader and the engine together: after any successful loads, in every loaded set the one-pass
   * derivation equals the recursive definition for every set of approved rows, and a rank is complete
   * just when it has leaves and all are approved.
   */
  lemma LoadedSetsSuitTheEngine(start: Store, nextId: nat, blocks: seq<Block>, deltas: seq<Delta>, run: Trace,
                                key: SetKey, view: seq<Requirement>, approved: set<Id>)
    requires LoadRun(start, blocks, deltas, run) && AllValid(blocks) && Loads(blocks, key)
    requires key in EndOf(start, run) && ValidStore(EndOf(start, run), nextId)
    requires DisplayOrder(view, EndOf(start, run)[key])
    ensures |view| == |LastLines(blocks, key)|
    ensures forall i :: 0 <= i < |view| ==> Holds(view[i], LastLines(blocks, key)[i], i)
    ensures Acyclic(view, Heights(view))
    ensures forall id :: id in Ids(view) ==> OnePass(view, approved, id) == Complete(view, Heights(view), approved, id)
    ensures RankComplete(view, approved) <==> AllLeavesApproved(view, approved)
  {
    LastFileIsStored(start, blocks, deltas, run, key);
    var rows, lines := EndOf(start, run)[key], LastLines(blocks, key);
    assert ValidRows(rows, nextId);
    ViewIsFile(rows, lines, view);
    ViewIsForest(rows, lines, view);
    ViewHasDistinctIds(rows, view);
    OnePassIsRecursiveOnForest(view);
    ForestCompleteIffLeaves(view, approved);
  }

  /** Item `i` is shown at its place, below the shown item with its number and no letter if it is lettered. */
  ghost predicate ItemShown(view: seq<Requirement>, items: seq<Item>, i: nat)
    requires i < |items|
  {
    && i < |view| && Says(view[i], items[i], i)
    && if items[i].letter != "" && InFile(items, (items[i].number, ""))
       then exists k :: 0 <= k < |view| && k < |items| && SlotOf(items[k]) == (items[i].number, "")
                        && view[i].parent == Some(view[k].id)
       else view[i].parent == None
  }

  /** After any successful loads what is shown of a loaded set is its last block, item by item. */
  lemma LastItemsAreShown(start: Store, blocks: seq<Block>, deltas: seq<Delta>, run: Trace, key: SetKey, n: nat,
                          view: seq<Requirement>)
    requires LoadRun(start, blocks, deltas, run) && LastBlockOf(blocks, key, n)
    requires key in EndOf(start, run) && DisplayOrder(view, EndOf(start, run)[key])
    ensures |view| == |blocks[n].items|
    ensures forall i :: 0 <= i < |view| ==> ItemShown(view, blocks[n].items, i)
  {
    var rows, items := EndOf(start, run)[key], blocks[n].items;
    LastItemsAreStored(start, blocks, deltas, run, key, n);
    ViewIsFile(rows, LinesOf(items), view);
    forall i | 0 <= i < |items|
      ensures ItemShown(view, items, i)
    {
      StoredIsShown(rows, items, view, i);
    }
  }

  lemma StoredIsShown(rows: Rows, items: seq<Item>, view: seq<Requirement>, i: nat)
    requires i < |items| == |view| && ValidItems(items) && Synced(rows, LinesOf(items)) && FileStored(rows, items)
    requires forall k :: 0 <= k < |items| ==> view[k] == FileRow(rows, LinesOf(items), k)
    ensures ItemShown(view, items, i)
  {
    assert ItemStored(rows, items, i);
    if items[i].letter != "" {
      if k :| 0 <= k < |items| && SlotOf(items[k]) == (items[i].number, "") {
        assert view[k] == rows[SlotOf(items[k])].req;
      }
    }
  }

  // ---- two sets side by side ----

  /** What is shown of two different sets has no requirement id in common. */
  lemma ViewsAreSeparate(store: Store, nextId: nat, key: SetKey, other: SetKey,
                         view: seq<Requirement>, otherView: seq<Requirement>)
    requires ValidStore(store, nextId) && key in store && other in store && key != other
    requires DisplayOrder(view, store[key]) && DisplayOrder(otherView, store[other])
    ensures DistinctIds(view) && DistinctIds(otherView) && Ids(view) !! Ids(otherView)
  {
    assert ValidRows(store[key], nextId) && ValidRows(store[other], nextId);
    ViewHasDistinctIds(store[key], view);
    ViewHasDistinctIds(store[other], otherView);
    forall r, q | r in view && q in otherView
      ensures r.id != q.id
    {
      var s :| s in store[key] && !store[key][s].isDeleted && store[key][s].req == r;
      var t :| t in store[other] && !store[other][t].isDeleted && store[other][t].req == q;
      assert SeparateRows(store[key], store[other]);
    }
  }

  /**
   * Loaded versions are what switching back and forth asks for: between any two sets of a valid store
   * the third switch copies nothing, from any ledger, exactly when no key of one is repeated in the other.
   */
  lemma LoadedSetsConvergeIff(store: Store, nextId: nat, key: SetKey, other: SetKey,
                              cat: Catalog, a: Id, b: Id, member: Id, rank: Id)
    requires ValidStore(store, nextId) && key in store && other in store && key != other && a != b
    requires DisplayOrder(cat.Live(a), store[key]) && DisplayOrder(cat.Live(b), store[other])
    ensures (forall ls: seq<Ledger>, rs: seq<RemapResult> ::
               ThreeSwitches(cat, member, rank, a, b, ls, rs) ==> rs[2].remapped == 0)
       <==> SharedKeysUnique(cat.Live(a), cat.Live(b))
  {
    ViewsAreSeparate(store, nextId, key, other, cat.Live(a), cat.Live(b));
    ConvergesIffSharedKeysUnique(cat, member, rank, a, b);
  }
}
