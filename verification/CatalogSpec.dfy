/** What loading one file's requirements into a set means (backend/app/core/advancement_catalog.py:88-177). */
module CatalogSpec {
  import opened Records
  import opened MetricConditions

  /** (number, letter): the identity of a requirement within its set. */
  type Slot = (string, string)

  /** One item of a data file. */
  datatype Item = Item(number: string, letter: string, text: string, stableKey: Option<string>, metrics: Json,
                       autoCredit: bool)

  /** An item after validation, as it is stored. */
  datatype Line = Line(number: string, letter: string, text: string, stableKey: Option<string>,
                       metrics: Option<seq<Condition>>, autoCredit: bool)
  {
    function Slot(): Slot { (number, letter) }
  }

  /** A stored requirement; tombstoned rows keep everything, their parent link included. */
  datatype Row = Row(req: Requirement, isDeleted: bool)

  type Rows = map<Slot, Row>

  datatype Counts = Counts(created: nat, updated: nat, removed: nat)

  function LineOf(item: Item): Line
    requires AcceptedMetrics(item.metrics)
  {
    Line(item.number, item.letter, item.text,
         if item.stableKey == Some("") then None else item.stableKey,
         ParsedMetrics(item.metrics), item.autoCredit)
  }

  ghost predicate DistinctSlots(lines: seq<Line>) {
    forall i, j :: 0 <= i < j < |lines| ==> lines[i].Slot() != lines[j].Slot()
  }

  function Slots(lines: seq<Line>): set<Slot> {
    set l | l in lines :: l.Slot()
  }

  /** The file is accepted: every metric list is valid and no (number, letter) appears twice. */
  ghost predicate ValidItems(items: seq<Item>) {
    && (forall i :: 0 <= i < |items| ==> AcceptedMetrics(items[i].metrics))
    && forall i, j :: 0 <= i < j < |items| ==> (items[i].number, items[i].letter) != (items[j].number, items[j].letter)
  }

  function LinesOf(items: seq<Item>): seq<Line>
    requires forall i :: 0 <= i < |items| ==> AcceptedMetrics(items[i].metrics)
  {
    seq(|items|, i requires 0 <= i < |items| => LineOf(items[i]))
  }

  /** The row holds the line's text, key, metrics and flag at display position `order`. */
  predicate Holds(req: Requirement, line: Line, order: nat) {
    && (req.number, req.letter) == line.Slot()
    && (req.text, req.stableKey, req.metrics, req.autoCredit) ==
       (line.text, line.stableKey, line.metrics, line.autoCredit)
    && req.sortOrder == order
  }

  /** A lettered line hangs off the bare-numbered line of the same file, when there is one. */
  function ParentLink(rows: Rows, slots: set<Slot>, line: Line): Option<Id> {
    var bare := (line.number, "");
    if line.letter != "" && bare in slots && bare in rows then Some(rows[bare].req.id) else None
  }

  /** The live rows are exactly the file's lines, in the file's order, linked as the file says. */
  ghost predicate Synced(rows: Rows, lines: seq<Line>) {
    && DistinctSlots(lines)
    && (forall s :: s in rows && s !in Slots(lines) ==> rows[s].isDeleted)
    && forall i :: 0 <= i < |lines| ==> LineStored(rows, lines, i)
  }

  ghost predicate LineStored(rows: Rows, lines: seq<Line>, i: nat)
    requires i < |lines|
  {
    && lines[i].Slot() in rows
    && !rows[lines[i].Slot()].isDeleted
    && Holds(rows[lines[i].Slot()].req, lines[i], i)
    && rows[lines[i].Slot()].req.parent == ParentLink(rows, Slots(lines), lines[i])
  }

  /** The existing row differs from line `i`, or is a tombstone. */
  predicate Differs(rows: Rows, line: Line, order: nat) {
    line.Slot() in rows && (rows[line.Slot()].isDeleted || !Holds(rows[line.Slot()].req, line, order))
  }

  ghost function CreatedSlots(before: Rows, lines: seq<Line>): set<Slot> { Slots(lines) - before.Keys }

  ghost function UpdatedSlots(before: Rows, lines: seq<Line>): set<Slot> {
    set i | 0 <= i < |lines| && Differs(before, lines[i], i) :: lines[i].Slot()
  }

  /** Live rows whose slot is not among the `kept` ones. */
  ghost function Missing(before: Rows, kept: set<Slot>): set<Slot> {
    set s | s in before && s !in kept && !before[s].isDeleted
  }

  ghost function RemovedSlots(before: Rows, lines: seq<Line>): set<Slot> { Missing(before, Slots(lines)) }

  /** Each row sits under its own (number, letter). */
  ghost predicate Keyed(rows: Rows) {
    forall s :: s in rows ==> (rows[s].req.number, rows[s].req.letter) == s
  }

  ghost predicate DistinctRowIds(rows: Rows) {
    forall s, t :: s in rows && t in rows && s != t ==> rows[s].req.id != rows[t].req.id
  }

  /** Ids drawn from the range [lo, hi) for rows that are new. */
  ghost predicate IdsKept(before: Rows, after: Rows, lo: nat, hi: nat) {
    && lo <= hi
    && before.Keys <= after.Keys
    && forall s :: s in after ==>
        if s in before then after[s].req.id == before[s].req.id else lo <= after[s].req.id < hi
  }

  ghost predicate NewIdsDistinct(before: Rows, after: Rows) {
    forall s, t :: s in after && t in after && s !in before && t !in before && s != t ==>
        after[s].req.id != after[t].req.id
  }

  /** The whole effect of loading `lines` over `before`. */
  ghost predicate LoadStep(before: Rows, lines: seq<Line>, after: Rows, counts: Counts, lo: nat, hi: nat) {
    && Synced(after, lines)
    && after.Keys == before.Keys + Slots(lines)
    && (forall s :: s in before && s !in Slots(lines) ==> after[s] == before[s].(isDeleted := true))
    && IdsKept(before, after, lo, hi)
    && NewIdsDistinct(before, after)
    && counts == Counts(|CreatedSlots(before, lines)|, |UpdatedSlots(before, lines)|, |RemovedSlots(before, lines)|)
  }

  // ---- reloading ----

  lemma SlotsContain(lines: seq<Line>, i: nat)
    requires i < |lines|
    ensures lines[i].Slot() in Slots(lines)
  {
    assert lines[i] in lines;
  }

  lemma DifferencesAreCounted(before: Rows, y: seq<Line>)
    requires UpdatedSlots(before, y) == {}
    ensures forall j :: 0 <= j < |y| ==> !Differs(before, y[j], j)
  {
    forall j | 0 <= j < |y|
      ensures !Differs(before, y[j], j)
    {
      assert y[j].Slot() !in UpdatedSlots(before, y);
    }
  }

  /** With nothing removed, every stored line is a line of the new file, at its own position. */
  lemma StoredLineIsKept(before: Rows, x: seq<Line>, y: seq<Line>, i: nat)
    requires Synced(before, x) && RemovedSlots(before, y) == {} && i < |x|
    requires forall j {:trigger y[j]} :: 0 <= j < |y| ==> j < |x| && x[j] == y[j]
    ensures i < |y|
  {
    assert LineStored(before, x, i);
    assert x[i].Slot() !in RemovedSlots(before, y);
    var l :| l in y && l.Slot() == x[i].Slot();
    var j :| 0 <= j < |y| && y[j] == l;
    assert i == j;
  }

  /** Zero counts mean the new file holds exactly the stored lines. */
  lemma IdleReloadIsSame(before: Rows, x: seq<Line>, y: seq<Line>, after: Rows, lo: nat, hi: nat)
    requires Synced(before, x) && LoadStep(before, y, after, Counts(0, 0, 0), lo, hi)
    ensures x == y
  {
    assert CreatedSlots(before, y) == {} && UpdatedSlots(before, y) == {} && RemovedSlots(before, y) == {};
    DifferencesAreCounted(before, y);
    forall j {:trigger y[j]} | 0 <= j < |y|
      ensures j < |x| && x[j] == y[j]
    {
      SlotsContain(y, j);
      assert y[j].Slot() !in CreatedSlots(before, y);
      StoredLineAt(before, x, y[j], j);
    }
    if |x| > 0 {
      StoredLineIsKept(before, x, y, |x| - 1);
    }
    if |y| > 0 {
      var last := y[|y| - 1];
      assert |y| - 1 < |x|;
    }
  }

  /** A live row that holds line `l` at position `j` is the stored file's line `j`. */
  lemma StoredLineAt(rows: Rows, x: seq<Line>, l: Line, j: nat)
    requires Synced(rows, x) && l.Slot() in rows && !rows[l.Slot()].isDeleted && Holds(rows[l.Slot()].req, l, j)
    ensures j < |x| && x[j] == l
  {
    var k :| k in x && k.Slot() == l.Slot();
    var i :| 0 <= i < |x| && x[i] == k;
    assert LineStored(rows, x, i);
  }

  lemma NothingDiffers(before: Rows, x: seq<Line>)
    requires Synced(before, x)
    ensures CreatedSlots(before, x) == {} && UpdatedSlots(before, x) == {} && RemovedSlots(before, x) == {}
    ensures before.Keys + Slots(x) == before.Keys
  {
    forall i | 0 <= i < |x|
      ensures x[i].Slot() in before && !Differs(before, x[i], i)
    {
      assert LineStored(before, x, i);
    }
    forall l | l in x
      ensures l.Slot() in before
    {
      var i :| 0 <= i < |x| && x[i] == l;
    }
  }

  /** Loading the stored file again reports nothing and changes nothing. */
  lemma SameReloadIsIdle(before: Rows, x: seq<Line>, after: Rows, counts: Counts, lo: nat, hi: nat)
    requires Synced(before, x) && LoadStep(before, x, after, counts, lo, hi)
    ensures counts == Counts(0, 0, 0) && after == before
  {
    NothingDiffers(before, x);
    SameRows(before, x, after, lo, hi);
  }

  lemma SameRows(before: Rows, x: seq<Line>, after: Rows, lo: nat, hi: nat)
    requires Synced(before, x) && Synced(after, x) && after.Keys == before.Keys && IdsKept(before, after, lo, hi)
    requires forall s :: s in before && s !in Slots(x) ==> after[s] == before[s].(isDeleted := true)
    ensures after == before
  {
    forall s | s in before
      ensures after[s] == before[s]
    {
      SameRow(before, x, after, s, lo, hi);
    }
    assert after == before;
  }

  lemma SameRow(before: Rows, x: seq<Line>, after: Rows, s: Slot, lo: nat, hi: nat)
    requires Synced(before, x) && Synced(after, x) && s in before
    requires after.Keys == before.Keys && IdsKept(before, after, lo, hi)
    requires s !in Slots(x) ==> after[s] == before[s].(isDeleted := true)
    ensures after[s] == before[s]
  {
    if s in Slots(x) {
      var l :| l in x && l.Slot() == s;
      var i :| 0 <= i < |x| && x[i] == l;
      assert LineStored(before, x, i) && LineStored(after, x, i);
    }
  }

  /** With one file stored, loading another reports no change exactly when it has the same lines. */
  lemma ReloadIdleIffSameLines(before: Rows, x: seq<Line>, y: seq<Line>, after: Rows, counts: Counts, lo: nat, hi: nat)
    requires Synced(before, x) && LoadStep(before, y, after, counts, lo, hi)
    ensures counts == Counts(0, 0, 0) <==> x == y
    ensures x == y ==> after == before
  {
    if counts == Counts(0, 0, 0) {
      IdleReloadIsSame(before, x, y, after, lo, hi);
    }
    if x == y {
      SameReloadIsIdle(before, x, after, counts, lo, hi);
    }
  }

  // ---- what a load stores, in terms of the file's items alone ----

  function SlotOf(item: Item): Slot { (item.number, item.letter) }

  /** The requirement has everything the item says, at position `order`; only its parent is left open. */
  predicate Says(req: Requirement, item: Item, order: nat) {
    && req.number == item.number && req.letter == item.letter && req.sortOrder == order
    && req.text == item.text && req.autoCredit == item.autoCredit
    && KeyStored(item.stableKey, req.stableKey) && MetricsSpelled(item.metrics, req.metrics)
  }

  /** Item `i` has a live row that says the same at the item's position in the file. */
  ghost predicate ItemStored(rows: Rows, items: seq<Item>, i: nat)
    requires i < |items|
  {
    && SlotOf(items[i]) in rows && !rows[SlotOf(items[i])].isDeleted
    && Says(rows[SlotOf(items[i])].req, items[i], i)
    && ParentStored(rows, items, items[i], rows[SlotOf(items[i])].req.parent)
  }

  /** The empty string stands for no key. */
  predicate KeyStored(key: Option<string>, stored: Option<string>) {
    if stored.Some? then stored.value != "" && key == stored else key.None? || key.value == ""
  }

  /** A lettered item hangs off the file's item with its number and no letter, if there is one. */
  ghost predicate ParentStored(rows: Rows, items: seq<Item>, item: Item, parent: Option<Id>) {
    if item.letter != "" && exists k :: 0 <= k < |items| && SlotOf(items[k]) == (item.number, "")
    then (item.number, "") in rows && parent == Some(rows[(item.number, "")].req.id)
    else parent == None
  }

  /** The live rows are those of the file's items and no others. */
  ghost predicate FileStored(rows: Rows, items: seq<Item>) {
    && (forall i :: 0 <= i < |items| ==> ItemStored(rows, items, i))
    && forall s :: s in rows && !rows[s].isDeleted ==> exists i :: 0 <= i < |items| && SlotOf(items[i]) == s
  }

  /** A requirement holds the line of an item at a position exactly when it says what the item says. */
  lemma HoldsIffSays(req: Requirement, item: Item, order: nat)
    requires AcceptedMetrics(item.metrics)
    ensures Holds(req, LineOf(item), order) <==> Says(req, item, order)
  {
    StoredMetricsIffSpelled(item.metrics, req.metrics);
  }

  lemma SlotsAreItems(items: seq<Item>, s: Slot)
    requires forall i :: 0 <= i < |items| ==> AcceptedMetrics(items[i].metrics)
    ensures s in Slots(LinesOf(items)) <==> exists i :: 0 <= i < |items| && SlotOf(items[i]) == s
  {
    var lines := LinesOf(items);
    if s in Slots(lines) {
      var l :| l in lines && l.Slot() == s;
      var i :| 0 <= i < |lines| && lines[i] == l;
      assert SlotOf(items[i]) == s;
    }
    if i :| 0 <= i < |items| && SlotOf(items[i]) == s {
      assert lines[i].Slot() == s;
      SlotsContain(lines, i);
    }
  }

  lemma LineStoresItem(rows: Rows, items: seq<Item>, i: nat)
    requires forall k :: 0 <= k < |items| ==> AcceptedMetrics(items[k].metrics)
    requires i < |items| && LineStored(rows, LinesOf(items), i)
    requires forall s :: s in Slots(LinesOf(items)) ==> s in rows
    ensures ItemStored(rows, items, i)
  {
    HoldsIffSays(rows[SlotOf(items[i])].req, items[i], i);
    SlotsAreItems(items, (items[i].number, ""));
  }

  /** A set that holds a file's lines holds what the file's items say. */
  lemma SyncedStoresFile(rows: Rows, items: seq<Item>)
    requires forall i :: 0 <= i < |items| ==> AcceptedMetrics(items[i].metrics)
    requires Synced(rows, LinesOf(items))
    ensures FileStored(rows, items)
  {
    var lines := LinesOf(items);
    forall s | s in Slots(lines)
      ensures s in rows
    {
      var l :| l in lines && l.Slot() == s;
      var i :| 0 <= i < |lines| && lines[i] == l;
      assert LineStored(rows, lines, i);
    }
    forall i | 0 <= i < |items|
      ensures ItemStored(rows, items, i)
    {
      assert LineStored(rows, lines, i);
      LineStoresItem(rows, items, i);
    }
    forall s | s in rows && !rows[s].isDeleted
      ensures exists i :: 0 <= i < |items| && SlotOf(items[i]) == s
    {
      SlotsAreItems(items, s);
    }
  }

  // ---- what a load counts, in items ----

  /** Indices of the items whose slot has no row yet. */
  ghost function NewItems(before: Rows, items: seq<Item>): set<nat> {
    set i: nat | i < |items| && SlotOf(items[i]) !in before
  }

  /** Indices of the items whose row is a tombstone or says something else. */
  ghost function ChangedItems(before: Rows, items: seq<Item>): set<nat> {
    set i: nat | i < |items| && SlotOf(items[i]) in before
              && (before[SlotOf(items[i])].isDeleted || !Says(before[SlotOf(items[i])].req, items[i], i))
  }

  /** No two items have the same slot, so sets of items and of their slots have the same size. */
  lemma {:induction false} SameSize(items: seq<Item>, some: set<nat>, slots: set<Slot>)
    requires forall i, j :: 0 <= i < j < |items| ==> SlotOf(items[i]) != SlotOf(items[j])
    requires forall i :: i in some ==> i < |items|
    requires forall s :: s in slots <==> exists i :: i in some && SlotOf(items[i]) == s
    ensures |slots| == |some|
    decreases some
  {
    if some == {} {
      assert slots == {};
    } else {
      var k :| k in some;
      assert SlotOf(items[k]) in slots;
      forall s
        ensures s in slots - {SlotOf(items[k])} <==> exists i :: i in some - {k} && SlotOf(items[i]) == s
      {
        if s in slots - {SlotOf(items[k])} {
          var i :| i in some && SlotOf(items[i]) == s;
          assert i in some - {k};
        }
      }
      SameSize(items, some - {k}, slots - {SlotOf(items[k])});
    }
  }

  lemma CreatedAreNewItems(before: Rows, items: seq<Item>)
    requires ValidItems(items)
    ensures |CreatedSlots(before, LinesOf(items))| == |NewItems(before, items)|
  {
    forall s
      ensures s in CreatedSlots(before, LinesOf(items)) <==>
              exists i :: i in NewItems(before, items) && SlotOf(items[i]) == s
    {
      SlotsAreItems(items, s);
      if i :| 0 <= i < |items| && SlotOf(items[i]) == s && s !in before {
        assert i in NewItems(before, items);
      }
    }
    SameSize(items, NewItems(before, items), CreatedSlots(before, LinesOf(items)));
  }

  lemma UpdatedAreChangedItems(before: Rows, items: seq<Item>)
    requires ValidItems(items)
    ensures |UpdatedSlots(before, LinesOf(items))| == |ChangedItems(before, items)|
  {
    var lines := LinesOf(items);
    forall i: nat | i < |items|
      ensures Differs(before, lines[i], i) <==> i in ChangedItems(before, items)
    {
      if SlotOf(items[i]) in before {
        HoldsIffSays(before[SlotOf(items[i])].req, items[i], i);
      }
    }
    forall s
      ensures s in UpdatedSlots(before, lines) <==>
              exists i :: i in ChangedItems(before, items) && SlotOf(items[i]) == s
    {
      if s in UpdatedSlots(before, lines) {
        var i :| 0 <= i < |lines| && Differs(before, lines[i], i) && lines[i].Slot() == s;
        assert i in ChangedItems(before, items);
      }
      if i :| i in ChangedItems(before, items) && SlotOf(items[i]) == s {
        assert Differs(before, lines[i], i) && lines[i].Slot() == s;
      }
    }
    SameSize(items, ChangedItems(before, items), UpdatedSlots(before, lines));
  }
}
