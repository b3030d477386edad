/** Leaves, containers and rank completeness (backend/app/core/advancement.py:72-76, 209-293). */
module Completeness {
  import opened Records
  import opened Sizes

  ghost predicate IsContainer(reqs: seq<Requirement>, id: Id) {
    exists k :: k in reqs && k.parent == Some(id)
  }

  /** Requirements that carry completion rows: everything that is no live requirement's parent. */
  function LeafIds(reqs: seq<Requirement>): (leaves: set<Id>)
    ensures forall id :: id in leaves <==> id in Ids(reqs) && !IsContainer(reqs, id)
  {
    var parentIds := set r | r in reqs && r.parent.Some? :: r.parent.value;
    set r | r in reqs && r.id !in parentIds :: r.id
  }

  function ApprovedIds(rows: seq<Completion>): set<Id> {
    set c | c in rows && c.status == Approved :: c.requirement
  }

  /** Completeness as derived in one pass: a container looks at its children's own rows only. */
  ghost predicate OnePass(reqs: seq<Requirement>, approved: set<Id>, id: Id) {
    if IsContainer(reqs, id) then forall k :: k in reqs && k.parent == Some(id) ==> k.id in approved
    else id in approved
  }

  method DeriveCompletionMap(reqs: seq<Requirement>, rows: seq<Completion>) returns (complete: map<Id, bool>)
    ensures complete.Keys == Ids(reqs)
    ensures forall id :: id in complete ==> complete[id] == OnePass(reqs, ApprovedIds(rows), id)
  {
    var approved := ApprovedIds(rows);
    var children: map<Id, seq<Requirement>> := map[];
    for i := 0 to |reqs|
      invariant forall p :: p in children ==> children[p] != []
      invariant forall p, k :: p in children && k in children[p] ==> k in reqs && k.parent == Some(p)
      invariant forall j :: 0 <= j < i && reqs[j].parent.Some? ==>
                  reqs[j].parent.value in children && reqs[j] in children[reqs[j].parent.value]
    {
      var req := reqs[i];
      if req.parent.Some? {
        var p := req.parent.value;
        var siblings := if p in children then children[p] else [];
        children := children[p := siblings + [req]];
      }
    }
    complete := map[];
    for i := 0 to |reqs|
      invariant forall id :: id in complete <==> exists j :: 0 <= j < i && reqs[j].id == id
      invariant forall id :: id in complete ==> complete[id] == OnePass(reqs, approved, id)
    {
      var req := reqs[i];
      if req.id in children {
        var kids := children[req.id];
        assert kids[0] in kids;
        complete := complete[req.id := forall k | k in kids :: k.id in approved];
      } else {
        complete := complete[req.id := req.id in approved];
      }
    }
  }

  /** All top-level requirements complete, and there is at least one. */
  predicate RankIsComplete(reqs: seq<Requirement>, complete: map<Id, bool>) {
    && (exists r :: r in reqs && r.parent.None?)
    && forall r :: r in reqs && r.parent.None? ==> r.id in complete && complete[r.id]
  }

  ghost predicate RankComplete(reqs: seq<Requirement>, approved: set<Id>) {
    && (exists r :: r in reqs && r.parent.None?)
    && forall r :: r in reqs && r.parent.None? ==> OnePass(reqs, approved, r.id)
  }

  /** (completed leaves, total leaves), counted with the derived map. */
  function LeafProgress(reqs: seq<Requirement>, complete: map<Id, bool>): (nat, nat) {
    (|CompleteLeaves(reqs, complete)|, |LeafIds(reqs)|)
  }

  function CompleteLeaves(reqs: seq<Requirement>, complete: map<Id, bool>): set<Id> {
    set id | id in LeafIds(reqs) && id in complete && complete[id]
  }

  // ---- one pass against the recursive definition ----

  /** `height` strictly falls from a live parent to its child, so the parent links have no cycle. */
  ghost predicate Acyclic(reqs: seq<Requirement>, height: map<Id, nat>) {
    && (forall r :: r in reqs ==> r.id in height)
    && forall r :: r in reqs && r.parent.Some? && r.parent.value in height ==> height[r.id] < height[r.parent.value]
  }

  /** A container is complete when all its children are, to any depth. */
  ghost predicate Complete(reqs: seq<Requirement>, height: map<Id, nat>, approved: set<Id>, id: Id)
    requires Acyclic(reqs, height) && id in height
    decreases height[id]
  {
    if IsContainer(reqs, id)
    then forall k :: k in reqs && k.parent == Some(id) ==> Complete(reqs, height, approved, k.id)
    else id in approved
  }

  ghost predicate ContainersHoldOnlyLeaves(reqs: seq<Requirement>) {
    forall k :: k in reqs && k.parent.Some? && k.parent.value in Ids(reqs) ==> !IsContainer(reqs, k.id)
  }

  lemma {:induction false} AllLeavesApprovedCompletesAll(reqs: seq<Requirement>, height: map<Id, nat>, id: Id)
    requires Acyclic(reqs, height) && id in Ids(reqs)
    ensures Complete(reqs, height, LeafIds(reqs), id)
    decreases height[id]
  {
    forall k | k in reqs && k.parent == Some(id)
      ensures Complete(reqs, height, LeafIds(reqs), k.id)
    {
      AllLeavesApprovedCompletesAll(reqs, height, k.id);
    }
  }

  /**
   * The one-pass derivation is the recursive one for every set of approved rows exactly when no
   * child of a live container is itself a container; otherwise approving all leaves tells them apart.
   */
  lemma OnePassIsRecursiveIffFlat(reqs: seq<Requirement>, height: map<Id, nat>)
    requires Acyclic(reqs, height)
    ensures ContainersHoldOnlyLeaves(reqs) ==>
              forall approved, id :: id in Ids(reqs) ==>
                  OnePass(reqs, approved, id) == Complete(reqs, height, approved, id)
    ensures !ContainersHoldOnlyLeaves(reqs) ==>
              exists id :: id in Ids(reqs)
                  && OnePass(reqs, LeafIds(reqs), id) != Complete(reqs, height, LeafIds(reqs), id)
  {
    if ContainersHoldOnlyLeaves(reqs) {
      forall approved, id | id in Ids(reqs)
        ensures OnePass(reqs, approved, id) == Complete(reqs, height, approved, id)
      {
        assert forall k :: k in reqs && k.parent == Some(id) ==>
            Complete(reqs, height, approved, k.id) == (k.id in approved);
      }
    } else {
      var k :| k in reqs && k.parent.Some? && k.parent.value in Ids(reqs) && IsContainer(reqs, k.id);
      AllLeavesApprovedCompletesAll(reqs, height, k.parent.value);
      assert !OnePass(reqs, LeafIds(reqs), k.parent.value);
    }
  }

  // ---- rank completeness against the leaves ----

  /** Every child hangs off a live requirement that has no parent itself. */
  ghost predicate Forest(reqs: seq<Requirement>) {
    forall r :: r in reqs && r.parent.Some? ==> IsTopLevel(reqs, r.parent.value)
  }

  ghost predicate IsTopLevel(reqs: seq<Requirement>, id: Id) {
    exists p :: p in reqs && p.id == id && p.parent.None?
  }

  ghost predicate AllLeavesApproved(reqs: seq<Requirement>, approved: set<Id>) {
    LeafIds(reqs) != {} && LeafIds(reqs) <= approved
  }

  lemma SameIdSameRow(reqs: seq<Requirement>)
    requires DistinctIds(reqs)
    ensures forall r, s :: r in reqs && s in reqs && r.id == s.id ==> r == s
  {
  }

  lemma ForestIsFlat(reqs: seq<Requirement>)
    requires DistinctIds(reqs) && Forest(reqs)
    ensures ContainersHoldOnlyLeaves(reqs)
  {
    SameIdSameRow(reqs);
    assert forall r :: r in reqs && r.parent.Some? ==> !IsContainer(reqs, r.id);
  }

  /** Depth from the leaves in a forest: top-level rows above all others. */
  function Heights(reqs: seq<Requirement>): map<Id, nat> {
    map id | id in Ids(reqs) :: if ById(reqs, id).parent.None? then 1 else 0
  }

  lemma ForestIsAcyclic(reqs: seq<Requirement>)
    requires DistinctIds(reqs) && Forest(reqs)
    ensures Acyclic(reqs, Heights(reqs))
  {
    SameIdSameRow(reqs);
    forall r | r in reqs
      ensures r.id in Ids(reqs) && ById(reqs, r.id) == r
    {
    }
    forall r | r in reqs && r.parent.Some?
      ensures r.parent.value in Ids(reqs) && ById(reqs, r.parent.value).parent.None?
    {
      assert IsTopLevel(reqs, r.parent.value);
    }
  }

  /** On a forest the one-pass derivation is the recursive definition, for every set of approved rows. */
  lemma OnePassIsRecursiveOnForest(reqs: seq<Requirement>)
    requires DistinctIds(reqs) && Forest(reqs)
    ensures Acyclic(reqs, Heights(reqs))
    ensures forall approved, id :: id in Ids(reqs) ==>
              OnePass(reqs, approved, id) == Complete(reqs, Heights(reqs), approved, id)
  {
    ForestIsAcyclic(reqs);
    ForestIsFlat(reqs);
    OnePassIsRecursiveIffFlat(reqs, Heights(reqs));
  }

  lemma CompleteApprovesLeaf(reqs: seq<Requirement>, approved: set<Id>, leaf: Requirement)
    requires Forest(reqs) && RankComplete(reqs, approved)
    requires leaf in reqs && !IsContainer(reqs, leaf.id)
    ensures leaf.id in approved
  {
    if leaf.parent.Some? {
      var p :| p in reqs && p.id == leaf.parent.value && p.parent.None?;
      assert OnePass(reqs, approved, p.id);
    } else {
      assert OnePass(reqs, approved, leaf.id);
    }
  }

  lemma CompleteApprovesLeaves(reqs: seq<Requirement>, approved: set<Id>)
    requires Forest(reqs) && RankComplete(reqs, approved)
    ensures LeafIds(reqs) <= approved
  {
    forall id | id in LeafIds(reqs)
      ensures id in approved
    {
      var leaf :| leaf in reqs && leaf.id == id;
      CompleteApprovesLeaf(reqs, approved, leaf);
    }
  }

  lemma LeavesCompleteTop(reqs: seq<Requirement>, approved: set<Id>, top: Requirement)
    requires ContainersHoldOnlyLeaves(reqs) && LeafIds(reqs) <= approved && top in reqs
    ensures OnePass(reqs, approved, top.id)
  {
    forall k | k in reqs && k.parent == Some(top.id)
      ensures k.id in approved
    {
      assert k.id in LeafIds(reqs);
    }
    assert !IsContainer(reqs, top.id) ==> top.id in LeafIds(reqs);
  }

  lemma LeavesCompleteRank(reqs: seq<Requirement>, approved: set<Id>)
    requires ContainersHoldOnlyLeaves(reqs) && LeafIds(reqs) <= approved
    requires exists t :: t in reqs && t.parent.None?
    ensures RankComplete(reqs, approved)
  {
    forall t | t in reqs
      ensures OnePass(reqs, approved, t.id)
    {
      LeavesCompleteTop(reqs, approved, t);
    }
  }

  lemma TopOrKidIsLeaf(reqs: seq<Requirement>, top: Requirement) returns (leaf: Requirement)
    requires ContainersHoldOnlyLeaves(reqs) && top in reqs
    ensures leaf in reqs && !IsContainer(reqs, leaf.id)
  {
    leaf := top;
    if IsContainer(reqs, top.id) {
      leaf :| leaf in reqs && leaf.parent == Some(top.id);
    }
  }

  lemma TopIffLeaf(reqs: seq<Requirement>)
    requires DistinctIds(reqs) && Forest(reqs)
    ensures (exists t :: t in reqs && t.parent.None?) <==> LeafIds(reqs) != {}
  {
    ForestIsFlat(reqs);
    if top :| top in reqs && top.parent.None? {
      var leaf := TopOrKidIsLeaf(reqs, top);
      assert leaf.id in LeafIds(reqs);
    }
    if id :| id in LeafIds(reqs) {
      var r :| r in reqs && r.id == id;
      assert r.parent.Some? ==> IsTopLevel(reqs, r.parent.value);
    }
  }

  lemma ForestCompleteIffLeaves(reqs: seq<Requirement>, approved: set<Id>)
    requires DistinctIds(reqs) && Forest(reqs)
    ensures RankComplete(reqs, approved) <==> AllLeavesApproved(reqs, approved)
  {
    TopIffLeaf(reqs);
    if RankComplete(reqs, approved) {
      CompleteApprovesLeaves(reqs, approved);
    }
    if AllLeavesApproved(reqs, approved) {
      ForestIsFlat(reqs);
      LeavesCompleteRank(reqs, approved);
    }
  }

  /** A leaf at or below `r`; unless it is `r`, its parent is `r` or has a parent itself. */
  lemma {:induction false} LeafBelow(reqs: seq<Requirement>, height: map<Id, nat>, r: Requirement)
    returns (leaf: Requirement)
    requires Acyclic(reqs, height) && DistinctIds(reqs) && r in reqs
    ensures leaf in reqs && leaf.id in LeafIds(reqs)
    ensures leaf == r ||
            (leaf.parent.Some? && exists p :: p in reqs && p.id == leaf.parent.value && (p == r || p.parent.Some?))
    decreases height[r.id]
  {
    if IsContainer(reqs, r.id) {
      var k :| k in reqs && k.parent == Some(r.id);
      leaf := LeafBelow(reqs, height, k);
    } else {
      leaf := r;
    }
  }

  /** A leaf that hangs off no top-level requirement is not needed to complete the rank. */
  lemma UnneededLeaf(reqs: seq<Requirement>, leaf: Requirement)
    requires leaf.id in LeafIds(reqs) && leaf.parent.Some? && DistinctIds(reqs) && leaf in reqs
    requires forall p :: p in reqs && p.id == leaf.parent.value ==> p.parent.Some?
    requires exists t :: t in reqs && t.parent.None?
    ensures RankComplete(reqs, Ids(reqs) - {leaf.id}) && !AllLeavesApproved(reqs, Ids(reqs) - {leaf.id})
  {
    SameIdSameRow(reqs);
  }

  /** Without a top level no rank is complete, even with all leaves approved. */
  lemma NoTopLevel(reqs: seq<Requirement>)
    requires LeafIds(reqs) != {} && !exists t :: t in reqs && t.parent.None?
    ensures !RankComplete(reqs, LeafIds(reqs)) && AllLeavesApproved(reqs, LeafIds(reqs))
  {
  }

  lemma NotForestDisagrees(reqs: seq<Requirement>, height: map<Id, nat>) returns (approved: set<Id>)
    requires DistinctIds(reqs) && Acyclic(reqs, height) && !Forest(reqs)
    ensures RankComplete(reqs, approved) != AllLeavesApproved(reqs, approved)
  {
    SameIdSameRow(reqs);
    var r :| r in reqs && r.parent.Some? && forall p :: p in reqs && p.id == r.parent.value ==> p.parent.Some?;
    var leaf := LeafBelow(reqs, height, r);
    if exists t :: t in reqs && t.parent.None? {
      assert leaf.parent.Some? && forall p :: p in reqs && p.id == leaf.parent.value ==> p.parent.Some?;
      UnneededLeaf(reqs, leaf);
      approved := Ids(reqs) - {leaf.id};
    } else {
      NoTopLevel(reqs);
      approved := LeafIds(reqs);
    }
  }

  /**
   * "Top level complete" means "at least one leaf and every leaf approved", for every set of
   * approved rows, exactly when the live requirements form a forest of depth at most one.
   */
  lemma RankCompleteIsLeavesIffForest(reqs: seq<Requirement>, height: map<Id, nat>)
    requires DistinctIds(reqs) && Acyclic(reqs, height)
    ensures (forall approved: set<Id> :: RankComplete(reqs, approved) <==> AllLeavesApproved(reqs, approved))
        <==> Forest(reqs)
  {
    if Forest(reqs) {
      forall approved: set<Id>
        ensures RankComplete(reqs, approved) <==> AllLeavesApproved(reqs, approved)
      {
        ForestCompleteIffLeaves(reqs, approved);
      }
    } else {
      var approved := NotForestDisagrees(reqs, height);
    }
  }

  lemma MapDecidesRank(reqs: seq<Requirement>, approved: set<Id>, complete: map<Id, bool>)
    requires complete.Keys == Ids(reqs) && forall id :: id in complete ==> complete[id] == OnePass(reqs, approved, id)
    ensures RankIsComplete(reqs, complete) <==> RankComplete(reqs, approved)
  {
    assert forall r :: r in reqs ==> r.id in complete;
  }

  lemma DoneLeaves(reqs: seq<Requirement>, approved: set<Id>, complete: map<Id, bool>)
    requires complete.Keys == Ids(reqs) && forall id :: id in complete ==> complete[id] == OnePass(reqs, approved, id)
    ensures CompleteLeaves(reqs, complete) == LeafIds(reqs) * approved
  {
  }

  lemma CountLeaves(done: set<Id>, leaves: set<Id>, approved: set<Id>)
    requires done == leaves * approved
    ensures |done| == |leaves| > 0 <==> leaves != {} && leaves <= approved
  {
    SubsetSize(done, leaves);
    assert leaves <= approved <==> done == leaves;
    assert leaves == {} <==> |leaves| == 0;
  }

  /** On a forest, a rank is complete exactly when its leaf progress is (n, n) with n positive. */
  lemma RankCompleteIffFullProgress(reqs: seq<Requirement>, approved: set<Id>, complete: map<Id, bool>)
    requires DistinctIds(reqs) && Forest(reqs)
    requires complete.Keys == Ids(reqs) && forall id :: id in complete ==> complete[id] == OnePass(reqs, approved, id)
    ensures RankIsComplete(reqs, complete) <==> LeafProgress(reqs, complete).0 == LeafProgress(reqs, complete).1 > 0
  {
    ForestCompleteIffLeaves(reqs, approved);
    MapDecidesRank(reqs, approved, complete);
    DoneLeaves(reqs, approved, complete);
    CountLeaves(CompleteLeaves(reqs, complete), LeafIds(reqs), approved);
  }

  // ---- the earned date ----

  /** `d` is the date of an approved row and no approved row is later. */
  ghost predicate LatestApproved(rows: seq<Completion>, d: Date) {
    && (exists c :: c in rows && c.status == Approved && c.date == d)
    && forall c :: c in rows && c.status == Approved ==> c.date <= d
  }

  /** A complete rank has an approved row, so the maximum is never taken over nothing. */
  lemma CompleteRankHasApproval(reqs: seq<Requirement>, rows: seq<Completion>)
    requires RankComplete(reqs, ApprovedIds(rows))
    ensures exists c :: c in rows && c.status == Approved
  {
    var top :| top in reqs && top.parent.None?;
    assert OnePass(reqs, ApprovedIds(rows), top.id);
    if IsContainer(reqs, top.id) {
      var k :| k in reqs && k.parent == Some(top.id);
      assert k.id in ApprovedIds(rows);
    }
  }

  method LatestApprovedDate(rows: seq<Completion>) returns (d: Date)
    requires exists c :: c in rows && c.status == Approved
    ensures LatestApproved(rows, d)
  {
    var best: Option<Date> := None;
    for i := 0 to |rows|
      invariant best.None? ==> forall j :: 0 <= j < i ==> rows[j].status != Approved
      invariant best.Some? ==> exists j :: 0 <= j < i && rows[j].status == Approved && rows[j].date == best.value
      invariant best.Some? ==> forall j :: 0 <= j < i && rows[j].status == Approved ==> rows[j].date <= best.value
    {
      if rows[i].status == Approved && (best.None? || rows[i].date > best.value) {
        best := Some(rows[i].date);
      }
    }
    d := best.value;
  }

  /** What deriving the earned date may do to the ledger, and when it reports a change. */
  ghost predicate DeriveStep(cat: Catalog, before: Ledger, member: Id, rank: Id, after: Ledger, changed: bool)
    requires (member, rank) in before.progress
  {
    var p := before.progress[(member, rank)];
    var reqs := cat.Live(p.electedSet);
    var rows := ActiveOn(before.completions, member, LeafIds(reqs));
    && after.completions == before.completions
    && (!changed ==> after == before)
    && (changed ==> RankComplete(reqs, ApprovedIds(rows)))
    && (RankComplete(reqs, ApprovedIds(rows)) ==>
         exists d: Date ::
           && LatestApproved(rows, d)
           && after.progress == before.progress[(member, rank) := p.(earned := Some(d))]
           && changed == (p.earned != Some(d)))
  }

  /** Deriving never clears a date and keeps every other progress row. */
  lemma DeriveKeepsDates(cat: Catalog, l0: Ledger, l1: Ledger, member: Id, rank: Id, changed: bool, k: (Id, Id))
    requires (member, rank) in l0.progress && DeriveStep(cat, l0, member, rank, l1, changed)
    requires k in l0.progress
    ensures k in l1.progress && l1.progress[k].electedSet == l0.progress[k].electedSet
    ensures l0.progress[k].earned.Some? ==> l1.progress[k].earned.Some?
    ensures k != (member, rank) ==> l1.progress[k] == l0.progress[k]
  {
    var p := l0.progress[(member, rank)];
    if changed {
      var d: Date :| l1.progress == l0.progress[(member, rank) := p.(earned := Some(d))];
    }
  }

  /** The latest approved date is unique. */
  lemma LatestApprovedUnique(rows: seq<Completion>, d: Date, e: Date)
    requires LatestApproved(rows, d) && LatestApproved(rows, e)
    ensures d == e
  {
  }

  /** A second call right after finds the date in place and reports no change. */
  lemma DeriveSettles(cat: Catalog, l0: Ledger, l1: Ledger, l2: Ledger, member: Id, rank: Id, c1: bool, c2: bool)
    requires (member, rank) in l0.progress && DeriveStep(cat, l0, member, rank, l1, c1)
    requires (member, rank) in l1.progress && DeriveStep(cat, l1, member, rank, l2, c2)
    ensures !c2 && l2 == l1
  {
    DeriveKeepsDates(cat, l0, l1, member, rank, c1, (member, rank));
    var p := l0.progress[(member, rank)];
    var reqs := cat.Live(p.electedSet);
    var rows := ActiveOn(l0.completions, member, LeafIds(reqs));
    if c2 {
      var d: Date :| LatestApproved(rows, d) && l1.progress == l0.progress[(member, rank) := p.(earned := Some(d))];
      var e: Date :| LatestApproved(rows, e) && c2 == (l1.progress[(member, rank)].earned != Some(e));
      LatestApprovedUnique(rows, d, e);
      assert false;
    }
  }

  // ---- the earned date in terms of the rows alone ----

  /** The member has an active approved row of that date on `id`, which is no live requirement's parent. */
  ghost predicate SignedOffOn(rows: seq<Completion>, member: Id, reqs: seq<Requirement>, id: Id, d: Date) {
    && (forall k :: k in reqs ==> k.parent != Some(id))
    && exists c :: c in rows && c.member == member && c.requirement == id && c.date == d && c.status == Approved
                   && !c.isDeleted
  }

  ghost predicate SignedOff(rows: seq<Completion>, member: Id, reqs: seq<Requirement>, id: Id) {
    exists d: Date :: SignedOffOn(rows, member, reqs, id, d)
  }

  /** There is a top level, and everything on it, or else everything right below, is signed off. */
  ghost predicate ReadyForBoard(rows: seq<Completion>, member: Id, reqs: seq<Requirement>) {
    && (exists r :: r in reqs && r.parent == None)
    && forall r :: r in reqs && r.parent == None ==> TopSignedOff(rows, member, reqs, r.id)
  }

  ghost predicate TopSignedOff(rows: seq<Completion>, member: Id, reqs: seq<Requirement>, id: Id) {
    || SignedOff(rows, member, reqs, id)
    || ((exists k :: k in reqs && k.parent == Some(id))
        && forall k :: k in reqs && k.parent == Some(id) ==> SignedOff(rows, member, reqs, k.id))
  }

  lemma ApprovedIsSignedOff(rows: seq<Completion>, member: Id, reqs: seq<Requirement>, id: Id)
    requires id in Ids(reqs)
    ensures id in ApprovedIds(ActiveOn(rows, member, LeafIds(reqs))) <==> SignedOff(rows, member, reqs, id)
  {
    var active := ActiveOn(rows, member, LeafIds(reqs));
    if id in ApprovedIds(active) {
      var c :| c in active && c.status == Approved && c.requirement == id;
      assert SignedOffOn(rows, member, reqs, id, c.date);
    }
    if d: Date :| SignedOffOn(rows, member, reqs, id, d) {
      var c :| c in rows && c.member == member && c.requirement == id && c.status == Approved && !c.isDeleted;
      assert c in active;
    }
  }

  lemma CompleteIsReady(rows: seq<Completion>, member: Id, reqs: seq<Requirement>)
    ensures RankComplete(reqs, ApprovedIds(ActiveOn(rows, member, LeafIds(reqs)))) <==>
            ReadyForBoard(rows, member, reqs)
  {
    var approved := ApprovedIds(ActiveOn(rows, member, LeafIds(reqs)));
    forall r | r in reqs
      ensures r.id in approved <==> SignedOff(rows, member, reqs, r.id)
    {
      ApprovedIsSignedOff(rows, member, reqs, r.id);
    }
    forall r | r in reqs
      ensures OnePass(reqs, approved, r.id) <==> TopSignedOff(rows, member, reqs, r.id)
    {
    }
  }

  /**
   * The earned date changes only when the rank is ready for its board of review; it is then the date of
   * an active approved row of the member on a leaf of the elected set, and no such row is later. Nothing
   * else changes, and the result says whether anything did.
   */
  lemma EarnedDateIsLastSignOff(cat: Catalog, before: Ledger, member: Id, rank: Id, after: Ledger, changed: bool)
    requires (member, rank) in before.progress && DeriveStep(cat, before, member, rank, after, changed)
    ensures after.completions == before.completions && (changed <==> after != before)
    ensures var p := before.progress[(member, rank)];
            var reqs := cat.Live(p.electedSet);
            if !ReadyForBoard(before.completions, member, reqs) then !changed
            else exists d: Date ::
              && after.progress == before.progress[(member, rank) := Progress(p.electedSet, Some(d))]
              && (exists id :: id in Ids(reqs) && SignedOffOn(before.completions, member, reqs, id, d))
              && forall id, e: Date ::
                   id in Ids(reqs) && SignedOffOn(before.completions, member, reqs, id, e) ==> e <= d
  {
    var p := before.progress[(member, rank)];
    var reqs := cat.Live(p.electedSet);
    var rows := ActiveOn(before.completions, member, LeafIds(reqs));
    CompleteIsReady(before.completions, member, reqs);
    if RankComplete(reqs, ApprovedIds(rows)) {
      var d: Date :| LatestApproved(rows, d)
          && after.progress == before.progress[(member, rank) := p.(earned := Some(d))]
          && changed == (p.earned != Some(d));
      LatestIsLastSignOff(before.completions, member, reqs, d);
      assert changed ==> after.progress[(member, rank)] != p;
      if !changed {
        assert after.progress == before.progress;
      }
    }
  }

  lemma LatestIsLastSignOff(rows: seq<Completion>, member: Id, reqs: seq<Requirement>, d: Date)
    requires LatestApproved(ActiveOn(rows, member, LeafIds(reqs)), d)
    ensures exists id :: id in Ids(reqs) && SignedOffOn(rows, member, reqs, id, d)
    ensures forall id, e: Date :: id in Ids(reqs) && SignedOffOn(rows, member, reqs, id, e) ==> e <= d
  {
    var active := ActiveOn(rows, member, LeafIds(reqs));
    var c :| c in active && c.status == Approved && c.date == d;
    assert SignedOffOn(rows, member, reqs, c.requirement, d);
    forall id, e: Date | id in Ids(reqs) && SignedOffOn(rows, member, reqs, id, e)
      ensures e <= d
    {
      var later :| later in rows && later.member == member && later.requirement == id && later.date == e
          && later.status == Approved && !later.isDeleted;
      assert later in active;
    }
  }

  /** Leaf progress counts the leaves that are signed off, among all leaves. */
  lemma LeafProgressCountsSignOffs(rows: seq<Completion>, member: Id, reqs: seq<Requirement>, complete: map<Id, bool>)
    requires complete.Keys == Ids(reqs)
    requires forall id :: id in complete ==>
               complete[id] == OnePass(reqs, ApprovedIds(ActiveOn(rows, member, LeafIds(reqs))), id)
    ensures LeafProgress(reqs, complete).0 == |(set id | id in Ids(reqs) && SignedOff(rows, member, reqs, id))|
    ensures LeafProgress(reqs, complete).1 ==
            |(set id | id in Ids(reqs) && forall k :: k in reqs ==> k.parent != Some(id))|
  {
    DoneLeaves(reqs, ApprovedIds(ActiveOn(rows, member, LeafIds(reqs))), complete);
    forall id | id in Ids(reqs)
      ensures id in CompleteLeaves(reqs, complete) <==> SignedOff(rows, member, reqs, id)
    {
      ApprovedIsSignedOff(rows, member, reqs, id);
    }
    assert CompleteLeaves(reqs, complete) == (set id | id in Ids(reqs) && SignedOff(rows, member, reqs, id));
    assert LeafIds(reqs) == (set id | id in Ids(reqs) && forall k :: k in reqs ==> k.parent != Some(id));
  }
}
