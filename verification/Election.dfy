/** Version-election switches and stable-key remapping (backend/app/core/advancement.py:128-206). */
module Election {
  import opened Records
  import opened Completeness

  datatype RemapResult = RemapResult(remapped: nat, skippedExisting: nat, unmatched: seq<string>)

  /** The requirement carrying `key`; the last one listed wins when several do. */
  function Counterpart(reqs: seq<Requirement>, key: string): (c: Option<Requirement>)
    ensures c.Some? ==> c.value in reqs && c.value.Keyed() && c.value.stableKey.value == key
    ensures c.None? ==> forall r :: r in reqs && r.Keyed() ==> r.stableKey.value != key
  {
    if reqs == [] then None
    else
      var init, last := reqs[..|reqs| - 1], reqs[|reqs| - 1];
      assert reqs == init + [last];
      if last.Keyed() && last.stableKey.value == key then Some(last) else Counterpart(init, key)
  }

  /** Where a completion on a requirement of `was` lands among `next`, if anywhere. */
  function TargetOf(was: seq<Requirement>, next: seq<Requirement>, c: Completion): (t: Option<Requirement>)
    requires c.requirement in Ids(was)
    ensures t.Some? ==> t.value in next && t.value.Keyed()
  {
    var r := ById(was, c.requirement);
    if r.Keyed() then Counterpart(next, r.stableKey.value) else None
  }

  ghost predicate AllOn(sources: seq<Completion>, was: seq<Requirement>) {
    forall i :: 0 <= i < |sources| ==> sources[i].requirement in Ids(was)
  }

  /** Labels of the completions with no counterpart, in row order. */
  function Unmatched(sources: seq<Completion>, was: seq<Requirement>, next: seq<Requirement>): seq<string>
    requires AllOn(sources, was)
  {
    if sources == [] then []
    else
      var init, c := sources[..|sources| - 1], sources[|sources| - 1];
      Unmatched(init, was, next) + (if TargetOf(was, next, c).None? then [ById(was, c.requirement).Label()] else [])
  }

  /** The copy carries everything the completion recorded, on another requirement and marked as remapped. */
  function CopyOnto(c: Completion, target: Id): Completion {
    c.(requirement := target, via := Remap, isDeleted := false)
  }

  /** Source `i` is the first of the sources to land on `target`. */
  ghost predicate FirstOnto(sources: seq<Completion>, was: seq<Requirement>, next: seq<Requirement>, i: nat, target: Id)
    requires AllOn(sources, was)
  {
    && i < |sources|
    && TargetOf(was, next, sources[i]).Some?
    && TargetOf(was, next, sources[i]).value.id == target
    && forall j :: 0 <= j < i ==>
        TargetOf(was, next, sources[j]).None? || TargetOf(was, next, sources[j]).value.id != target
  }

  ghost predicate Lands(sources: seq<Completion>, was: seq<Requirement>, next: seq<Requirement>, target: Id)
    requires AllOn(sources, was)
  {
    exists i :: 0 <= i < |sources| && TargetOf(was, next, sources[i]).Some?
        && TargetOf(was, next, sources[i]).value.id == target
  }

  ghost predicate HasTarget(copies: seq<Completion>, t: Id) {
    exists k :: 0 <= k < |copies| && copies[k].requirement == t
  }

  /**
   * What remapping `sources` adds: one copy, of the first source to land there, for each target
   * that is not `taken`; every source is counted as remapped, skipped or unmatched.
   */
  ghost predicate Remaps(sources: seq<Completion>, was: seq<Requirement>, next: seq<Requirement>, taken: set<Id>,
                         copies: seq<Completion>, result: RemapResult)
  {
    && AllOn(sources, was)
    && |copies| == result.remapped
    && result.remapped + result.skippedExisting + |result.unmatched| == |sources|
    && result.unmatched == Unmatched(sources, was, next)
    && DistinctTargets(copies)
    && (forall k :: 0 <= k < |copies| ==> copies[k].requirement !in taken)
    && (forall k :: 0 <= k < |copies| ==>
         exists i: nat :: FirstOnto(sources, was, next, i, copies[k].requirement)
             && copies[k] == CopyOnto(sources[i], copies[k].requirement))
    && forall t :: Lands(sources, was, next, t) ==> t in taken || HasTarget(copies, t)
  }

  /** The whole effect of a switch: old rows stay as they are, copies follow them, the election moves. */
  ghost predicate SwitchStep(cat: Catalog, before: Ledger, member: Id, rank: Id, newSet: Id, after: Ledger,
                             result: RemapResult)
  {
    && (member, rank) in before.progress
    && var p := before.progress[(member, rank)];
    if newSet == p.electedSet then after == before && result == RemapResult(0, 0, [])
    else
      && before.completions <= after.completions
      && after.progress == before.progress[(member, rank) := p.(electedSet := newSet)]
      && Remaps(ActiveOn(before.completions, member, Ids(cat.Live(p.electedSet))), cat.Live(p.electedSet),
                cat.Live(newSet), RowIds(before.completions, member), after.completions[|before.completions|..],
                result)
  }

  // ---- consequences of one switch ----

  ghost function Added(before: Ledger, after: Ledger): seq<Completion>
    requires before.completions <= after.completions
  {
    after.completions[|before.completions|..]
  }

  /** Every copy is an active row of the member, on a keyed live requirement of the new set that had no row. */
  lemma CopiesLandOnFreeKeyedRequirements(cat: Catalog, before: Ledger, member: Id, rank: Id, newSet: Id,
                                          after: Ledger, result: RemapResult)
    requires SwitchStep(cat, before, member, rank, newSet, after, result)
    ensures before.completions <= after.completions && after.completions == before.completions + Added(before, after)
    ensures |Added(before, after)| == result.remapped
    ensures DistinctTargets(Added(before, after))
    ensures forall c :: c in Added(before, after) ==>
              && c.member == member && !c.isDeleted && c.via == Remap
              && c.requirement !in RowIds(before.completions, member)
              && exists t :: t in cat.Live(newSet) && t.Keyed() && t.id == c.requirement
  {
    var p := before.progress[(member, rank)];
    if newSet != p.electedSet {
      var was, next := cat.Live(p.electedSet), cat.Live(newSet);
      var sources := ActiveOn(before.completions, member, Ids(was));
      var copies := Added(before, after);
      forall k | 0 <= k < |copies|
        ensures copies[k].member == member && !copies[k].isDeleted && copies[k].via == Remap
        ensures exists t :: t in next && t.Keyed() && t.id == copies[k].requirement
      {
        var i: nat :| FirstOnto(sources, was, next, i, copies[k].requirement)
            && copies[k] == CopyOnto(sources[i], copies[k].requirement);
        assert sources[i] in sources;
        assert TargetOf(was, next, sources[i]).value in next;
      }
    }
  }

  lemma TargetHasRow(copies: seq<Completion>, member: Id, t: Id)
    requires HasTarget(copies, t) && forall c :: c in copies ==> c.member == member
    ensures t in RowIds(copies, member)
  {
    var k :| 0 <= k < |copies| && copies[k].requirement == t;
    assert copies[k] in copies;
  }

  /** After a switch every active completion of the old set with a counterpart has some row there. */
  lemma MatchedKeysHaveRows(cat: Catalog, before: Ledger, member: Id, rank: Id, newSet: Id, after: Ledger,
                            result: RemapResult, c: Completion)
    requires SwitchStep(cat, before, member, rank, newSet, after, result)
    requires newSet != before.progress[(member, rank)].electedSet
    requires c in ActiveOn(before.completions, member, Ids(cat.Live(before.progress[(member, rank)].electedSet)))
    ensures var t := TargetOf(cat.Live(before.progress[(member, rank)].electedSet), cat.Live(newSet), c);
            t.Some? ==> t.value.id in RowIds(after.completions, member)
  {
    CopiesLandOnFreeKeyedRequirements(cat, before, member, rank, newSet, after, result);
    var was, next := cat.Live(before.progress[(member, rank)].electedSet), cat.Live(newSet);
    var sources := ActiveOn(before.completions, member, Ids(was));
    var t := TargetOf(was, next, c);
    if t.Some? {
      assert Lands(sources, was, next, t.value.id);
      AppendedRows(before.completions, Added(before, after), member);
      if t.value.id !in RowIds(before.completions, member) {
        TargetHasRow(Added(before, after), member, t.value.id);
      }
    }
  }

  // ---- what a copy carries, in terms of the rows and requirements alone ----

  /** The last requirement listed with this stable key. */
  ghost predicate LastWithKey(reqs: seq<Requirement>, key: string, r: Requirement) {
    exists j :: 0 <= j < |reqs| && reqs[j] == r && r.stableKey == Some(key)
             && forall k :: j < k < |reqs| ==> reqs[k].stableKey != Some(key)
  }

  lemma {:induction false} CounterpartIsLast(reqs: seq<Requirement>, key: string)
    requires key != "" && Counterpart(reqs, key).Some?
    ensures LastWithKey(reqs, key, Counterpart(reqs, key).value)
  {
    var init, last := reqs[..|reqs| - 1], reqs[|reqs| - 1];
    if last.stableKey == Some(key) {
      assert reqs[|reqs| - 1] == last;
    } else {
      CounterpartIsLast(init, key);
      var r := Counterpart(init, key).value;
      var j :| 0 <= j < |init| && init[j] == r && forall k :: j < k < |init| ==> init[k].stableKey != Some(key);
      assert forall k :: j < k < |reqs| ==> reqs[k] == if k < |init| then init[k] else last;
      assert reqs[j] == r;
    }
  }

  /**
   * Every copy records exactly what some active completion of the member on the old set records, on the
   * last requirement of the new set with the same non-empty key.
   */
  lemma EachCopyHasASource(cat: Catalog, before: Ledger, member: Id, rank: Id, newSet: Id, after: Ledger,
                           result: RemapResult, copy: Completion)
    returns (source: Completion, was: Requirement, next: Requirement)
    requires SwitchStep(cat, before, member, rank, newSet, after, result)
    requires before.completions <= after.completions && copy in after.completions[|before.completions|..]
    ensures source in before.completions && source.member == member && !source.isDeleted
    ensures was in cat.Live(before.progress[(member, rank)].electedSet) && was.id == source.requirement
    ensures was.stableKey.Some? && was.stableKey.value != ""
    ensures LastWithKey(cat.Live(newSet), was.stableKey.value, next)
    ensures copy == Completion(member, next.id, source.date, source.status, source.reportedBy, source.approvedBy,
                               source.approvedAt, Remap, source.note, false)
  {
    var reqs, newReqs := cat.Live(before.progress[(member, rank)].electedSet), cat.Live(newSet);
    var sources := ActiveOn(before.completions, member, Ids(reqs));
    var k :| 0 <= k < |Added(before, after)| && Added(before, after)[k] == copy;
    var i: nat :| FirstOnto(sources, reqs, newReqs, i, copy.requirement)
        && copy == CopyOnto(sources[i], copy.requirement);
    source := sources[i];
    assert source in sources;
    was := ById(reqs, source.requirement);
    next := TargetOf(reqs, newReqs, source).value;
    CounterpartIsLast(newReqs, was.stableKey.value);
  }

  ghost predicate OnKey(reqs: seq<Requirement>, key: string, id: Id) {
    exists r :: r in reqs && r.id == id && r.stableKey == Some(key)
  }

  lemma KeyLeadsTo(was: seq<Requirement>, next: seq<Requirement>, key: string, target: Requirement, c: Completion)
    requires DistinctIds(was) && key != "" && LastWithKey(next, key, target) && OnKey(was, key, c.requirement)
    ensures c.requirement in Ids(was) && target.id in Ids(next) && TargetOf(was, next, c) == Some(target)
  {
    var r :| r in was && r.id == c.requirement && r.stableKey == Some(key);
    assert ById(was, c.requirement) == r;
    assert Counterpart(next, key).Some?;
    CounterpartIsLast(next, key);
  }

  lemma LeadsFromKey(was: seq<Requirement>, next: seq<Requirement>, key: string, target: Requirement, c: Completion)
    requires DistinctIds(next) && LastWithKey(next, key, target) && c.requirement in Ids(was)
    requires TargetOf(was, next, c).Some? && TargetOf(was, next, c).value.id == target.id
    ensures OnKey(was, key, c.requirement)
  {
    SameIdSameRow(next);
    assert TargetOf(was, next, c).value == target;
    assert ById(was, c.requirement).stableKey == Some(key);
  }

  /** The first source on a key is the one that is copied. */
  lemma FirstOnKeyIsCopied(sources: seq<Completion>, was: seq<Requirement>, next: seq<Requirement>, taken: set<Id>,
                           copies: seq<Completion>, result: RemapResult, i: nat, key: string, target: Requirement)
    requires Remaps(sources, was, next, taken, copies, result) && DistinctIds(was) && DistinctIds(next)
    requires i < |sources| && OnKey(was, key, sources[i].requirement)
    requires forall j :: 0 <= j < i ==> !OnKey(was, key, sources[j].requirement)
    requires key != "" && LastWithKey(next, key, target) && target.id !in taken
    ensures CopyOnto(sources[i], target.id) in copies
  {
    KeyLeadsTo(was, next, key, target, sources[i]);
    var first := CopiedSource(sources, was, next, taken, copies, result, i, target.id);
    LeadsFromKey(was, next, key, target, sources[first]);
    assert first == i;
  }

  /** A free target that source `i` lands on holds the copy of a source that is not later. */
  lemma CopiedSource(sources: seq<Completion>, was: seq<Requirement>, next: seq<Requirement>, taken: set<Id>,
                     copies: seq<Completion>, result: RemapResult, i: nat, target: Id) returns (first: nat)
    requires Remaps(sources, was, next, taken, copies, result)
    requires i < |sources| && target !in taken
    requires TargetOf(was, next, sources[i]).Some? && TargetOf(was, next, sources[i]).value.id == target
    ensures first <= i && CopyOnto(sources[first], target) in copies
    ensures TargetOf(was, next, sources[first]).Some? && TargetOf(was, next, sources[first]).value.id == target
  {
    assert Lands(sources, was, next, target);
    var k :| 0 <= k < |copies| && copies[k].requirement == target;
    first :| FirstOnto(sources, was, next, first, target) && copies[k] == CopyOnto(sources[first], target);
  }

  /**
   * A switch keeps approvals: the first active completion of the member on a requirement of the old set
   * with this key is recorded unchanged on the key's requirement in the new set if that had no row; so
   * when it is approved, that requirement ends approved.
   */
  lemma ApprovalsAreCarried(cat: Catalog, before: Ledger, member: Id, rank: Id, newSet: Id, after: Ledger,
                            result: RemapResult, i: nat, key: string, target: Requirement)
    requires SwitchStep(cat, before, member, rank, newSet, after, result)
    requires var elected := before.progress[(member, rank)].electedSet;
             var sources := ActiveOn(before.completions, member, Ids(cat.Live(elected)));
             && newSet != elected && DistinctIds(cat.Live(elected)) && DistinctIds(cat.Live(newSet))
             && i < |sources| && OnKey(cat.Live(elected), key, sources[i].requirement)
             && forall j :: 0 <= j < i ==> !OnKey(cat.Live(elected), key, sources[j].requirement)
    requires key != "" && LastWithKey(cat.Live(newSet), key, target)
    requires target.id !in RowIds(before.completions, member)
    ensures var elected := before.progress[(member, rank)].electedSet;
            var c := ActiveOn(before.completions, member, Ids(cat.Live(elected)))[i];
            && Completion(member, target.id, c.date, c.status, c.reportedBy, c.approvedBy, c.approvedAt, Remap, c.note,
                          false) in after.completions
            && (c.status == Approved ==>
                 target.id in ApprovedIds(ActiveOn(after.completions, member, Ids(cat.Live(newSet)))))
  {
    var elected := before.progress[(member, rank)].electedSet;
    var sources := ActiveOn(before.completions, member, Ids(cat.Live(elected)));
    FirstOnKeyIsCopied(sources, cat.Live(elected), cat.Live(newSet), RowIds(before.completions, member),
                       after.completions[|before.completions|..], result, i, key, target);
    assert sources[i] in sources;
    KeyLeadsTo(cat.Live(elected), cat.Live(newSet), key, target, sources[i]);
    CopyIsApproved(after.completions, CopyOnto(sources[i], target.id), member, Ids(cat.Live(newSet)));
  }

  lemma CopyIsApproved(rows: seq<Completion>, copy: Completion, member: Id, ids: set<Id>)
    requires copy in rows && copy.member == member && copy.requirement in ids && !copy.isDeleted
    ensures copy.status == Approved ==> copy.requirement in ApprovedIds(ActiveOn(rows, member, ids))
  {
    assert copy in ActiveOn(rows, member, ids);
  }

  /**
   * A label is reported for manual entry exactly when some active completion of the member is on a
   * requirement with that label whose key is missing, empty or not carried in the new set.
   */
  lemma UnmatchedIff(cat: Catalog, before: Ledger, member: Id, rank: Id, newSet: Id, after: Ledger,
                     result: RemapResult, display: string)
    requires SwitchStep(cat, before, member, rank, newSet, after, result)
    requires newSet != before.progress[(member, rank)].electedSet
    ensures var was := cat.Live(before.progress[(member, rank)].electedSet);
            display in result.unmatched <==>
            exists c :: && c in before.completions && c.member == member && !c.isDeleted && c.requirement in Ids(was)
                        && LosesItsKey(ById(was, c.requirement), display, cat.Live(newSet))
  {
    var was := cat.Live(before.progress[(member, rank)].electedSet);
    UnmatchedLabels(ActiveOn(before.completions, member, Ids(was)), was, cat.Live(newSet), display);
  }

  ghost predicate LosesItsKey(r: Requirement, display: string, next: seq<Requirement>) {
    && display == r.number + r.letter
    && (r.stableKey.None? || r.stableKey.value == "" || forall t :: t in next ==> t.stableKey != r.stableKey)
  }

  lemma {:induction false} UnmatchedLabels(sources: seq<Completion>, was: seq<Requirement>, next: seq<Requirement>,
                                           display: string)
    requires AllOn(sources, was)
    ensures display in Unmatched(sources, was, next) <==>
            exists c :: && c in sources && c.requirement in Ids(was)
                        && LosesItsKey(ById(was, c.requirement), display, next)
  {
    if sources != [] {
      var init, c := sources[..|sources| - 1], sources[|sources| - 1];
      UnmatchedLabels(init, was, next, display);
      assert sources == init + [c];
      assert TargetOf(was, next, c).None? && ById(was, c.requirement).Label() == display
        <==> LosesItsKey(ById(was, c.requirement), display, next);
    }
  }

  /** Besides the copies, a switch moves the member's election on this rank and nothing else. */
  lemma OnlyTheElectionMoves(cat: Catalog, before: Ledger, member: Id, rank: Id, newSet: Id, after: Ledger,
                             result: RemapResult)
    requires SwitchStep(cat, before, member, rank, newSet, after, result)
    ensures forall i :: 0 <= i < |before.completions| ==>
              i < |after.completions| && after.completions[i] == before.completions[i]
    ensures after.progress.Keys == before.progress.Keys
    ensures forall k :: k in before.progress ==>
              && after.progress[k].earned == before.progress[k].earned
              && after.progress[k].electedSet == if k == (member, rank) then newSet else before.progress[k].electedSet
    ensures result.remapped + result.skippedExisting + |result.unmatched| ==
            if newSet == before.progress[(member, rank)].electedSet then 0
            else |ActiveOn(before.completions, member, Ids(cat.Live(before.progress[(member, rank)].electedSet)))|
  {
  }

  // ---- conservation over any sequence of switches ----

  ghost function KeyedIds(cat: Catalog): set<Id> {
    set s, r | s in cat.requirements && r in cat.requirements[s] && r.Keyed() :: r.id
  }

  /** Keyed live requirements of the catalog on which the member has no row at all. */
  ghost function KeyedWithoutRow(cat: Catalog, rows: seq<Completion>, member: Id): set<Id> {
    KeyedIds(cat) - RowIds(rows, member)
  }

  lemma SetSizeSplit(whole: set<Id>, taken: set<Id>, landed: set<Id>)
    requires landed <= whole - taken
    ensures |whole - taken| == |whole - (taken + landed)| + |landed|
  {
    assert whole - taken == (whole - (taken + landed)) + landed;
  }

  lemma LandedIsKeyed(cat: Catalog, newSet: Id, copies: seq<Completion>, member: Id)
    requires forall c :: c in copies ==> exists t :: t in cat.Live(newSet) && t.Keyed() && t.id == c.requirement
    ensures RowIds(copies, member) <= KeyedIds(cat)
  {
    forall id | id in RowIds(copies, member)
      ensures id in KeyedIds(cat)
    {
      var c :| c in copies && c.requirement == id;
      var t :| t in cat.Live(newSet) && t.Keyed() && t.id == c.requirement;
      assert newSet in cat.requirements;
    }
  }

  lemma {:induction false} TargetsCounted(copies: seq<Completion>, member: Id)
    requires DistinctTargets(copies) && forall c :: c in copies ==> c.member == member
    ensures |RowIds(copies, member)| == |copies|
  {
    if copies != [] {
      var init, last := copies[..|copies| - 1], copies[|copies| - 1];
      assert copies == init + [last];
      TargetsCounted(init, member);
      AppendedRows(init, [last], member);
      assert RowIds([last], member) == {last.requirement} by {
        assert last in [last];
      }
      assert forall c :: c in init ==> exists i :: 0 <= i < |init| && copies[i] == c;
    }
  }

  lemma SwitchConserves(cat: Catalog, before: Ledger, member: Id, rank: Id, newSet: Id, after: Ledger,
                        result: RemapResult)
    requires SwitchStep(cat, before, member, rank, newSet, after, result)
    ensures |KeyedWithoutRow(cat, before.completions, member)| ==
            |KeyedWithoutRow(cat, after.completions, member)| + result.remapped
  {
    CopiesLandOnFreeKeyedRequirements(cat, before, member, rank, newSet, after, result);
    var copies := Added(before, after);
    AppendedRows(before.completions, copies, member);
    TargetsCounted(copies, member);
    LandedIsKeyed(cat, newSet, copies, member);
    SetSizeSplit(KeyedIds(cat), RowIds(before.completions, member), RowIds(copies, member));
  }

  datatype Switch = Switch(rank: Id, newSet: Id, result: RemapResult)

  ghost predicate SwitchRun(cat: Catalog, member: Id, states: seq<Ledger>, switches: seq<Switch>) {
    && |states| == |switches| + 1
    && forall i :: 0 <= i < |switches| ==>
         SwitchStep(cat, states[i], member, switches[i].rank, switches[i].newSet, states[i + 1], switches[i].result)
  }

  lemma RunTail(cat: Catalog, member: Id, states: seq<Ledger>, switches: seq<Switch>)
    requires SwitchRun(cat, member, states, switches) && switches != []
    ensures SwitchRun(cat, member, states[1..], switches[1..])
    ensures states[1..][0] == states[1] && states[1..][|switches| - 1] == states[|switches|]
  {
  }

  function TotalRemapped(switches: seq<Switch>): nat {
    if switches == [] then 0 else switches[0].result.remapped + TotalRemapped(switches[1..])
  }

  /**
   * Over any sequence of switches among any sets and ranks, the rows copied are exactly the keyed
   * requirements that lost their "no row yet" status; so their number is at most how many there were.
   */
  lemma {:induction false} RemappingIsBounded(cat: Catalog, member: Id, states: seq<Ledger>, switches: seq<Switch>)
    requires SwitchRun(cat, member, states, switches)
    ensures TotalRemapped(switches) ==
            |KeyedWithoutRow(cat, states[0].completions, member)| -
            |KeyedWithoutRow(cat, states[|switches|].completions, member)|
    ensures TotalRemapped(switches) <= |KeyedWithoutRow(cat, states[0].completions, member)|
  {
    if switches != [] {
      SwitchConserves(cat, states[0], member, switches[0].rank, switches[0].newSet, states[1], switches[0].result);
      RunTail(cat, member, states, switches);
      RemappingIsBounded(cat, member, states[1..], switches[1..]);
    }
  }
}
