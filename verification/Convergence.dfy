/** Switching back and forth between two versions: when the third switch copies nothing. */
module Convergence {
  import opened Records
  import opened Election

  ghost predicate Elects(l: Ledger, member: Id, rank: Id, setId: Id) {
    (member, rank) in l.progress && l.progress[(member, rank)].electedSet == setId
  }

  /** A -> B -> A -> B for one member and rank, starting with A elected. */
  ghost predicate ThreeSwitches(cat: Catalog, member: Id, rank: Id, a: Id, b: Id, ls: seq<Ledger>,
                                rs: seq<RemapResult>)
  {
    && |ls| == 4 && |rs| == 3
    && Elects(ls[0], member, rank, a)
    && SwitchStep(cat, ls[0], member, rank, b, ls[1], rs[0])
    && SwitchStep(cat, ls[1], member, rank, a, ls[2], rs[1])
    && SwitchStep(cat, ls[2], member, rank, b, ls[3], rs[2])
  }

  /** No key that `a` uses is carried by two requirements of `b`. */
  ghost predicate SharedKeysUnique(a: seq<Requirement>, b: seq<Requirement>) {
    forall r, i, j :: r in a && r.Keyed() && 0 <= i < j < |b| ==>
        b[i].stableKey != r.stableKey || b[j].stableKey != r.stableKey
  }

  ghost predicate SeparateSets(cat: Catalog, a: Id, b: Id) {
    a != b && DistinctIds(cat.Live(a)) && DistinctIds(cat.Live(b)) && Ids(cat.Live(a)) !! Ids(cat.Live(b))
  }

  lemma ElectedAfter(cat: Catalog, before: Ledger, member: Id, rank: Id, newSet: Id, after: Ledger, result: RemapResult)
    requires SwitchStep(cat, before, member, rank, newSet, after, result)
    ensures Elects(after, member, rank, newSet)
    ensures before.completions <= after.completions
  {
  }

  /** The source behind a copy made by a switch. */
  lemma SourceOf(cat: Catalog, before: Ledger, member: Id, rank: Id, newSet: Id, after: Ledger, result: RemapResult,
                 copy: Completion)
    returns (source: Completion)
    requires SwitchStep(cat, before, member, rank, newSet, after, result)
    requires before.completions <= after.completions && copy in Added(before, after)
    requires newSet != before.progress[(member, rank)].electedSet
    ensures var was := cat.Live(before.progress[(member, rank)].electedSet);
            && source in ActiveOn(before.completions, member, Ids(was))
            && TargetOf(was, cat.Live(newSet), source).Some?
            && TargetOf(was, cat.Live(newSet), source).value.id == copy.requirement
  {
    var was, next := cat.Live(before.progress[(member, rank)].electedSet), cat.Live(newSet);
    var sources := ActiveOn(before.completions, member, Ids(was));
    var k :| 0 <= k < |Added(before, after)| && Added(before, after)[k] == copy;
    var i: nat :| FirstOnto(sources, was, next, i, copy.requirement) && copy == CopyOnto(sources[i], copy.requirement);
    source := sources[i];
  }

  /** A row copied from B back onto A names, when read again from A, the very requirement it came from. */
  lemma ThereAndBack(a: seq<Requirement>, b: seq<Requirement>, fromB: Completion, onA: Completion)
    requires DistinctIds(a) && SharedKeysUnique(a, b)
    requires fromB.requirement in Ids(b) && onA.requirement in Ids(a)
    requires TargetOf(b, a, fromB).Some? && TargetOf(b, a, fromB).value.id == onA.requirement
    requires TargetOf(a, b, onA).Some?
    ensures TargetOf(a, b, onA).value.id == fromB.requirement
  {
    var rb, ra := ById(b, fromB.requirement), ById(a, onA.requirement);
    var back := TargetOf(b, a, fromB).value;
    assert back == ra by {
      var i :| 0 <= i < |a| && a[i] == back;
      var j :| 0 <= j < |a| && a[j] == ra;
    }
    var t := TargetOf(a, b, onA).value;
    assert t == rb by {
      var i :| 0 <= i < |b| && b[i] == t;
      var j :| 0 <= j < |b| && b[j] == rb;
    }
  }

  /** Every active completion on A after two switches already has a row on its counterpart in B. */
  lemma SecondTimeFindsARow(cat: Catalog, member: Id, rank: Id, a: Id, b: Id, ls: seq<Ledger>, rs: seq<RemapResult>,
                            s: Completion)
    requires SeparateSets(cat, a, b) && SharedKeysUnique(cat.Live(a), cat.Live(b))
    requires ThreeSwitches(cat, member, rank, a, b, ls, rs)
    requires s in ActiveOn(ls[2].completions, member, Ids(cat.Live(a)))
    requires TargetOf(cat.Live(a), cat.Live(b), s).Some?
    ensures TargetOf(cat.Live(a), cat.Live(b), s).value.id in RowIds(ls[2].completions, member)
  {
    ElectedAfter(cat, ls[0], member, rank, b, ls[1], rs[0]);
    ElectedAfter(cat, ls[1], member, rank, a, ls[2], rs[1]);
    CopiesLandOnFreeKeyedRequirements(cat, ls[0], member, rank, b, ls[1], rs[0]);
    CopiesLandOnFreeKeyedRequirements(cat, ls[1], member, rank, a, ls[2], rs[1]);
    AppendedRows(ls[0].completions, Added(ls[0], ls[1]), member);
    AppendedRows(ls[1].completions, Added(ls[1], ls[2]), member);
    assert forall c :: c in Added(ls[0], ls[1]) ==> c.requirement in Ids(cat.Live(b));
    if s in ls[0].completions {
      MatchedKeysHaveRows(cat, ls[0], member, rank, b, ls[1], rs[0], s);
    } else {
      assert s in Added(ls[1], ls[2]);
      var fromB := SourceOf(cat, ls[1], member, rank, a, ls[2], rs[1], s);
      ThereAndBack(cat.Live(a), cat.Live(b), fromB, s);
      assert fromB in ls[1].completions;
    }
  }

  lemma ThirdSwitchCopiesNothing(cat: Catalog, member: Id, rank: Id, a: Id, b: Id, ls: seq<Ledger>,
                                 rs: seq<RemapResult>)
    requires SeparateSets(cat, a, b) && SharedKeysUnique(cat.Live(a), cat.Live(b))
    requires ThreeSwitches(cat, member, rank, a, b, ls, rs)
    ensures rs[2].remapped == 0 && ls[3].completions == ls[2].completions
  {
    ElectedAfter(cat, ls[0], member, rank, b, ls[1], rs[0]);
    ElectedAfter(cat, ls[1], member, rank, a, ls[2], rs[1]);
    ElectedAfter(cat, ls[2], member, rank, b, ls[3], rs[2]);
    if Added(ls[2], ls[3]) != [] {
      var copy := Added(ls[2], ls[3])[0];
      CopiesLandOnFreeKeyedRequirements(cat, ls[2], member, rank, b, ls[3], rs[2]);
      var s := SourceOf(cat, ls[2], member, rank, b, ls[3], rs[2], copy);
      SecondTimeFindsARow(cat, member, rank, a, b, ls, rs, s);
      assert false;
    }
  }

  // ---- with a repeated key the third switch can still copy ----

  function RowOn(member: Id, requirement: Id): Completion {
    Completion(member, requirement, FIRST_DATE, Approved, None, None, None, Manual, None, false)
  }

  /** A member whose only row is `c`, with a version elected. */
  function OneRow(c: Completion, member: Id, rank: Id, setId: Id): Ledger {
    Ledger([c], map[(member, rank) := Progress(setId, None)])
  }

  lemma OneCopyRemaps(c: Completion, was: seq<Requirement>, next: seq<Requirement>, taken: set<Id>, t: Id)
    requires c.requirement in Ids(was)
    requires TargetOf(was, next, c).Some? && TargetOf(was, next, c).value.id == t && t !in taken
    ensures Remaps([c], was, next, taken, [CopyOnto(c, t)], RemapResult(1, 0, []))
  {
    var copy := CopyOnto(c, t);
    assert FirstOnto([c], was, next, 0, t);
    assert [copy][0].requirement == t;
    assert [c][..|[c]| - 1] == [];
    assert Unmatched([c], was, next) == [];
  }

  /** A switch with exactly one active completion, landing on a requirement without a row. */
  lemma SingleRemap(cat: Catalog, before: Ledger, member: Id, rank: Id, newSet: Id, c: Completion, t: Id)
    returns (after: Ledger)
    requires (member, rank) in before.progress && newSet != before.progress[(member, rank)].electedSet
    requires var was := cat.Live(before.progress[(member, rank)].electedSet);
             && ActiveOn(before.completions, member, Ids(was)) == [c]
             && c.requirement in Ids(was)
             && TargetOf(was, cat.Live(newSet), c).Some?
             && TargetOf(was, cat.Live(newSet), c).value.id == t
    requires t !in RowIds(before.completions, member)
    ensures after.completions == before.completions + [CopyOnto(c, t)]
    ensures Elects(after, member, rank, newSet)
    ensures SwitchStep(cat, before, member, rank, newSet, after, RemapResult(1, 0, []))
  {
    var p := before.progress[(member, rank)];
    var copy := CopyOnto(c, t);
    OneCopyRemaps(c, cat.Live(p.electedSet), cat.Live(newSet), RowIds(before.completions, member), t);
    after := Ledger(before.completions + [copy], before.progress[(member, rank) := p.(electedSet := newSet)]);
    assert after.completions[|before.completions|..] == [copy];
  }

  lemma NothingToRemap(cat: Catalog, before: Ledger, member: Id, rank: Id, newSet: Id)
    returns (after: Ledger)
    requires (member, rank) in before.progress && newSet != before.progress[(member, rank)].electedSet
    requires ActiveOn(before.completions, member, Ids(cat.Live(before.progress[(member, rank)].electedSet))) == []
    ensures after.completions == before.completions && Elects(after, member, rank, newSet)
    ensures after.progress == before.progress[(member, rank) := before.progress[(member, rank)].(electedSet := newSet)]
    ensures SwitchStep(cat, before, member, rank, newSet, after, RemapResult(0, 0, []))
  {
    var moved := before.progress[(member, rank)].(electedSet := newSet);
    after := before.(progress := before.progress[(member, rank) := moved]);
    assert after.completions[|before.completions|..] == [];
  }

  /** A switch whose only active completion has no counterpart: its label is reported, nothing is copied. */
  lemma OnlyUnmatched(cat: Catalog, member: Id, rank: Id, was: Id, next: Id, c: Completion)
    requires was != next && ActiveOn([c], member, Ids(cat.Live(was))) == [c] && c.requirement in Ids(cat.Live(was))
    requires TargetOf(cat.Live(was), cat.Live(next), c).None?
    ensures SwitchStep(cat, OneRow(c, member, rank, was), member, rank, next, OneRow(c, member, rank, next),
                       RemapResult(0, 0, [ById(cat.Live(was), c.requirement).Label()]))
  {
    assert [c][..|[c]| - 1] == [] && [c][|[c]|..] == [];
    assert OneRow(c, member, rank, was).progress[(member, rank) := Progress(next, None)] ==
           OneRow(c, member, rank, next).progress;
    assert Unmatched([], cat.Live(was), cat.Live(next)) == [];
    assert forall t :: !Lands([c], cat.Live(was), cat.Live(next), t);
  }

  lemma NothingActive(cat: Catalog, member: Id, rank: Id, was: Id, next: Id, c: Completion)
    requires was != next && ActiveOn([c], member, Ids(cat.Live(was))) == []
    ensures SwitchStep(cat, OneRow(c, member, rank, was), member, rank, next, OneRow(c, member, rank, next),
                       RemapResult(0, 0, []))
  {
    var after := NothingToRemap(cat, OneRow(c, member, rank, was), member, rank, next);
    assert after.progress == OneRow(c, member, rank, next).progress;
  }

  lemma ActiveOnOne(c: Completion, member: Id, ids: set<Id>)
    ensures ActiveOn([c], member, ids) == if c.member == member && c.requirement in ids && !c.isDeleted then [c] else []
  {
    assert [c][..|[c]| - 1] == [];
  }

  lemma ActiveOnTwo(c: Completion, d: Completion, member: Id, ids: set<Id>)
    ensures ActiveOn([c, d], member, ids) ==
            ActiveOn([c], member, ids) +
            (if d.member == member && d.requirement in ids && !d.isDeleted then [d] else [])
  {
    assert [c, d][..|[c, d]| - 1] == [c];
  }

  lemma OnlyOneById(reqs: seq<Requirement>, r: Requirement)
    requires DistinctIds(reqs) && r in reqs
    ensures ById(reqs, r.id) == r
  {
    var i :| 0 <= i < |reqs| && reqs[i] == r;
    var j :| 0 <= j < |reqs| && reqs[j] == ById(reqs, r.id);
  }

  /** Two requirements of `b` share a key of `a`: a row on the one the key does not lead to comes back on the other. */
  lemma RepeatedKey(a: seq<Requirement>, b: seq<Requirement>, member: Id)
    returns (c: Completion, d: Completion, last: Id)
    requires DistinctIds(a) && DistinctIds(b) && !SharedKeysUnique(a, b)
    ensures c.member == d.member == member && !c.isDeleted && !d.isDeleted
    ensures c.requirement in Ids(b) && d.requirement in Ids(a) && last in Ids(b) && last != c.requirement
    ensures d == CopyOnto(c, d.requirement)
    ensures TargetOf(b, a, c).Some? && TargetOf(b, a, c).value.id == d.requirement
    ensures TargetOf(a, b, d).Some? && TargetOf(a, b, d).value.id == last
  {
    var ra, i, j :| ra in a && ra.Keyed() && 0 <= i < j < |b| && b[i].stableKey == ra.stableKey
        && b[j].stableKey == ra.stableKey;
    var key := ra.stableKey.value;
    last := Counterpart(b, key).value.id;
    var other := if b[i].id != last then b[i] else b[j];
    var onA := Counterpart(a, key).value;
    OnlyOneById(b, other);
    OnlyOneById(a, onA);
    c := RowOn(member, other.id);
    d := CopyOnto(c, onA.id);
  }

  lemma RowsOfWitness(cat: Catalog, member: Id, a: Id, b: Id, c: Completion, d: Completion, last: Id)
    requires SeparateSets(cat, a, b)
    requires c.member == d.member == member && !c.isDeleted && !d.isDeleted
    requires c.requirement in Ids(cat.Live(b)) && d.requirement in Ids(cat.Live(a))
    requires last in Ids(cat.Live(b)) && last != c.requirement
    ensures ActiveOn([c], member, Ids(cat.Live(a))) == [] && ActiveOn([c], member, Ids(cat.Live(b))) == [c]
    ensures ActiveOn([c] + [d], member, Ids(cat.Live(a))) == [d]
    ensures d.requirement !in RowIds([c], member) && last !in RowIds([c] + [d], member)
  {
    ActiveRowsOf(Ids(cat.Live(a)), Ids(cat.Live(b)), member, c, d);
  }

  lemma ActiveRowsOf(a: set<Id>, b: set<Id>, member: Id, c: Completion, d: Completion)
    requires a !! b && c.member == d.member == member && !c.isDeleted && !d.isDeleted
    requires c.requirement in b && d.requirement in a
    ensures ActiveOn([c], member, a) == [] && ActiveOn([c], member, b) == [c] && ActiveOn([c] + [d], member, a) == [d]
  {
    ActiveOnOne(c, member, a);
    ActiveOnOne(c, member, b);
    ActiveOnTwo(c, d, member, a);
    assert [c] + [d] == [c, d];
  }

  /** One active row on `b` and none on `a`: the switch to `b` copies nothing, the one back copies it. */
  lemma CopiedOnce(cat: Catalog, member: Id, rank: Id, a: Id, b: Id, c: Completion, onA: Id)
    returns (l0: Ledger, l1: Ledger, l2: Ledger)
    requires a != b
    requires ActiveOn([c], member, Ids(cat.Live(a))) == [] && ActiveOn([c], member, Ids(cat.Live(b))) == [c]
    requires c.requirement in Ids(cat.Live(b)) && onA !in RowIds([c], member)
    requires TargetOf(cat.Live(b), cat.Live(a), c).Some? && TargetOf(cat.Live(b), cat.Live(a), c).value.id == onA
    ensures l0 == OneRow(c, member, rank, a) && Elects(l2, member, rank, a)
    ensures SwitchStep(cat, l0, member, rank, b, l1, RemapResult(0, 0, []))
    ensures SwitchStep(cat, l1, member, rank, a, l2, RemapResult(1, 0, []))
    ensures l2.completions == [c] + [CopyOnto(c, onA)]
  {
    l0 := OneRow(c, member, rank, a);
    l1 := NothingToRemap(cat, l0, member, rank, b);
    l2 := SingleRemap(cat, l1, member, rank, a, c, onA);
  }

  lemma Chain(cat: Catalog, member: Id, rank: Id, a: Id, b: Id, l0: Ledger, l1: Ledger, l2: Ledger, l3: Ledger,
              r0: RemapResult, r1: RemapResult, r2: RemapResult) returns (ls: seq<Ledger>, rs: seq<RemapResult>)
    requires Elects(l0, member, rank, a)
    requires SwitchStep(cat, l0, member, rank, b, l1, r0)
    requires SwitchStep(cat, l1, member, rank, a, l2, r1)
    requires SwitchStep(cat, l2, member, rank, b, l3, r2)
    ensures ThreeSwitches(cat, member, rank, a, b, ls, rs) && rs[2] == r2 && ls[0] == l0
  {
    ls, rs := [l0, l1, l2, l3], [r0, r1, r2];
  }

  lemma RepeatedKeyCopiesAgain(cat: Catalog, member: Id, rank: Id, a: Id, b: Id)
    returns (ls: seq<Ledger>, rs: seq<RemapResult>, row: Completion)
    requires SeparateSets(cat, a, b) && !SharedKeysUnique(cat.Live(a), cat.Live(b))
    ensures ThreeSwitches(cat, member, rank, a, b, ls, rs) && rs[2].remapped == 1
    ensures ls[0] == OneRow(row, member, rank, a)
    ensures row.member == member && !row.isDeleted && row.requirement in Ids(cat.Live(b))
  {
    var c, d, last := RepeatedKey(cat.Live(a), cat.Live(b), member);
    RowsOfWitness(cat, member, a, b, c, d, last);
    var l0, l1, l2 := CopiedOnce(cat, member, rank, a, b, c, d.requirement);
    var l3 := SingleRemap(cat, l2, member, rank, b, d, last);
    row := c;
    ls, rs := Chain(cat, member, rank, a, b, l0, l1, l2, l3, RemapResult(0, 0, []), RemapResult(1, 0, []),
        RemapResult(1, 0, []));
  }

  /**
   * The third switch of A -> B -> A -> B copies nothing, whatever rows the member starts with,
   * exactly when no key of A is carried twice in B.
   */
  lemma ConvergesIffSharedKeysUnique(cat: Catalog, member: Id, rank: Id, a: Id, b: Id)
    requires SeparateSets(cat, a, b)
    ensures (forall ls: seq<Ledger>, rs: seq<RemapResult> :: ThreeSwitches(cat, member, rank, a, b, ls, rs) ==>
        rs[2].remapped == 0)
            <==> SharedKeysUnique(cat.Live(a), cat.Live(b))
  {
    if SharedKeysUnique(cat.Live(a), cat.Live(b)) {
      forall ls: seq<Ledger>, rs: seq<RemapResult> | ThreeSwitches(cat, member, rank, a, b, ls, rs)
        ensures rs[2].remapped == 0
      {
        ThirdSwitchCopiesNothing(cat, member, rank, a, b, ls, rs);
      }
    } else {
      var ls, rs, _ := RepeatedKeyCopiesAgain(cat, member, rank, a, b);
    }
  }
}
