/** The remapping loop as a fold, and the proof that the fold does what a switch declares. */
module Remapping {
  import opened Records
  import opened Election

  /**
   * Copies, counts and blocked targets after remapping `sources` in order, starting with the
   * `blocked` targets that already have a row.
   */
  function RemapAll(sources: seq<Completion>, was: seq<Requirement>, next: seq<Requirement>, blocked: set<Id>)
    : (seq<Completion>, RemapResult, set<Id>)
    requires AllOn(sources, was)
  {
    if sources == [] then ([], RemapResult(0, 0, []), blocked)
    else
      var init, c := sources[..|sources| - 1], sources[|sources| - 1];
      var (copies, r, existing) := RemapAll(init, was, next, blocked);
      var target := TargetOf(was, next, c);
      if target.None? then (copies, r.(unmatched := r.unmatched + [ById(was, c.requirement).Label()]), existing)
      else if target.value.id in existing then (copies, r.(skippedExisting := r.skippedExisting + 1), existing)
      else (copies + [CopyOnto(c, target.value.id)], r.(remapped := r.remapped + 1), existing + {target.value.id})
  }

  lemma HasTargetAppend(copies: seq<Completion>, copy: Completion)
    ensures forall t :: HasTarget(copies + [copy], t) <==> HasTarget(copies, t) || t == copy.requirement
  {
    assert (copies + [copy])[|copies|] == copy;
    assert forall k :: 0 <= k < |copies| ==> (copies + [copy])[k] == copies[k];
  }

  lemma PrefixFacts(sources: seq<Completion>, c: Completion, was: seq<Requirement>, next: seq<Requirement>)
    requires AllOn(sources, was) && c.requirement in Ids(was)
    ensures AllOn(sources + [c], was)
    ensures Unmatched(sources + [c], was, next) ==
            Unmatched(sources, was, next) +
            (if TargetOf(was, next, c).None? then [ById(was, c.requirement).Label()] else [])
    ensures forall i: nat, t :: FirstOnto(sources, was, next, i, t) ==> FirstOnto(sources + [c], was, next, i, t)
    ensures forall t :: Lands(sources + [c], was, next, t) <==>
              Lands(sources, was, next, t) || (TargetOf(was, next, c).Some? && TargetOf(was, next, c).value.id == t)
  {
    assert (sources + [c])[..|sources + [c]| - 1] == sources;
    forall t
      ensures Lands(sources + [c], was, next, t) <==>
              Lands(sources, was, next, t) || (TargetOf(was, next, c).Some? && TargetOf(was, next, c).value.id == t)
    {
      if i :| 0 <= i < |sources| && TargetOf(was, next, sources[i]).Some? &&
              TargetOf(was, next, sources[i]).value.id == t
      {
        assert (sources + [c])[i] == sources[i];
      }
      assert (sources + [c])[|sources|] == c;
    }
  }

  /** A completion that has no counterpart, or whose counterpart has a row, only moves a counter. */
  lemma RemapSkipsOrReports(sources: seq<Completion>, c: Completion, was: seq<Requirement>, next: seq<Requirement>,
                            taken: set<Id>, copies: seq<Completion>, r: RemapResult)
    requires Remaps(sources, was, next, taken, copies, r) && c.requirement in Ids(was)
    ensures var t := TargetOf(was, next, c);
            && (t.None? ==> Remaps(sources + [c], was, next, taken, copies,
                r.(unmatched := r.unmatched + [ById(was, c.requirement).Label()])))
            && (t.Some? && (t.value.id in taken || HasTarget(copies, t.value.id)) ==>
                 Remaps(sources + [c], was, next, taken, copies, r.(skippedExisting := r.skippedExisting + 1)))
  {
    PrefixFacts(sources, c, was, next);
    forall k | 0 <= k < |copies|
      ensures exists i: nat :: FirstOnto(sources + [c], was, next, i, copies[k].requirement)
                               && copies[k] == CopyOnto((sources + [c])[i], copies[k].requirement)
    {
      var i: nat :| FirstOnto(sources, was, next, i, copies[k].requirement)
          && copies[k] == CopyOnto(sources[i], copies[k].requirement);
      assert (sources + [c])[i] == sources[i];
    }
  }

  lemma LastLandsFirst(sources: seq<Completion>, c: Completion, was: seq<Requirement>, next: seq<Requirement>, t: Id)
    requires AllOn(sources, was) && AllOn(sources + [c], was) && c.requirement in Ids(was)
    requires TargetOf(was, next, c).Some? && TargetOf(was, next, c).value.id == t && !Lands(sources, was, next, t)
    ensures FirstOnto(sources + [c], was, next, |sources|, t)
  {
    forall j | 0 <= j < |sources|
      ensures TargetOf(was, next, (sources + [c])[j]).None? || TargetOf(was, next, (sources + [c])[j]).value.id != t
    {
      assert (sources + [c])[j] == sources[j];
    }
  }

  /** A completion whose counterpart has no row yet adds exactly one copy. */
  lemma RemapCopies(sources: seq<Completion>, c: Completion, was: seq<Requirement>, next: seq<Requirement>,
                    taken: set<Id>, copies: seq<Completion>, r: RemapResult, copy: Completion)
    requires Remaps(sources, was, next, taken, copies, r) && c.requirement in Ids(was)
    requires TargetOf(was, next, c).Some?
    requires var t := TargetOf(was, next, c).value.id; t !in taken && !HasTarget(copies, t) && copy == CopyOnto(c, t)
    ensures Remaps(sources + [c], was, next, taken, copies + [copy], r.(remapped := r.remapped + 1))
  {
    var t := TargetOf(was, next, c).value.id;
    PrefixFacts(sources, c, was, next);
    LastLandsFirst(sources, c, was, next, t);
    forall k | 0 <= k < |copies + [copy]|
      ensures exists i: nat :: FirstOnto(sources + [c], was, next, i, (copies + [copy])[k].requirement)
                               && (copies + [copy])[k] == CopyOnto((sources + [c])[i], (copies + [copy])[k].requirement)
    {
      if k < |copies| {
        var i: nat :| FirstOnto(sources, was, next, i, copies[k].requirement)
            && copies[k] == CopyOnto(sources[i], copies[k].requirement);
        assert (sources + [c])[i] == sources[i];
      } else {
        assert (sources + [c])[|sources|] == c;
      }
    }
    forall u | Lands(sources + [c], was, next, u)
      ensures u in taken || HasTarget(copies + [copy], u)
    {
      HasTargetAppend(copies, copy);
    }
  }

  /** The fold does what Remaps declares, with exactly the requirements that have rows left out. */
  lemma {:induction false} RemapAllRemaps(sources: seq<Completion>, was: seq<Requirement>, next: seq<Requirement>,
                                          taken: set<Id>, blocked: set<Id>)
    requires AllOn(sources, was) && blocked <= taken && taken * Ids(next) <= blocked
    ensures Remaps(sources, was, next, taken, RemapAll(sources, was, next, blocked).0,
        RemapAll(sources, was, next, blocked).1)
    ensures forall t :: t in Ids(next) ==>
              (t in RemapAll(sources, was, next, blocked).2 <==>
               t in taken || HasTarget(RemapAll(sources, was, next, blocked).0, t))
  {
    if sources != [] {
      var init, c := sources[..|sources| - 1], sources[|sources| - 1];
      RemapAllRemaps(init, was, next, taken, blocked);
      var (copies, r, existing) := RemapAll(init, was, next, blocked);
      assert sources == init + [c];
      RemapSkipsOrReports(init, c, was, next, taken, copies, r);
      var target := TargetOf(was, next, c);
      if target.Some? && target.value.id !in existing {
        RemapCopies(init, c, was, next, taken, copies, r, CopyOnto(c, target.value.id));
        HasTargetAppend(copies, CopyOnto(c, target.value.id));
      }
    }
  }
}
