/**
 * The migration that turns a group's position rules into one list per group, and its inverse
 * (backend/alembic/versions/7f9bd698851b_add_dynamic_group_rules.py:96-130, 176-205).
 */
module GroupRules {
  import opened Records
  import opened Sizes

  datatype Triple = Triple(tenant: Id, group: Id, position: Id)

  datatype PositionRule = PositionRule(rule: Triple, isDeleted: bool)

  datatype Dimension = Position | OtherDimension

  /** A rule's values are a JSON list of position ids, or NULL. */
  datatype GroupRule = GroupRule(tenant: Id, group: Id, dimension: Dimension, values: Option<seq<Id>>, isDeleted: bool)

  /** (tenant, group): the key the upgrade groups by. */
  type Key = (Id, Id)

  function KeyOf(t: Triple): Key { (t.tenant, t.group) }

  /** The rules in force before the upgrade. */
  function LiveTriples(rows: seq<PositionRule>): seq<Triple> {
    if rows == [] then []
    else
      var last := rows[|rows| - 1];
      LiveTriples(rows[..|rows| - 1]) + if last.isDeleted then [] else [last.rule]
  }

  function PositionsOf(rows: seq<PositionRule>, key: Key): seq<Id> {
    if rows == [] then []
    else
      var last := rows[|rows| - 1];
      PositionsOf(rows[..|rows| - 1], key)
      + if !last.isDeleted && KeyOf(last.rule) == key then [last.rule.position] else []
  }

  // ---- upgrade ----

  function PositionList(rows: seq<PositionRule>, key: Key): GroupRule {
    GroupRule(key.0, key.1, Position, Some(PositionsOf(rows, key)), false)
  }

  /** `order` lists, once each, the keys that have a live rule. */
  ghost predicate KeysInOrder(rows: seq<PositionRule>, order: seq<Key>) {
    Distinct(order) && forall key :: key in order <==> PositionsOf(rows, key) != []
  }

  /** rules_by_group: a list of positions for each key, in the order the keys were first met. */
  method GroupByKey(rows: seq<PositionRule>) returns (lists: map<Key, seq<Id>>, order: seq<Key>)
    ensures KeysInOrder(rows, order) && Elements(order) == lists.Keys
    ensures forall key :: key in lists ==> lists[key] == PositionsOf(rows, key)
  {
    lists, order := map[], [];
    var i := 0;
    while i < |rows|
      invariant i <= |rows| && Grouped(lists, order) == GroupsOf(rows[..i])
    {
      assert rows[..i + 1][..i] == rows[..i];
      if !rows[i].isDeleted {
        var key := KeyOf(rows[i].rule);
        order := if key in lists then order else order + [key];
        lists := lists[key := (if key in lists then lists[key] else []) + [rows[i].rule.position]];
      }
      i := i + 1;
    }
    assert rows[..i] == rows;
    GroupsGathered(rows);
  }

  datatype Grouped = Grouped(lists: map<Key, seq<Id>>, order: seq<Key>)

  ghost function AddRule(g: Grouped, key: Key, position: Id): Grouped {
    Grouped(g.lists[key := (if key in g.lists then g.lists[key] else []) + [position]],
            if key in g.lists then g.order else g.order + [key])
  }

  /** The dictionary after the loop has met `rows`. */
  ghost function GroupsOf(rows: seq<PositionRule>): Grouped {
    if rows == [] then Grouped(map[], [])
    else
      var before, last := GroupsOf(rows[..|rows| - 1]), rows[|rows| - 1];
      if last.isDeleted then before else AddRule(before, KeyOf(last.rule), last.rule.position)
  }

  lemma {:induction false} GroupLists(rows: seq<PositionRule>, key: Key)
    ensures key in GroupsOf(rows).lists <==> PositionsOf(rows, key) != []
    ensures key in GroupsOf(rows).lists ==> GroupsOf(rows).lists[key] == PositionsOf(rows, key)
  {
    if rows != [] {
      GroupLists(rows[..|rows| - 1], key);
    }
  }

  lemma {:induction false} GroupOrder(rows: seq<PositionRule>)
    ensures Distinct(GroupsOf(rows).order) && Elements(GroupsOf(rows).order) == GroupsOf(rows).lists.Keys
  {
    if rows != [] {
      var before, last := GroupsOf(rows[..|rows| - 1]), rows[|rows| - 1];
      GroupOrder(rows[..|rows| - 1]);
      AppendKey(before.order, KeyOf(last.rule));
    }
  }

  lemma AppendKey(order: seq<Key>, key: Key)
    requires Distinct(order)
    ensures Elements(order + [key]) == Elements(order) + {key}
    ensures key !in Elements(order) ==> Distinct(order + [key])
    ensures key in Elements(order) ==> Elements(order) == Elements(order) + {key}
  {
    assert forall i :: 0 <= i < |order| ==> order[i] in Elements(order);
  }

  lemma GroupsGathered(rows: seq<PositionRule>)
    ensures KeysInOrder(rows, GroupsOf(rows).order)
    ensures Elements(GroupsOf(rows).order) == GroupsOf(rows).lists.Keys
    ensures forall key :: key in GroupsOf(rows).lists ==> GroupsOf(rows).lists[key] == PositionsOf(rows, key)
  {
    GroupOrder(rows);
    forall key
      ensures key in GroupsOf(rows).order <==> PositionsOf(rows, key) != []
      ensures key in GroupsOf(rows).lists ==> GroupsOf(rows).lists[key] == PositionsOf(rows, key)
    {
      GroupLists(rows, key);
      assert key in GroupsOf(rows).order <==> key in Elements(GroupsOf(rows).order);
    }
  }

  function RulesFor(rows: seq<PositionRule>, order: seq<Key>): seq<GroupRule> {
    if order == [] then []
    else RulesFor(rows, order[..|order| - 1]) + [PositionList(rows, order[|order| - 1])]
  }

  ghost predicate OneKeyPerGroup(order: seq<Key>) {
    forall i, j :: 0 <= i < j < |order| ==> order[i].1 != order[j].1
  }

  predicate Clashes(rules: seq<GroupRule>, group: Id) {
    exists r :: r in rules && r.group == group && r.dimension == Position
  }

  /**
   * The upgrade. It goes through exactly when no group has live rules of two tenants; then each group
   * has at most one rule, listing its live positions in row order, and the rules unfold to exactly the
   * live triples.
   */
  method Upgrade(rows: seq<PositionRule>) returns (rules: Option<seq<GroupRule>>)
    ensures rules.Some? <==> OneTenantPerGroup(LiveTriples(rows))
    ensures rules.Some? ==>
              && (forall i, j :: 0 <= i < j < |rules.value| ==> rules.value[i].group != rules.value[j].group)
              && (forall r :: r in rules.value ==> r == PositionList(rows, (r.tenant, r.group)))
              && multiset(Flatten(rules.value)) == multiset(LiveTriples(rows))
              && forall t :: (exists r :: r in rules.value && Lists(r, t)) <==> PositionRule(t, false) in rows
  {
    var order;
    rules, order := InsertRules(rows);
    UpgradeFitsIff(rows, order);
    UpThenDownRestores(rows, order);
    RulesAt(rows, order);
    if rules.Some? {
      forall t
        ensures (exists r :: r in rules.value && Lists(r, t)) <==> PositionRule(t, false) in rows
      {
        FlattenLists(rules.value, t);
        LiveIsListed(rows, t);
        assert t in multiset(Flatten(rules.value)) <==> t in multiset(LiveTriples(rows));
      }
    }
  }

  lemma {:induction false} RulesAt(rows: seq<PositionRule>, order: seq<Key>)
    ensures |RulesFor(rows, order)| == |order|
    ensures forall i :: 0 <= i < |order| ==> RulesFor(rows, order)[i] == PositionList(rows, order[i])
  {
    if order != [] {
      RulesAt(rows, order[..|order| - 1]);
    }
  }

  /** One insert for each key; a second rule for the same group and dimension breaks the unique constraint. */
  method InsertRules(rows: seq<PositionRule>) returns (rules: Option<seq<GroupRule>>, order: seq<Key>)
    ensures KeysInOrder(rows, order)
    ensures rules == if OneKeyPerGroup(order) then Some(RulesFor(rows, order)) else None
  {
    var lists;
    var keys;
    lists, keys := GroupByKey(rows);
    order := keys;
    var inserted: seq<GroupRule> := [];
    var i := 0;
    while i < |keys|
      invariant i <= |keys| && inserted == RulesFor(rows, keys[..i]) && OneKeyPerGroup(keys[..i])
    {
      assert keys[i] in Elements(keys);
      InsertStep(rows, keys, i);
      if Clashes(inserted, keys[i].1) {
        return None, order;
      }
      inserted := inserted + [GroupRule(keys[i].0, keys[i].1, Position, Some(lists[keys[i]]), false)];
      i := i + 1;
    }
    assert keys[..i] == keys;
    return Some(inserted), order;
  }

  lemma InsertStep(rows: seq<PositionRule>, keys: seq<Key>, i: nat)
    requires i < |keys| && OneKeyPerGroup(keys[..i])
    ensures RulesFor(rows, keys[..i + 1]) == RulesFor(rows, keys[..i]) + [PositionList(rows, keys[i])]
    ensures !Clashes(RulesFor(rows, keys[..i]), keys[i].1) ==> OneKeyPerGroup(keys[..i + 1])
    ensures Clashes(RulesFor(rows, keys[..i]), keys[i].1) ==> !OneKeyPerGroup(keys)
  {
    assert keys[..i + 1][..i] == keys[..i];
    ClashMeansGroupMet(rows, keys[..i], keys[i].1);
    assert forall j :: 0 <= j < i ==> keys[..i][j] == keys[j];
  }

  lemma {:induction false} ClashMeansGroupMet(rows: seq<PositionRule>, order: seq<Key>, group: Id)
    ensures Clashes(RulesFor(rows, order), group) <==> exists i :: 0 <= i < |order| && order[i].1 == group
  {
    if order != [] {
      var init, last := order[..|order| - 1], order[|order| - 1];
      ClashMeansGroupMet(rows, init, group);
      var rules := RulesFor(rows, init);
      assert forall r :: r in RulesFor(rows, order) <==> r in rules || r == PositionList(rows, last);
      if exists i :: 0 <= i < |init| && init[i].1 == group {
        var i :| 0 <= i < |init| && init[i].1 == group;
        assert order[i].1 == group;
      }
      if exists i :: 0 <= i < |order| && order[i].1 == group {
        var i :| 0 <= i < |order| && order[i].1 == group;
        assert i < |init| ==> init[i].1 == group;
        assert i == |init| ==> PositionList(rows, last).group == group;
      }
    }
  }

  // ---- downgrade ----

  function TriplesFor(key: Key, positions: seq<Id>): seq<Triple> {
    if positions == [] then []
    else TriplesFor(key, positions[..|positions| - 1]) + [Triple(key.0, key.1, positions[|positions| - 1])]
  }

  /** What a rule unfolds to: nothing unless it is a live position rule with a list. */
  function Unfold(r: GroupRule): seq<Triple> {
    if r.dimension == Position && !r.isDeleted && r.values.Some?
    then TriplesFor((r.tenant, r.group), r.values.value)
    else []
  }

  function Flatten(rules: seq<GroupRule>): seq<Triple> {
    if rules == [] then [] else Flatten(rules[..|rules| - 1]) + Unfold(rules[|rules| - 1])
  }

  predicate SamePair(a: Triple, b: Triple) { a.group == b.group && a.position == b.position }

  /** The unique constraint on (group, position) of the restored table. */
  ghost predicate UniquePairs(ts: seq<Triple>) {
    forall i, j :: 0 <= i < j < |ts| ==> !SamePair(ts[i], ts[j])
  }

  /** The downgrade: one insert per listed position, failing on a repeated (group, position). */
  method Downgrade(rules: seq<GroupRule>) returns (rows: Option<seq<Triple>>)
    ensures rows == if UniquePairs(Flatten(rules)) then Some(Flatten(rules)) else None
    ensures rows.Some? ==> forall t :: t in rows.value <==> exists r :: r in rules && Lists(r, t)
  {
    var inserted: seq<Triple> := [];
    var i := 0;
    while i < |rules|
      invariant i <= |rules| && inserted == Flatten(rules[..i]) && UniquePairs(inserted)
    {
      assert rules[..i + 1][..i] == rules[..i];
      var r := rules[i];
      var ok, more := InsertPositions(inserted, r);
      if !ok {
        FlattenPrefix(rules, i + 1);
        return None;
      }
      inserted := more;
      i := i + 1;
    }
    assert rules[..i] == rules;
    forall t
      ensures t in inserted <==> exists r :: r in rules && Lists(r, t)
    {
      FlattenLists(rules, t);
    }
    return Some(inserted);
  }

  /** A live position rule of the triple's tenant and group lists its position. */
  predicate Lists(r: GroupRule, t: Triple) {
    && r.dimension == Position && !r.isDeleted && r.tenant == t.tenant && r.group == t.group
    && r.values.Some? && t.position in r.values.value
  }

  lemma {:induction false} TriplesListed(key: Key, positions: seq<Id>, t: Triple)
    ensures t in TriplesFor(key, positions) <==> KeyOf(t) == key && t.position in positions
  {
    if positions != [] {
      var init, last := positions[..|positions| - 1], positions[|positions| - 1];
      assert positions == init + [last];
      TriplesListed(key, init, t);
    }
  }

  /** A triple comes back exactly when some live position rule lists it. */
  lemma {:induction false} FlattenLists(rules: seq<GroupRule>, t: Triple)
    ensures t in Flatten(rules) <==> exists r :: r in rules && Lists(r, t)
  {
    if rules != [] {
      var init, last := rules[..|rules| - 1], rules[|rules| - 1];
      assert rules == init + [last];
      FlattenLists(init, t);
      if last.values.Some? {
        TriplesListed((last.tenant, last.group), last.values.value, t);
      }
      assert t in Unfold(last) <==> Lists(last, t);
    }
  }

  lemma {:induction false} LiveIsListed(rows: seq<PositionRule>, t: Triple)
    ensures t in LiveTriples(rows) <==> PositionRule(t, false) in rows
  {
    if rows != [] {
      var init, last := rows[..|rows| - 1], rows[|rows| - 1];
      assert rows == init + [last];
      LiveIsListed(init, t);
    }
  }

  method InsertPositions(before: seq<Triple>, r: GroupRule) returns (ok: bool, after: seq<Triple>)
    requires UniquePairs(before)
    ensures ok <==> UniquePairs(before + Unfold(r))
    ensures ok ==> after == before + Unfold(r)
  {
    ok, after := true, before;
    var positions := if r.dimension == Position && !r.isDeleted && r.values.Some? then r.values.value else [];
    var key := (r.tenant, r.group);
    assert Unfold(r) == TriplesFor(key, positions);
    assert before + TriplesFor(key, positions[..0]) == before;
    var i := 0;
    while i < |positions|
      invariant i <= |positions| && after == before + TriplesFor(key, positions[..i]) && UniquePairs(after)
    {
      assert positions[..i + 1][..i] == positions[..i];
      var t := Triple(r.tenant, r.group, positions[i]);
      assert before + TriplesFor(key, positions[..i + 1]) == after + [t];
      if exists s :: s in after && SamePair(s, t) {
        RepeatedPair(after, t);
        TriplesPrefix(key, positions, i + 1);
        PrefixUnique(before + TriplesFor(key, positions[..i + 1]), before + Unfold(r));
        ok := false;
        return;
      }
      after := after + [t];
      i := i + 1;
    }
    assert positions[..i] == positions;
  }

  lemma RepeatedPair(ts: seq<Triple>, t: Triple)
    requires exists s :: s in ts && SamePair(s, t)
    ensures !UniquePairs(ts + [t])
  {
    var s :| s in ts && SamePair(s, t);
    var i :| 0 <= i < |ts| && ts[i] == s;
    assert (ts + [t])[i] == s && (ts + [t])[|ts|] == t;
  }

  lemma PrefixUnique(a: seq<Triple>, b: seq<Triple>)
    requires a <= b
    ensures UniquePairs(b) ==> UniquePairs(a)
  {
    assert forall i :: 0 <= i < |a| ==> a[i] == b[i];
  }

  lemma {:induction false} TriplesPrefix(key: Key, positions: seq<Id>, i: nat)
    requires i <= |positions|
    ensures TriplesFor(key, positions[..i]) <= TriplesFor(key, positions)
    decreases |positions|
  {
    if i == |positions| {
      assert positions[..i] == positions;
    } else {
      var init := positions[..|positions| - 1];
      TriplesPrefix(key, init, i);
      assert init[..i] == positions[..i];
    }
  }

  lemma {:induction false} FlattenPrefix(rules: seq<GroupRule>, i: nat)
    requires i <= |rules|
    ensures Flatten(rules[..i]) <= Flatten(rules)
    ensures UniquePairs(Flatten(rules)) ==> UniquePairs(Flatten(rules[..i]))
    decreases |rules|
  {
    if i == |rules| {
      assert rules[..i] == rules;
    } else {
      var init := rules[..|rules| - 1];
      FlattenPrefix(init, i);
      assert init[..i] == rules[..i];
    }
    PrefixUnique(Flatten(rules[..i]), Flatten(rules));
  }

  // ---- round trip ----

  lemma {:induction false} LiveCount(rows: seq<PositionRule>, t: Triple)
    ensures multiset(LiveTriples(rows))[t] == multiset(PositionsOf(rows, KeyOf(t)))[t.position]
  {
    if rows != [] {
      LiveCount(rows[..|rows| - 1], t);
    }
  }

  lemma {:induction false} UnfoldedCount(key: Key, positions: seq<Id>, t: Triple)
    ensures multiset(TriplesFor(key, positions))[t] == if KeyOf(t) == key then multiset(positions)[t.position] else 0
  {
    if positions != [] {
      var init, last := positions[..|positions| - 1], positions[|positions| - 1];
      UnfoldedCount(key, init, t);
      assert positions == init + [last];
    }
  }

  lemma {:induction false} FlatCount(rows: seq<PositionRule>, order: seq<Key>, t: Triple)
    requires Distinct(order)
    ensures multiset(Flatten(RulesFor(rows, order)))[t] ==
            if KeyOf(t) in order then multiset(PositionsOf(rows, KeyOf(t)))[t.position] else 0
  {
    if order != [] {
      var init, last := order[..|order| - 1], order[|order| - 1];
      assert order == init + [last];
      FlatCount(rows, init, t);
      UnfoldedCount(last, PositionsOf(rows, last), t);
      var rules := RulesFor(rows, order);
      assert rules[..|rules| - 1] == RulesFor(rows, init);
    }
  }

  /** Grouping and flattening loses and duplicates nothing: exactly the live triples come back. */
  lemma UpThenDownRestores(rows: seq<PositionRule>, order: seq<Key>)
    requires KeysInOrder(rows, order)
    ensures multiset(Flatten(RulesFor(rows, order))) == multiset(LiveTriples(rows))
  {
    forall t
      ensures multiset(Flatten(RulesFor(rows, order)))[t] == multiset(LiveTriples(rows))[t]
    {
      FlatCount(rows, order, t);
      LiveCount(rows, t);
    }
  }

  /** The old table's constraint holds for what comes back, so the downgrade's inserts all go through. */
  lemma RestoredPairsAreUnique(rows: seq<PositionRule>, order: seq<Key>)
    requires KeysInOrder(rows, order) && UniquePairs(LiveTriples(rows))
    ensures UniquePairs(Flatten(RulesFor(rows, order)))
  {
    UpThenDownRestores(rows, order);
    PermutedPairs(LiveTriples(rows), Flatten(RulesFor(rows, order)));
  }

  lemma PermutedPairs(a: seq<Triple>, b: seq<Triple>)
    requires multiset(a) == multiset(b) && UniquePairs(a)
    ensures UniquePairs(b)
  {
    forall i, j | 0 <= i < j < |b|
      ensures !SamePair(b[i], b[j])
    {
      assert b[i] in multiset(b) && b[j] in multiset(b);
      assert b[i] in a && b[j] in a;
      if b[i] == b[j] {
        TwiceInB(b, i, j);
        OnceInA(a, b[i]);
      } else {
        var x, y :| 0 <= x < |a| && a[x] == b[i] && 0 <= y < |a| && a[y] == b[j];
        assert x < y ==> !SamePair(a[x], a[y]);
        assert y < x ==> !SamePair(a[y], a[x]);
      }
    }
  }

  lemma TwiceInB(b: seq<Triple>, i: nat, j: nat)
    requires i < j < |b| && b[i] == b[j]
    ensures multiset(b)[b[i]] >= 2
  {
    assert b == b[..i] + [b[i]] + b[i + 1..j] + [b[j]] + b[j + 1..];
  }

  lemma {:induction false} OnceInA(a: seq<Triple>, t: Triple)
    requires UniquePairs(a)
    ensures multiset(a)[t] <= 1
  {
    if a != [] {
      var init, last := a[..|a| - 1], a[|a| - 1];
      assert a == init + [last];
      OnceInA(init, t);
      LastIsNew(a);
    }
  }

  lemma LastIsNew(a: seq<Triple>)
    requires UniquePairs(a) && a != []
    ensures a[|a| - 1] !in a[..|a| - 1]
  {
    forall i | 0 <= i < |a| - 1
      ensures a[i] != a[|a| - 1]
    {
      assert !SamePair(a[i], a[|a| - 1]);
    }
  }

  // ---- when the upgrade goes through ----

  ghost predicate OneTenantPerGroup(ts: seq<Triple>) {
    forall a, b :: a in ts && b in ts && a.group == b.group ==> a.tenant == b.tenant
  }

  lemma {:induction false} KeyHasTriple(rows: seq<PositionRule>, key: Key)
    ensures PositionsOf(rows, key) != [] <==> exists t :: t in LiveTriples(rows) && KeyOf(t) == key
  {
    if rows != [] {
      var init, last := rows[..|rows| - 1], rows[|rows| - 1];
      KeyHasTriple(init, key);
      assert forall t :: t in LiveTriples(rows) <==> t in LiveTriples(init) || (!last.isDeleted && t == last.rule);
    }
  }

  lemma SameGroupSameKey(order: seq<Key>, p: Key, q: Key)
    requires OneKeyPerGroup(order) && p in order && q in order && p.1 == q.1
    ensures p == q
  {
    var i, j :| 0 <= i < |order| && order[i] == p && 0 <= j < |order| && order[j] == q;
  }

  /** At most one rule per group and dimension comes out, exactly when no group has live rules of two tenants. */
  lemma UpgradeFitsIff(rows: seq<PositionRule>, order: seq<Key>)
    requires KeysInOrder(rows, order)
    ensures OneKeyPerGroup(order) <==> OneTenantPerGroup(LiveTriples(rows))
  {
    forall key {
      KeyHasTriple(rows, key);
    }
    if OneKeyPerGroup(order) {
      forall a, b | a in LiveTriples(rows) && b in LiveTriples(rows) && a.group == b.group
        ensures a.tenant == b.tenant
      {
        assert KeyOf(a) in order && KeyOf(b) in order;
        SameGroupSameKey(order, KeyOf(a), KeyOf(b));
      }
    }
    if OneTenantPerGroup(LiveTriples(rows)) {
      forall i, j | 0 <= i < j < |order|
        ensures order[i].1 != order[j].1
      {
        assert order[i] in order && order[j] in order;
        var a :| a in LiveTriples(rows) && KeyOf(a) == order[i];
        var b :| b in LiveTriples(rows) && KeyOf(b) == order[j];
      }
    }
  }
}
