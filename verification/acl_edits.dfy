// What an edit of bindings or rules leaves behind, independent of how it is done.

module AclEdits {
  import opened Common
  import opened AclLists
  import opened AclTables

  ghost predicate HasPair(bindings: BindingTable, pair: Pair) {
    exists b :: b in bindings && PairOf(bindings[b]) == pair
  }

  predicate Usable(input: BindingInput, pair: Pair) {
    input.iface == pair.0 && input.iface > 0 && input.direction == pair.1
  }

  ghost predicate Asked(list: seq<BindingInput>, pair: Pair) {
    exists i :: 0 <= i < |list| && Usable(list[i], pair)
  }

  lemma {:induction false} PairsAreTheUsable(list: seq<BindingInput>)
    ensures forall pair :: pair in Pairs(list) <==> Asked(list, pair)
    ensures NoRepeats(Pairs(list))
  {
    if list != [] {
      var n := |list| - 1;
      PairsAreTheUsable(list[..n]);
      forall pair
        ensures Asked(list, pair) <==> Asked(list[..n], pair) || Usable(list[n], pair)
      {
        if Asked(list[..n], pair) {
          var i :| 0 <= i < n && Usable(list[..n][i], pair);
          assert Usable(list[i], pair);
        }
        if Asked(list, pair) && !Usable(list[n], pair) {
          var i :| 0 <= i < |list| && Usable(list[i], pair);
          assert Usable(list[..n][i], pair);
        }
      }
    }
  }

  /** What an upsert of `pairs` for a list makes of the rows `before`. */
  ghost predicate Upserted(before: BindingTable, after: BindingTable, acl: nat, pairs: seq<Pair>) {
    && (forall b :: b in before ==> b in after)
    && (forall b :: b in before ==>
      after[b] == if PairOf(before[b]) in pairs then before[b].(aclId := acl, status := PendingApply) else before[b])
    && (forall b :: b in after && b !in before ==> after[b].aclId == acl && after[b].status == PendingApply)
    && (forall b, c :: b in after && b !in before && c in before ==> PairOf(after[b]) != PairOf(before[c]))
    && (forall b :: b in after && b !in before ==> PairOf(after[b]) in pairs)
  }

  lemma {:induction false} UpsertAllEffect(bindings: BindingTable, next: nat, acl: nat, pairs: seq<Pair>)
    requires PairsUnique(bindings) && BelowNext(bindings, next)
    ensures var (after, n) := UpsertAll(bindings, next, acl, pairs);
      PairsUnique(after) && BelowNext(after, n) && Upserted(bindings, after, acl, pairs)
    ensures forall pair :: pair in pairs ==> HasPair(UpsertAll(bindings, next, acl, pairs).0, pair)
  {
    if pairs != [] {
      var n := |pairs| - 1;
      UpsertAllEffect(bindings, next, acl, pairs[..n]);
      var (before, m) := UpsertAll(bindings, next, acl, pairs[..n]);
      assert pairs == pairs[..n] + [pairs[n]];
      UpsertStep(bindings, before, m, acl, pairs[..n], pairs[n]);
      forall pair | pair in pairs
        ensures HasPair(Upsert(before, m, acl, pairs[n]).0, pair)
      {
        UpsertHas(before, m, acl, pairs[n], pair);
      }
    }
  }

  lemma UpsertHas(before: BindingTable, next: nat, acl: nat, pair: Pair, other: Pair)
    requires BelowNext(before, next) && (other == pair || HasPair(before, other))
    ensures HasPair(Upsert(before, next, acl, pair).0, other)
  {
    var after := Upsert(before, next, acl, pair).0;
    if HasPair(before, other) {
      var b :| b in before && PairOf(before[b]) == other;
      assert b in after && PairOf(after[b]) == other;
    } else {
      assert next in after && PairOf(after[next]) == other;
    }
  }

  lemma UpsertStep(bindings: BindingTable, before: BindingTable, next: nat, acl: nat, pairs: seq<Pair>, pair: Pair)
    requires PairsUnique(before) && BelowNext(before, next) && Upserted(bindings, before, acl, pairs)
    ensures var (after, n) := Upsert(before, next, acl, pair);
      PairsUnique(after) && BelowNext(after, n) && Upserted(bindings, after, acl, pairs + [pair])
  {
    UpsertUnique(before, next, acl, pair);
    assert forall p :: p in pairs + [pair] <==> p in pairs || p == pair;
    assert forall b :: b in bindings ==> b in before && PairOf(bindings[b]) == PairOf(before[b]);
  }

  /** The visible pairs of a list. */
  ghost predicate Shown(bindings: BindingTable, acl: nat, pair: Pair) {
    exists b :: b in bindings && PairOf(bindings[b]) == pair && bindings[b].aclId == acl && !bindings[b].status.PendingDelete?
  }

  /** Replacing bindings is refused exactly when a usable pair names an
      interface the host cannot bind. */
  lemma BindingsAccepted(db: Db, ifaces: Inventory, acl: nat, host: string, list: seq<BindingInput>)
    ensures ReplaceBindings(db, ifaces, acl, host, list).Some?
       <==> forall pair: Pair :: Asked(list, pair) ==>
              pair.0 in ifaces && ifaces[pair.0].host == host && ifaces[pair.0].status != PendingDelete
  {
    PairsAreTheUsable(list);
    var pairs := Pairs(list);
    forall i | 0 <= i < |pairs|
      ensures Asked(list, pairs[i])
    {
      assert pairs[i] in pairs;
    }
  }

  /** Replacing bindings leaves a list showing exactly the pairs asked for, with
      one row per pair; no row disappears or changes its pair, and a row of
      another list changes only by handing over a pair asked for. */
  lemma BindingsReplaced(db: Db, ifaces: Inventory, acl: nat, host: string, list: seq<BindingInput>)
    requires PairsUnique(db.bindings) && BelowNext(db.bindings, db.nextBinding)
    requires ReplaceBindings(db, ifaces, acl, host, list).Some?
    ensures var after := ReplaceBindings(db, ifaces, acl, host, list).value.bindings;
      && PairsUnique(after)
      && (forall pair :: Shown(after, acl, pair) <==> Asked(list, pair))
      && (forall b :: b in db.bindings ==> b in after && PairOf(after[b]) == PairOf(db.bindings[b]))
      && (forall b :: b in db.bindings && db.bindings[b].aclId != acl && !Asked(list, PairOf(db.bindings[b])) ==>
            after[b] == db.bindings[b])
      && (forall b, c :: b in after && b !in db.bindings && c in db.bindings ==> PairOf(after[b]) != PairOf(db.bindings[c]))
  {
    PairsAreTheUsable(list);
    var pairs := Pairs(list);
    var marked := MarkBindings(db.bindings, acl);
    UpsertAllEffect(marked, db.nextBinding, acl, pairs);
    var after := ReplaceBindings(db, ifaces, acl, host, list).value.bindings;
    assert after == UpsertAll(marked, db.nextBinding, acl, pairs).0;
    ShownAfterUpsert(marked, after, acl, pairs);
  }

  /** Every row of another list is as it was. */
  lemma OthersAfterReplacing(db: Db, ifaces: Inventory, acl: nat, host: string, list: seq<BindingInput>)
    requires PairsUnique(db.bindings) && BelowNext(db.bindings, db.nextBinding)
    requires ReplaceBindings(db, ifaces, acl, host, list).Some?
    ensures var after := ReplaceBindings(db, ifaces, acl, host, list).value.bindings;
      forall b :: b in after && after[b].aclId != acl ==> b in db.bindings && after[b] == db.bindings[b]
  {
    var marked := MarkBindings(db.bindings, acl);
    UpsertAllEffect(marked, db.nextBinding, acl, Pairs(list));
    OthersUpserted(db.bindings, marked, ReplaceBindings(db, ifaces, acl, host, list).value.bindings, acl, Pairs(list));
  }

  lemma OthersUpserted(bindings: BindingTable, marked: BindingTable, after: BindingTable, acl: nat, pairs: seq<Pair>)
    requires marked == MarkBindings(bindings, acl) && Upserted(marked, after, acl, pairs)
    ensures forall b :: b in after && after[b].aclId != acl ==> b in bindings && after[b] == bindings[b]
  {
  }

  lemma ShownAfterUpsert(marked: BindingTable, after: BindingTable, acl: nat, pairs: seq<Pair>)
    requires forall b :: b in marked && marked[b].aclId == acl ==> marked[b].status.PendingDelete?
    requires Upserted(marked, after, acl, pairs)
    requires forall pair :: pair in pairs ==> HasPair(after, pair)
    ensures forall pair :: Shown(after, acl, pair) <==> pair in pairs
  {
    forall pair | pair in pairs
      ensures Shown(after, acl, pair)
    {
      var b :| b in after && PairOf(after[b]) == pair;
      assert after[b].aclId == acl && !after[b].status.PendingDelete?;
    }
  }

  // ---------------------------------------------------------------------
  // Reading rules back
  // ---------------------------------------------------------------------

  function SequenceColumn(rows: Rows): map<nat, nat> {
    map id | id in rows :: if rows[id].sequence.Some? then rows[id].sequence.value else 0
  }

  /** ORDER BY sequence ASC, id ASC, where a missing sequence comes first. */
  ghost function ReadRules(db: Db, kind: Kind, acl: nat): seq<nat> {
    var rows := RowsOf(db, kind, acl);
    Ordered(SequenceColumn(rows), VisibleIds(rows))
  }

  /** A missing sequence sorts before every explicit one. */
  function SortKey(input: RuleInput): int {
    if input.sequence.Some? then input.sequence.value else 0
  }

  /** The visible rows are one per submitted rule, numbered from `next`. */
  ghost predicate ShowsSubmitted(rows: Rows, next: nat, acl: nat, list: seq<RuleInput>) {
    && (forall id :: id in VisibleIds(rows) <==> next <= id < next + |list|)
    && (forall id :: id in VisibleIds(rows) ==> rows[id] == NewRule(acl, list[id - next]))
  }

  /** The visible rules of a replaced list are the submitted ones. */
  lemma ReplacedVisible(db: Db, kind: Kind, acl: nat, list: seq<RuleInput>)
    requires IdsFresh(db)
    ensures ShowsSubmitted(RowsOf(ReplaceRules(db, kind, acl, list), kind, acl), db.nextRule.Next(kind), acl, list)
  {
    var next := db.nextRule.Next(kind);
    var marked := MarkRules(db.rules, kind, acl).Get(kind);
    MarkedRows(db, kind, acl, marked);
    SubmittedBeside(marked, NewRules(next, acl, list), next, acl, list);
    ReplacedTable(db, kind, acl, list);
  }

  lemma MarkedRows(db: Db, kind: Kind, acl: nat, marked: Rows)
    requires IdsFresh(db) && marked == MarkRules(db.rules, kind, acl).Get(kind)
    ensures forall id :: id in marked ==> id < db.nextRule.Next(kind) && (marked[id].aclId == acl ==> marked[id].status.PendingDelete?)
  {
    assert marked.Keys == db.rules.Get(kind).Keys;
  }

  lemma ReplacedTable(db: Db, kind: Kind, acl: nat, list: seq<RuleInput>)
    ensures var marked := MarkRules(db.rules, kind, acl).Get(kind);
      RowsOf(ReplaceRules(db, kind, acl, list), kind, acl) == OwnRows(marked + NewRules(db.nextRule.Next(kind), acl, list), acl)
  {
  }

  lemma SubmittedBeside(marked: Rows, added: Rows, next: nat, acl: nat, list: seq<RuleInput>)
    requires forall id :: id in marked ==> id < next && (marked[id].aclId == acl ==> marked[id].status.PendingDelete?)
    requires forall id :: id in added <==> next <= id < next + |list|
    requires forall id :: id in added ==> added[id] == NewRule(acl, list[id - next])
    ensures ShowsSubmitted(OwnRows(marked + added, acl), next, acl, list)
  {
    var rows := OwnRows(marked + added, acl);
    assert forall id :: id in added ==> id in rows && rows[id] == added[id];
  }

  lemma NewRuleKey(acl: nat, list: seq<RuleInput>, i: nat)
    requires RulesValid(list) && i < |list|
    ensures var row := NewRule(acl, list[i]);
      row.sequence == if list[i].sequence.Some? then Some(list[i].sequence.value as nat) else None
  {
    assert SequenceInRange(list[i]);
  }

  /** By sequence, and among equal sequences in the order submitted. */
  predicate StableBefore(list: seq<RuleInput>, a: int, b: int) {
    && 0 <= a < |list| && 0 <= b < |list|
    && (SortKey(list[a]) < SortKey(list[b]) || (SortKey(list[a]) == SortKey(list[b]) && a < b))
  }

  /** `ids` lists the rows numbered from `next`, one per submitted rule. */
  ghost predicate IsStableSort(list: seq<RuleInput>, next: nat, ids: seq<nat>) {
    && NoRepeats(ids)
    && (forall id :: id in ids <==> next <= id < next + |list|)
    && (forall i, j :: 0 <= i < j < |ids| ==> StableBefore(list, ids[i] - next, ids[j] - next))
  }

  /** A replaced list reads back as exactly the submitted rules (those are the
      rows ReplacedVisible finds), each once, in their stable order by sequence. */
  lemma RulesReadBack(db: Db, kind: Kind, acl: nat, list: seq<RuleInput>)
    requires IdsFresh(db) && RulesValid(list)
    ensures IsStableSort(list, db.nextRule.Next(kind), ReadRules(ReplaceRules(db, kind, acl, list), kind, acl))
  {
    ReplacedVisible(db, kind, acl, list);
    ReadInOrder(RowsOf(ReplaceRules(db, kind, acl, list), kind, acl), db.nextRule.Next(kind), acl, list);
  }

  lemma ReadInOrder(rows: Rows, next: nat, acl: nat, list: seq<RuleInput>)
    requires RulesValid(list) && ShowsSubmitted(rows, next, acl, list)
    ensures IsStableSort(list, next, Ordered(SequenceColumn(rows), VisibleIds(rows)))
  {
    InStableOrder(rows, next, acl, list, Ordered(SequenceColumn(rows), VisibleIds(rows)));
  }

  lemma InStableOrder(rows: Rows, next: nat, acl: nat, list: seq<RuleInput>, ids: seq<nat>)
    requires RulesValid(list) && ShowsSubmitted(rows, next, acl, list)
    requires InOrder(SequenceColumn(rows), VisibleIds(rows), ids) && NoRepeats(ids)
    ensures IsStableSort(list, next, ids)
  {
    forall i, j | 0 <= i < j < |ids|
      ensures StableBefore(list, ids[i] - next, ids[j] - next)
    {
      assert ids[i] in ids && ids[j] in ids;
      NewRuleKey(acl, list, ids[i] - next);
      NewRuleKey(acl, list, ids[j] - next);
      assert Before(SequenceColumn(rows), ids[i], ids[j]);
    }
  }

  /** A replaced list whose rules all carry a sequence can be pushed; see
      Collision for one where a rule without a sequence cannot. */
  lemma NumberedListRenderable(db: Db, kind: Kind, acl: nat, list: seq<RuleInput>)
    requires IdsFresh(db) && RulesValid(list) && !kind.Mac?
    requires forall i :: 0 <= i < |list| ==> list[i].sequence.Some?
    ensures Renderable(kind, RowsOf(ReplaceRules(db, kind, acl, list), kind, acl))
  {
    ReplacedVisible(db, kind, acl, list);
    NumberedRowsRenderable(RowsOf(ReplaceRules(db, kind, acl, list), kind, acl), db.nextRule.Next(kind), kind, acl, list);
  }

  lemma NumberedRowsRenderable(rows: Rows, next: nat, kind: Kind, acl: nat, list: seq<RuleInput>)
    requires RulesValid(list) && ShowsSubmitted(rows, next, acl, list) && !kind.Mac?
    requires forall i :: 0 <= i < |list| ==> list[i].sequence.Some?
    ensures Renderable(kind, rows)
  {
    forall i, j | i in VisibleIds(rows) && j in VisibleIds(rows) && SequenceOf(rows, i) == SequenceOf(rows, j)
      ensures rows[i].text == rows[j].text
    {
      NewRuleKey(acl, list, i - next);
      NewRuleKey(acl, list, j - next);
      assert SequenceInRange(list[i - next]) && SequenceInRange(list[j - next]);
      assert list[i - next].sequence == list[j - next].sequence;
    }
  }

  /** A valid list can collide with itself: the unnumbered rule takes ten times
      its row id, which the other rule asks for. */
  lemma Collision(db: Db, kind: Kind, acl: nat, a: string, b: string)
    requires IdsFresh(db) && !kind.Mac? && a != b && 0 < db.nextRule.Next(kind) <= 6553
    ensures var list := [RuleInput(None, a, true), RuleInput(Some(db.nextRule.Next(kind) * 10), b, true)];
      RulesValid(list) && !Renderable(kind, RowsOf(ReplaceRules(db, kind, acl, list), kind, acl))
  {
    var next := db.nextRule.Next(kind);
    var list := [RuleInput(None, a, true), RuleInput(Some(next * 10), b, true)];
    PairValid(list);
    ReplacedVisible(db, kind, acl, list);
    PairCollides(kind, RowsOf(ReplaceRules(db, kind, acl, list), kind, acl), next, acl, list);
  }

  lemma PairValid(list: seq<RuleInput>)
    requires |list| == 2 && list[0].sequence.None? && SequenceInRange(list[1])
    requires list[0].fieldsValid && list[1].fieldsValid
    ensures RulesValid(list)
  {
  }

  lemma PairCollides(kind: Kind, rows: Rows, next: nat, acl: nat, list: seq<RuleInput>)
    requires !kind.Mac? && ShowsSubmitted(rows, next, acl, list) && |list| == 2 && list[0].text != list[1].text
    requires list[0].sequence.None? && list[1].sequence == Some(next * 10) && 0 < next
    ensures !Renderable(kind, rows)
  {
    assert next in VisibleIds(rows) && next + 1 in VisibleIds(rows);
    assert rows[next] == NewRule(acl, list[0]) && rows[next + 1] == NewRule(acl, list[1]);
    assert SequenceOf(rows, next) == SequenceOf(rows, next + 1);
  }
}
