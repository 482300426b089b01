// The persistence and dispatch code itself: statements that rewrite the tables
// in place, and loops over rules, bindings, ids and tasks.

module AclStore {
  import opened Common
  import opened AclLists
  import opened AclTables
  import opened AclPush
  import AclRuns

  /** Tracking as the tasks carry it: row ids in query order. */
  datatype TrackingLists = TrackingLists(
    aclAdd: seq<nat>, aclDel: seq<nat>, kind: Kind, ruleAdd: seq<nat>, ruleDel: seq<nat>, bindAdd: seq<nat>, bindDel: seq<nat>)
  {
    function AsSets(): Tracking {
      Tracking(Elements(aclAdd), Elements(aclDel), set id | id in ruleAdd :: RuleKey(kind, id),
               set id | id in ruleDel :: RuleKey(kind, id), Elements(bindAdd), Elements(bindDel))
    }
  }

  lemma UnionUpdate(rows: Rows, more: Rows, id: nat, row: RuleRow)
    ensures rows + more[id := row] == (rows + more)[id := row]
  {
  }

  lemma NewRulesStep(rows: Rows, next: nat, acl: nat, list: seq<RuleInput>, i: nat)
    requires i < |list|
    ensures rows + NewRules(next, acl, list[..i + 1]) == (rows + NewRules(next, acl, list[..i]))[next + i := NewRule(acl, list[i])]
  {
    assert list[..i + 1][..i] == list[..i];
    UnionUpdate(rows, NewRules(next, acl, list[..i]), next + i, NewRule(acl, list[i]));
  }

  lemma InsertOne(tables: RuleTables, counters: Counters, kind: Kind, rows: Rows, n: nat, row: RuleRow)
    ensures var before, ids := tables.With(kind, rows), counters.Advance(kind, n);
      && before.With(kind, before.Get(kind)[ids.Next(kind) := row]) == tables.With(kind, rows[counters.Next(kind) + n := row])
      && ids.Advance(kind, 1) == counters.Advance(kind, n + 1)
  {
  }

  function BindingsKept(bindings: BindingTable, ids: set<nat>): BindingTable {
    map b | b in bindings && !(b in ids && bindings[b].status.PendingDelete?) :: bindings[b]
  }

  function BindingsAdvanced(bindings: BindingTable, ids: set<nat>): BindingTable {
    map b | b in bindings :: if b in ids then bindings[b].(status := Settle(bindings[b].status)) else bindings[b]
  }

  function AclsKept(acls: map<nat, AclRow>, ids: set<nat>): map<nat, AclRow> {
    map a | a in acls && !(a in ids && acls[a].status.PendingDelete?) :: acls[a]
  }

  function AclsAdvanced(acls: map<nat, AclRow>, ids: set<nat>): map<nat, AclRow> {
    map a | a in acls :: if a in ids then acls[a].(status := Settle(acls[a].status)) else acls[a]
  }

  function RowsKept(rows: Rows, ids: set<nat>): Rows {
    map r | r in rows && !(r in ids && rows[r].status.PendingDelete?) :: rows[r]
  }

  function RowsAdvanced(rows: Rows, ids: set<nat>): Rows {
    map r | r in rows :: if r in ids then rows[r].(status := Settle(rows[r].status)) else rows[r]
  }

  /** Equal tables; rule tables are compared type by type. */
  ghost predicate SameDb(a: Db, b: Db) {
    a.acls == b.acls && a.bindings == b.bindings && forall k: Kind :: a.rules.Get(k) == b.rules.Get(k)
  }

  lemma AppliedTables(db: Db, t: TrackingLists)
    ensures var after := Apply(db, t.AsSets());
      && after.bindings == BindingsAdvanced(BindingsKept(db.bindings, Elements(t.bindDel)), Elements(t.bindAdd))
      && after.acls == AclsAdvanced(AclsKept(db.acls, Elements(t.aclDel)), Elements(t.aclAdd))
      && after.rules.Get(t.kind) == RowsAdvanced(RowsKept(db.rules.Get(t.kind), Elements(t.ruleDel)), Elements(t.ruleAdd))
      && (forall k: Kind :: k != t.kind ==> after.rules.Get(k) == db.rules.Get(k))
  {
    forall k: Kind | k != t.kind
      ensures ApplyRules(db.rules.Get(k), k, t.AsSets()) == db.rules.Get(k)
    {
    }
    forall id
      ensures RuleKey(t.kind, id) in t.AsSets().ruleAdd <==> id in t.ruleAdd
      ensures RuleKey(t.kind, id) in t.AsSets().ruleDel <==> id in t.ruleDel
    {
    }
  }

  ghost predicate TrackedDeleted(db: Db, after: Db, t: TrackingLists) {
    && after.bindings == BindingsKept(db.bindings, Elements(t.bindDel))
    && after.acls == AclsKept(db.acls, Elements(t.aclDel))
    && after.rules.Get(t.kind) == RowsKept(db.rules.Get(t.kind), Elements(t.ruleDel))
    && (forall k: Kind :: k != t.kind ==> after.rules.Get(k) == db.rules.Get(k))
  }

  ghost predicate TrackedAdvanced(db: Db, after: Db, t: TrackingLists) {
    && after.bindings == BindingsAdvanced(db.bindings, Elements(t.bindAdd))
    && after.acls == AclsAdvanced(db.acls, Elements(t.aclAdd))
    && after.rules.Get(t.kind) == RowsAdvanced(db.rules.Get(t.kind), Elements(t.ruleAdd))
    && (forall k: Kind :: k != t.kind ==> after.rules.Get(k) == db.rules.Get(k))
  }

  // A deletion is not undone by the additions that follow it.

  lemma ChangedBindings(bindings: BindingTable, t: TrackingLists)
    ensures var kept := BindingsKept(bindings, Elements(t.bindDel));
      BindingsAdvanced(kept, Elements(t.bindAdd)) == bindings ==> kept == bindings
  {
    var kept := BindingsKept(bindings, Elements(t.bindDel));
    assert BindingsAdvanced(kept, Elements(t.bindAdd)).Keys == kept.Keys;
  }

  lemma ChangedAcls(acls: map<nat, AclRow>, t: TrackingLists)
    ensures var kept := AclsKept(acls, Elements(t.aclDel));
      AclsAdvanced(kept, Elements(t.aclAdd)) == acls ==> kept == acls
  {
    var kept := AclsKept(acls, Elements(t.aclDel));
    assert AclsAdvanced(kept, Elements(t.aclAdd)).Keys == kept.Keys;
  }

  lemma ChangedRows(rows: Rows, t: TrackingLists)
    ensures var kept := RowsKept(rows, Elements(t.ruleDel));
      RowsAdvanced(kept, Elements(t.ruleAdd)) == rows ==> kept == rows
  {
    var kept := RowsKept(rows, Elements(t.ruleDel));
    assert RowsAdvanced(kept, Elements(t.ruleAdd)).Keys == kept.Keys;
  }

  /** The deletions and then the updates of a task are its application, and rows
      changed in either step are not back at their old state after both. */
  lemma AppliedInTwo(db: Db, middle: Db, after: Db, t: TrackingLists)
    requires TrackedDeleted(db, middle, t) && TrackedAdvanced(middle, after, t)
    ensures SameDb(after, Apply(db, t.AsSets()))
    ensures SameDb(after, db) <==> SameDb(middle, db) && SameDb(after, middle)
  {
    AppliedTables(db, t);
    ChangedBindings(db.bindings, t);
    ChangedAcls(db.acls, t);
    ChangedRows(db.rules.Get(t.kind), t);
    UnchangedKinds(db, middle, after, t);
  }

  lemma UnchangedKinds(db: Db, middle: Db, after: Db, t: TrackingLists)
    requires TrackedDeleted(db, middle, t) && TrackedAdvanced(middle, after, t)
    ensures forall k: Kind :: k != t.kind ==> after.rules.Get(k) == db.rules.Get(k) && middle.rules.Get(k) == db.rules.Get(k)
  {
  }

  class AclDatabase {
    var acls: map<nat, AclRow>
    var rules: RuleTables
    var bindings: BindingTable
    var nextAcl: nat
    var nextRule: Counters
    var nextBinding: nat
    const ifaces: Inventory

    function View(): Db
      reads this
    {
      Db(acls, rules, bindings, nextAcl, nextRule, nextBinding)
    }

    ghost predicate Valid()
      reads this
    {
      Sound(View(), ifaces)
    }

    constructor (ifaces: Inventory)
      ensures Valid() && this.ifaces == ifaces && acls == map[]
    {
      this.ifaces := ifaces;
      acls, rules, bindings := map[], NO_RULES, map[];
      nextAcl, nextRule, nextBinding := 1, FIRST_IDS, 1;
    }

    /** ROLLBACK to the state `db`. */
    method Restore(db: Db)
      modifies this
      ensures View() == db
    {
      acls, rules, bindings := db.acls, db.rules, db.bindings;
      nextAcl, nextRule, nextBinding := db.nextAcl, db.nextRule, db.nextBinding;
    }

    method MarkRulesDeleted(kind: Kind, acl: nat)
      modifies this
      ensures View() == old(View()).(rules := MarkRules(old(rules), kind, acl))
    {
      var rows := rules.Get(kind);
      rules := rules.With(kind, map id | id in rows ::
        if rows[id].aclId == acl && !rows[id].status.PendingDelete? then rows[id].(status := PendingDelete) else rows[id]);
      assert rules.Get(kind) == MarkRules(old(rules), kind, acl).Get(kind);
    }

    method MarkBindingsDeleted(acl: nat)
      modifies this
      ensures View() == old(View()).(bindings := MarkBindings(old(bindings), acl))
    {
      bindings := map b | b in bindings ::
        if bindings[b].aclId == acl && !bindings[b].status.PendingDelete? then bindings[b].(status := PendingDelete)
        else bindings[b];
    }

    method InsertRule(kind: Kind, acl: nat, rule: RuleInput)
      modifies this`rules, this`nextRule
      ensures rules == old(rules).With(kind, old(rules).Get(kind)[old(nextRule).Next(kind) := NewRule(acl, rule)])
      ensures nextRule == old(nextRule).Advance(kind, 1)
    {
      rules := rules.With(kind, rules.Get(kind)[nextRule.Next(kind) := NewRule(acl, rule)]);
      nextRule := nextRule.Advance(kind, 1);
    }

    method InsertAllRules(kind: Kind, acl: nat, list: seq<RuleInput>)
      requires kind in rules.tables
      modifies this`rules, this`nextRule
      ensures rules == old(rules).With(kind, old(rules).Get(kind) + NewRules(old(nextRule).Next(kind), acl, list))
      ensures nextRule == old(nextRule).Advance(kind, |list|)
    {
      ghost var tables, counters := rules, nextRule;
      ghost var next := nextRule.Next(kind);
      ghost var rows: Rows := rules.Get(kind);
      for i := 0 to |list|
        invariant rules == tables.With(kind, rows) && nextRule == counters.Advance(kind, i)
        invariant rows == tables.Get(kind) + NewRules(next, acl, list[..i])
      {
        NewRulesStep(tables.Get(kind), next, acl, list, i);
        InsertOne(tables, counters, kind, rows, i, NewRule(acl, list[i]));
        InsertRule(kind, acl, list[i]);
        rows := rows[next + i := NewRule(acl, list[i])];
      }
      assert list[..|list|] == list;
    }

    /** Old rules are only marked; the new list is inserted beside them. */
    method ReplaceAllRules(kind: Kind, acl: nat, list: seq<RuleInput>)
      modifies this
      ensures View() == ReplaceRules(old(View()), kind, acl, list)
    {
      MarkRulesDeleted(kind, acl);
      InsertAllRules(kind, acl, list);
    }

    /** False where the application raises; the caller then rolls back. */
    method ReplaceAllBindings(acl: nat, host: string, list: seq<BindingInput>) returns (ok: bool)
      modifies this
      ensures ok == ReplaceBindings(old(View()), ifaces, acl, host, list).Some?
      ensures ok ==> View() == ReplaceBindings(old(View()), ifaces, acl, host, list).value
    {
      MarkBindingsDeleted(acl);
      ghost var marked := View();
      var seen: set<Pair> := {};
      for i := 0 to |list|
        invariant seen == Elements(Pairs(list[..i]))
        invariant View() == marked.(bindings := UpsertAll(marked.bindings, marked.nextBinding, acl, Pairs(list[..i])).0,
                                    nextBinding := UpsertAll(marked.bindings, marked.nextBinding, acl, Pairs(list[..i])).1)
        invariant forall k :: 0 <= k < |Pairs(list[..i])| ==> Bindable(ifaces, host, Pairs(list[..i])[k].0)
      {
        assert list[..i + 1][..i] == list[..i];
        var input := list[i];
        if input.iface <= 0 || (input.iface as nat, input.direction) in seen {
          continue;
        }
        var pair: Pair := (input.iface as nat, input.direction);
        seen := seen + {pair};
        ghost var pairs := Pairs(list[..i + 1]);
        assert pairs[..|pairs| - 1] == Pairs(list[..i]) && pairs[|pairs| - 1] == pair;
        if !Bindable(ifaces, host, pair.0) {
          PairsGrow(list, i + 1);
          assert pairs[|pairs| - 1] == Pairs(list)[|pairs| - 1];
          return false;
        }
        var (b, n) := Upsert(bindings, nextBinding, acl, pair);
        bindings, nextBinding := b, n;
      }
      assert list[..|list|] == list;
      return true;
    }

    lemma {:induction false} PairsGrow(list: seq<BindingInput>, n: nat)
      requires n <= |list|
      ensures Pairs(list[..n]) <= Pairs(list)
      decreases |list| - n
    {
      if n == |list| {
        assert list[..n] == list;
      } else {
        PairsGrow(list, n + 1);
        assert list[..n + 1][..n] == list[..n];
      }
    }

    method SoftDeleteAcl(acl: nat)
      modifies this
      ensures View() == SoftDelete(old(View()), acl)
    {
      if acl in acls {
        if acls[acl].status.PendingApply? {
          rules := WithoutList(rules, acl);
          bindings := map b | b in bindings && bindings[b].aclId != acl :: bindings[b];
          acls := acls - {acl};
        } else {
          acls := acls[acl := acls[acl].(status := PendingDelete)];
        }
      }
    }

    method CreateOrReviveAcl(host: string, name: string, kind: Kind, description: Option<string>)
      returns (created: bool, acl: nat)
      requires Valid()
      modifies this
      ensures var r := CreateOrRevive(old(View()), host, name, kind, description);
        if created then r == Located.At(View(), acl) else r == Taken && View() == old(View())
    {
      var named := set a | a in acls && Named(View(), a, host, name);
      if named == {} {
        assert forall a :: !Named(View(), a, host, name) by {
          forall a | Named(View(), a, host, name) ensures a in named { }
        }
        acl := nextAcl;
        acls := acls[acl := AclRow(host, name, kind, description, 1, PendingApply)];
        nextAcl := nextAcl + 1;
        return true, acl;
      }
      acl :| acl in named;
      assert forall a :: Named(View(), a, host, name) ==> a == acl;
      if !acls[acl].status.PendingDelete? {
        return false, acl;
      }
      MarkRulesDeleted(acls[acl].kind, acl);
      MarkBindingsDeleted(acl);
      acls := acls[acl := acls[acl].(kind := kind, description := description, status := PendingApply, actionCfg := 1)];
      return true, acl;
    }

    method FinishSaving(p: Payload, acl: nat, rules: bool, list: seq<BindingInput>, bind: bool) returns (ok: bool)
      modifies this
      ensures ok == FinishSave(old(View()), ifaces, p, acl, rules, list, bind).Some?
      ensures ok ==> View() == FinishSave(old(View()), ifaces, p, acl, rules, list, bind).value
    {
      if rules {
        ReplaceAllRules(p.kind, acl, p.rules);
      }
      ok := true;
      if bind {
        ok := ReplaceAllBindings(acl, p.host, list);
      }
    }

    /** Rename or move a list: retire the old row, then create or revive the new one. */
    method MoveAcl(p: Payload, retired: nat) returns (created: bool, acl: nat)
      requires Valid() && retired in acls
      modifies this
      ensures var r := CreateOrRevive(DeleteOne(old(View()), retired), p.host, p.name, p.kind, p.description);
        created == r.At? && (created ==> r == Located.At(View(), acl))
    {
      DeleteOneSound(View(), ifaces, retired);
      MarkRulesDeleted(acls[retired].kind, retired);
      MarkBindingsDeleted(retired);
      SoftDeleteAcl(retired);
      created, acl := CreateOrReviveAcl(p.host, p.name, p.kind, p.description);
    }

    /** One transaction: whatever raises or returns early leaves the old tables. */
    method Save(p: Payload) returns (ok: bool)
      requires Valid()
      modifies this
      ensures Valid()
      ensures ok == SaveAcl(old(View()), ifaces, p).Some?
      ensures View() == if ok then SaveAcl(old(View()), ifaces, p).value else old(View())
      ensures forall dev: Devices :: AclRuns.After(World(old(View()), dev), ifaces, AclRuns.Save(p)) == World(View(), dev)
    {
      ghost var before := View();
      if SaveAcl(before, ifaces, p).Some? { SaveAclSound(before, ifaces, p); }
      var snapshot := View();
      ok := TrySave(p);
      if !ok {
        Restore(snapshot);
      }
    }

    method TrySave(p: Payload) returns (ok: bool)
      requires Valid()
      modifies this
      ensures ok == SaveAcl(old(View()), ifaces, p).Some?
      ensures ok ==> View() == SaveAcl(old(View()), ifaces, p).value
    {
      ok := ValidateRules(p.rules);
      if !ok || p.host == "" || !NameValid(p.name) || p.rules == [] {
        return false;
      }
      var acl: nat;
      if p.aclId <= 0 {
        ok, acl := CreateOrReviveAcl(p.host, p.name, p.kind, p.description);
        if ok {
          ok := FinishSaving(p, acl, true, OrNone(p.bindings), p.bindingChanged);
        }
        return ok;
      }
      if !Existing(View(), p.aclId) {
        return false;
      }
      acl := p.aclId;
      var row := acls[acl];
      if p.descriptionOnly {
        acls := acls[acl := row.(description := p.description, actionCfg := 1, status := PendingApply)];
        return true;
      }
      if SameIdentity(row, p) && row.kind == p.kind {
        var actionCfg := if row.description != p.description then 1 else row.actionCfg;
        acls := acls[acl := row.(description := p.description, actionCfg := actionCfg, status := PendingApply)];
        ok := FinishSaving(p, acl, p.rulesChanged, OrNone(p.bindings), p.bindingChanged);
        return ok;
      }
      var list := if p.bindings.None? then ReadBindings(bindings, acl, nextBinding) else p.bindings.value;
      if SameIdentity(row, p) {
        MarkRulesDeleted(row.kind, acl);
        acls := acls[acl := row.(kind := p.kind, description := p.description, status := PendingApply, actionCfg := 1)];
        ok := FinishSaving(p, acl, true, list, true);
        return ok;
      }
      ok, acl := MoveAcl(p, acl);
      if ok {
        ok := FinishSaving(p, acl, true, list, true);
      }
    }

    method SaveBindings(acl: int, list: seq<BindingInput>) returns (ok: bool)
      requires Valid()
      modifies this
      ensures Valid()
      ensures ok == SaveAclBindings(old(View()), ifaces, acl, list).Some?
      ensures View() == if ok then SaveAclBindings(old(View()), ifaces, acl, list).value else old(View())
      ensures forall dev: Devices :: AclRuns.After(World(old(View()), dev), ifaces, AclRuns.SaveBindings(acl, list)) == World(View(), dev)
    {
      if SaveAclBindings(View(), ifaces, acl, list).Some? { SaveAclBindingsSound(View(), ifaces, acl, list); }
      var snapshot := View();
      if !Existing(View(), acl) {
        return false;
      }
      ok := ReplaceAllBindings(acl, acls[acl].host, list);
      if !ok {
        Restore(snapshot);
        return false;
      }
      acls := acls[acl := acls[acl].(status := PendingApply)];
    }

    method Delete(ids: seq<int>) returns (ok: bool)
      requires Valid()
      modifies this
      ensures Valid()
      ensures ok == DeleteAcls(old(View()), ids).Some?
      ensures View() == if ok then DeleteAcls(old(View()), ids).value else old(View())
      ensures forall dev: Devices :: AclRuns.After(World(old(View()), dev), ifaces, AclRuns.Delete(ids)) == World(View(), dev)
    {
      DeleteAllSound(View(), ifaces, Wanted(ids));
      var wanted := Wanted(ids);
      if wanted == [] || exists i :: 0 <= i < |wanted| && !Existing(View(), wanted[i]) {
        return false;
      }
      ghost var before := View();
      for i := 0 to |wanted|
        invariant View() == DeleteAll(before, wanted[..i])
      {
        assert wanted[..i + 1][..i] == wanted[..i];
        if wanted[i] in acls {
          MarkRulesDeleted(acls[wanted[i]].kind, wanted[i]);
          MarkBindingsDeleted(wanted[i]);
          SoftDeleteAcl(wanted[i]);
        }
      }
      assert wanted[..|wanted|] == wanted;
      return true;
    }

    predicate OnHost(binding: nat, host: string)
      reads this
    {
      binding in bindings && bindings[binding].iface in ifaces && ifaces[bindings[binding].iface].host == host
    }

    /** `ids` are the pending bindings of the list as the query returns them; None
        is the exception that blocks the push. */
    method CollectBindings(acl: nat, ids: seq<nat>) returns (tracking: Option<(seq<nat>, seq<nat>)>)
      requires acl in acls && Elements(ids) == PendingBindings(View(), acl) && NoRepeats(ids)
      ensures tracking.Some? <==> BindingsOnHost(View(), ifaces, acl)
      ensures tracking.Some? <==> forall b :: b in bindings && bindings[b].aclId == acl && bindings[b].status.Pending() ==>
        bindings[b].iface in ifaces && ifaces[bindings[b].iface].host == acls[acl].host
      ensures tracking.Some? ==> NoRepeats(tracking.value.0) && NoRepeats(tracking.value.1)
      ensures tracking.Some? ==> forall b :: b in tracking.value.0 <==> b in PendingBindings(View(), acl) && bindings[b].status.PendingApply?
      ensures tracking.Some? ==> forall b :: b in tracking.value.1 <==> b in PendingBindings(View(), acl) && bindings[b].status.PendingDelete?
    {
      var add, del := [], [];
      assert forall k :: 0 <= k < |ids| ==> ids[k] in Elements(ids);
      for i := 0 to |ids|
        invariant NoRepeats(add) && NoRepeats(del)
        invariant forall b :: b in add <==> b in ids[..i] && b in bindings && bindings[b].status.PendingApply?
        invariant forall b :: b in del <==> b in ids[..i] && b in bindings && bindings[b].status.PendingDelete?
        invariant forall k :: 0 <= k < i ==> OnHost(ids[k], acls[acl].host)
      {
        assert ids[i] in Elements(ids) && ids[i] !in ids[..i];
        var row := bindings[ids[i]];
        if !OnHost(ids[i], acls[acl].host) {
          return None;
        }
        if row.status.PendingDelete? {
          del := del + [ids[i]];
        } else {
          add := add + [ids[i]];
        }
      }
      assert forall b :: b in Elements(ids) ==> exists k :: 0 <= k < |ids| && ids[k] == b;
      return Some((add, del));
    }

    method DeleteBindings(ids: seq<nat>) returns (n: nat)
      modifies this`bindings
      ensures bindings == BindingsKept(old(bindings), Elements(ids))
      ensures n == 0 <==> bindings == old(bindings)
    {
      n := 0;
      for i := 0 to |ids|
        invariant bindings == BindingsKept(old(bindings), Elements(ids[..i]))
        invariant n == 0 <==> bindings == old(bindings)
      {
        if ids[i] in bindings && bindings[ids[i]].status.PendingDelete? {
          bindings := bindings - {ids[i]};
          n := n + 1;
        }
        assert Elements(ids[..i + 1]) == Elements(ids[..i]) + {ids[i]};
      }
      assert ids[..|ids|] == ids;
    }

    method SynchronizeBindings(ids: seq<nat>) returns (n: nat)
      modifies this`bindings
      ensures bindings == BindingsAdvanced(old(bindings), Elements(ids))
      ensures n == 0 <==> bindings == old(bindings)
    {
      n := 0;
      for i := 0 to |ids|
        invariant bindings == BindingsAdvanced(old(bindings), Elements(ids[..i]))
        invariant n == 0 <==> bindings == old(bindings)
      {
        if ids[i] in bindings && bindings[ids[i]].status.Pending() {
          bindings := bindings[ids[i] := bindings[ids[i]].(status := Synchronized)];
          n := n + 1;
        }
        assert Elements(ids[..i + 1]) == Elements(ids[..i]) + {ids[i]};
      }
      assert ids[..|ids|] == ids;
    }

    method DeleteAclRows(ids: seq<nat>) returns (n: nat)
      modifies this`acls
      ensures acls == AclsKept(old(acls), Elements(ids))
      ensures n == 0 <==> acls == old(acls)
    {
      n := 0;
      for i := 0 to |ids|
        invariant acls == AclsKept(old(acls), Elements(ids[..i]))
        invariant n == 0 <==> acls == old(acls)
      {
        if ids[i] in acls && acls[ids[i]].status.PendingDelete? {
          acls := acls - {ids[i]};
          n := n + 1;
        }
        assert Elements(ids[..i + 1]) == Elements(ids[..i]) + {ids[i]};
      }
      assert ids[..|ids|] == ids;
    }

    method SynchronizeAclRows(ids: seq<nat>) returns (n: nat)
      modifies this`acls
      ensures acls == AclsAdvanced(old(acls), Elements(ids))
      ensures n == 0 <==> acls == old(acls)
    {
      n := 0;
      for i := 0 to |ids|
        invariant acls == AclsAdvanced(old(acls), Elements(ids[..i]))
        invariant n == 0 <==> acls == old(acls)
      {
        if ids[i] in acls && acls[ids[i]].status.Pending() {
          acls := acls[ids[i] := acls[ids[i]].(status := Synchronized)];
          n := n + 1;
        }
        assert Elements(ids[..i + 1]) == Elements(ids[..i]) + {ids[i]};
      }
      assert ids[..|ids|] == ids;
    }

    method DeleteRules(kind: Kind, ids: seq<nat>) returns (n: nat)
      modifies this`rules
      ensures rules.Get(kind) == RowsKept(old(rules).Get(kind), Elements(ids))
      ensures forall k: Kind :: k != kind ==> rules.Get(k) == old(rules).Get(k)
      ensures n == 0 <==> rules.Get(kind) == old(rules).Get(kind)
    {
      n := 0;
      var rows: Rows := rules.Get(kind);
      ghost var before := rows;
      for i := 0 to |ids|
        invariant rows == RowsKept(before, Elements(ids[..i]))
        invariant n == 0 <==> rows == before
      {
        if ids[i] in rows && rows[ids[i]].status.PendingDelete? {
          rows := rows - {ids[i]};
          n := n + 1;
        }
        assert Elements(ids[..i + 1]) == Elements(ids[..i]) + {ids[i]};
      }
      assert ids[..|ids|] == ids;
      rules := rules.With(kind, rows);
    }

    method SynchronizeRules(kind: Kind, ids: seq<nat>) returns (n: nat)
      modifies this`rules
      ensures rules.Get(kind) == RowsAdvanced(old(rules).Get(kind), Elements(ids))
      ensures forall k: Kind :: k != kind ==> rules.Get(k) == old(rules).Get(k)
      ensures n == 0 <==> rules.Get(kind) == old(rules).Get(kind)
    {
      n := 0;
      var rows: Rows := rules.Get(kind);
      ghost var before := rows;
      for i := 0 to |ids|
        invariant rows == RowsAdvanced(before, Elements(ids[..i]))
        invariant n == 0 <==> rows == before
      {
        if ids[i] in rows && rows[ids[i]].status.Pending() {
          rows := rows[ids[i] := rows[ids[i]].(status := Synchronized)];
          n := n + 1;
        }
        assert Elements(ids[..i + 1]) == Elements(ids[..i]) + {ids[i]};
      }
      assert ids[..|ids|] == ids;
      rules := rules.With(kind, rows);
    }

    method DeleteTracked(t: TrackingLists) returns (changes: nat)
      modifies this
      ensures TrackedDeleted(old(View()), View(), t)
      ensures changes == 0 <==> SameDb(View(), old(View()))
    {
      var b := DeleteBindings(t.bindDel);
      var r := DeleteRules(t.kind, t.ruleDel);
      var a := DeleteAclRows(t.aclDel);
      changes := b + r + a;
    }

    method SynchronizeTracked(t: TrackingLists) returns (changes: nat)
      modifies this
      ensures TrackedAdvanced(old(View()), View(), t)
      ensures changes == 0 <==> SameDb(View(), old(View()))
    {
      var a := SynchronizeAclRows(t.aclAdd);
      var r := SynchronizeRules(t.kind, t.ruleAdd);
      var b := SynchronizeBindings(t.bindAdd);
      changes := a + r + b;
    }

    /** Apply one task's tracking; zero changes means nothing was left to advance. */
    method ApplyTracking(t: TrackingLists) returns (changes: nat)
      modifies this
      ensures SameDb(View(), Apply(old(View()), t.AsSets()))
      ensures changes == 0 <==> SameDb(View(), old(View()))
    {
      ghost var before := View();
      var n := DeleteTracked(t);
      ghost var middle := View();
      var m := SynchronizeTracked(t);
      changes := n + m;
      AppliedInTwo(before, middle, View(), t);
    }

    /** The outcome of one host: a failed push advances nothing, a successful one
        applies every task, and SUCCESS is reported only if a row really changed. */
    method ApplyResult(tasks: seq<TrackingLists>, succeeded: bool) returns (reported: bool)
      requires forall i :: 0 <= i < |tasks| ==> Fits(View(), tasks[i].AsSets())
      modifies this
      ensures SameDb(View(), if succeeded then Apply(old(View()), Together(tasks)) else old(View()))
      ensures reported <==> succeeded && !SameDb(View(), old(View()))
    {
      if !succeeded {
        return false;
      }
      ghost var start := View();
      ApplyNothing(start);
      var changed := 0;
      for i := 0 to |tasks|
        invariant SameDb(View(), Apply(start, Together(tasks[..i])))
        invariant changed == 0 <==> SameDb(View(), start)
      {
        ghost var before := View();
        var n := ApplyTracking(tasks[i]);
        changed := changed + n;
        assert tasks[..i + 1][..i] == tasks[..i];
        TogetherFits(start, tasks[..i]);
        ApplyTwice(start, Together(tasks[..i]), tasks[i].AsSets(), before, View());
      }
      assert tasks[..|tasks|] == tasks;
      reported := changed > 0;
    }

    /** One list's task: its own row, its pending rules and its pending bindings;
        None when the binding guard raises. */
    method CollectAcl(acl: nat, rules: seq<nat>, bindings: seq<nat>) returns (task: Option<TrackingLists>)
      requires acl in acls && rules == PendingQuery(ListRows(View(), acl))
      requires Elements(bindings) == PendingBindings(View(), acl) && NoRepeats(bindings)
      ensures task.Some? <==> BindingsOnHost(View(), ifaces, acl)
      ensures task.Some? ==> task.value.AsSets() == Track(View(), acl)
    {
      var row := acls[acl];
      var remove := row.status.PendingDelete?;
      var collected := CollectRules(OwnRows(this.rules.Get(row.kind), acl), remove, rules);
      var bound := CollectBindings(acl, bindings);
      if bound.None? {
        return None;
      }
      var lists := TrackingLists(
        if row.status.Pending() && !remove then [acl] else [], if remove then [acl] else [],
        row.kind, collected.trackAdd, collected.trackDel, bound.value.0, bound.value.1);
      ListsAreTrack(View(), acl, collected, lists);
      return Some(lists);
    }

    /** The result of a host's push, applied to the tasks collected from these very
        tables: nothing after a failure, the pushed tables after a success. */
    method ApplyHostResult(host: string, tasks: seq<TrackingLists>, succeeded: bool, ghost dev: Devices) returns (reported: bool)
      requires CollectedFor(View(), host, tasks)
      modifies this
      ensures SameDb(View(), if succeeded then PushHost(World(old(View()), dev), host).db else old(View()))
      ensures reported <==> succeeded && !SameDb(View(), old(View()))
    {
      CollectedTasks(View(), host, tasks);
      reported := ApplyResult(tasks, succeeded);
    }
  }

  lemma ListsAreTrack(db: Db, acl: nat, collected: Collected, lists: TrackingLists)
    requires acl in db.acls
    requires collected == Collect(ListRows(db, acl), Removed(db, acl), PendingQuery(ListRows(db, acl)))
    requires lists.kind == db.acls[acl].kind && lists.ruleAdd == collected.trackAdd && lists.ruleDel == collected.trackDel
    requires lists.aclAdd == if db.acls[acl].status.PendingApply? then [acl] else []
    requires lists.aclDel == if Removed(db, acl) then [acl] else []
    requires forall b :: b in lists.bindAdd <==> b in PendingBindings(db, acl) && db.bindings[b].status.PendingApply?
    requires forall b :: b in lists.bindDel <==> b in PendingBindings(db, acl) && db.bindings[b].status.PendingDelete?
    ensures lists.AsSets() == Track(db, acl)
  {
    var sets, track := lists.AsSets(), Track(db, acl);
    assert sets.aclAdd == track.aclAdd && sets.aclDel == track.aclDel;
    assert sets.bindAdd == track.bindAdd && sets.bindDel == track.bindDel;
  }

  /** The tasks are those the collector makes for the pending lists of a host. */
  ghost predicate CollectedFor(db: Db, host: string, tasks: seq<TrackingLists>) {
    && |tasks| == |HostTasks(db, host)|
    && forall i :: 0 <= i < |tasks| ==> tasks[i].AsSets() == Track(db, HostTasks(db, host)[i])
  }

  /** They fit the tables they were collected from, and together they are the
      tracking of the host's push. */
  lemma CollectedTasks(db: Db, host: string, tasks: seq<TrackingLists>)
    requires CollectedFor(db, host, tasks)
    ensures forall i :: 0 <= i < |tasks| ==> Fits(db, tasks[i].AsSets())
    ensures Together(tasks) == HostTracking(db, host)
  {
    var acls := HostTasks(db, host);
    forall i | 0 <= i < |tasks|
      ensures Fits(db, tasks[i].AsSets())
    {
      TrackFits(db, acls[i]);
    }
    TogetherIsTrackAll(db, acls, tasks);
  }

  lemma {:induction false} TogetherIsTrackAll(db: Db, acls: seq<nat>, tasks: seq<TrackingLists>)
    requires |tasks| == |acls| && forall a :: a in acls ==> a in db.acls
    requires forall i :: 0 <= i < |tasks| ==> tasks[i].AsSets() == Track(db, acls[i])
    ensures Together(tasks) == TrackAll(db, acls)
  {
    if tasks != [] {
      var n := |tasks| - 1;
      TogetherIsTrackAll(db, acls[..n], tasks[..n]);
    }
  }

  function Together(tasks: seq<TrackingLists>): Tracking {
    if tasks == [] then NOTHING else Together(tasks[..|tasks| - 1]).Union(tasks[|tasks| - 1].AsSets())
  }

  /** No row to be advanced awaits deletion; what the collector tracks is so. */
  ghost predicate Fits(db: Db, t: Tracking) {
    && (forall a :: a in t.aclAdd && a in db.acls ==> !db.acls[a].status.PendingDelete?)
    && (forall b :: b in t.bindAdd && b in db.bindings ==> !db.bindings[b].status.PendingDelete?)
    && (forall k: Kind, id :: id in db.rules.Get(k) && RuleKey(k, id) in t.ruleAdd ==> !db.rules.Get(k)[id].status.PendingDelete?)
  }

  lemma TrackFits(db: Db, acl: nat)
    requires acl in db.acls
    ensures Fits(db, Track(db, acl))
  {
    forall k: Kind, id | id in db.rules.Get(k) && RuleKey(k, id) in Track(db, acl).ruleAdd
      ensures !db.rules.Get(k)[id].status.PendingDelete?
    {
      RuleTrackedBy(db, acl, k, id);
    }
  }

  lemma {:induction false} TogetherFits(db: Db, tasks: seq<TrackingLists>)
    requires forall i :: 0 <= i < |tasks| ==> Fits(db, tasks[i].AsSets())
    ensures Fits(db, Together(tasks))
  {
    if tasks != [] {
      TogetherFits(db, tasks[..|tasks| - 1]);
    }
  }

  lemma ApplyNothing(db: Db)
    ensures SameDb(Apply(db, NOTHING), db)
  {
    forall k: Kind
      ensures ApplyRules(db.rules.Get(k), k, NOTHING) == db.rules.Get(k)
    {
    }
  }

  /** Applying one task after others is applying them all at once, and it never
      brings back an earlier state. */
  lemma ApplyTwice(start: Db, t: Tracking, u: Tracking, middle: Db, after: Db)
    requires Fits(start, t) && Fits(start, u)
    requires SameDb(middle, Apply(start, t)) && SameDb(after, Apply(middle, u))
    ensures SameDb(after, Apply(start, t.Union(u)))
    ensures SameDb(after, start) <==> SameDb(middle, start) && SameDb(after, middle)
  {
    forall k: Kind
      ensures after.rules.Get(k) == ApplyRules(start.rules.Get(k), k, t.Union(u))
      ensures after.rules.Get(k) == start.rules.Get(k) ==> middle.rules.Get(k) == start.rules.Get(k)
    {
      assert Apply(middle, u).rules.Get(k) == ApplyRules(middle.rules.Get(k), k, u);
      assert Apply(start, t).rules.Get(k) == ApplyRules(start.rules.Get(k), k, t);
      RulesTwice(start.rules.Get(k), k, t, u);
    }
    AclsTwice(start, t, u);
    BindingsTwice(start, t, u);
    assert Apply(middle, u).acls == Apply(Apply(start, t), u).acls && Apply(middle, u).bindings == Apply(Apply(start, t), u).bindings;
  }

  lemma RulesTwice(rows: Rows, k: Kind, t: Tracking, u: Tracking)
    requires forall id :: id in rows && (RuleKey(k, id) in t.ruleAdd || RuleKey(k, id) in u.ruleAdd) ==> !rows[id].status.PendingDelete?
    ensures ApplyRules(ApplyRules(rows, k, t), k, u) == ApplyRules(rows, k, t.Union(u))
    ensures ApplyRules(ApplyRules(rows, k, t), k, u) == rows ==> ApplyRules(rows, k, t) == rows
  {
  }

  lemma AclsTwice(db: Db, t: Tracking, u: Tracking)
    requires Fits(db, t) && Fits(db, u)
    ensures Apply(Apply(db, t), u).acls == Apply(db, t.Union(u)).acls
    ensures Apply(Apply(db, t), u).acls == db.acls ==> Apply(db, t).acls == db.acls
  {
  }

  lemma BindingsTwice(db: Db, t: Tracking, u: Tracking)
    requires Fits(db, t) && Fits(db, u)
    ensures Apply(Apply(db, t), u).bindings == Apply(db, t.Union(u)).bindings
    ensures Apply(Apply(db, t), u).bindings == db.bindings ==> Apply(db, t).bindings == db.bindings
  {
  }
}
