// Whole runs of ACL edits and pushes.

module AclRuns {
  import opened Common
  import opened AclLists
  import opened AclTables
  import opened AclEdits
  import opened AclPush

  // ---------------------------------------------------------------------
  // What an edit does to the list of one name
  // ---------------------------------------------------------------------

  /** No rule of the list is outside the table of its type. */
  ghost predicate Tidy(db: Db, list: ListName) {
    forall a, k: Kind :: Called(db, a, list) && k != db.acls[a].kind ==> RowsOf(db, k, a) == map[]
  }

  ghost predicate Tidies(db: Db, after: Db, list: ListName) {
    forall a, k: Kind :: Called(after, a, list) && k != after.acls[a].kind ==>
      RowsOf(after, k, a) == map[] || (Called(db, a, list) && RowsOf(after, k, a).Keys <= RowsOf(db, k, a).Keys)
  }

  /** One step of an edit: its rules are untouched or wholly pending and, if care
      was taken, it is kept, with no new row outside the table of its type. */
  ghost predicate Gentle(db: Db, after: Db, list: ListName, care: bool) {
    Edits(db, after, list) && (care ==> Keeps(db, after, list) && Tidies(db, after, list))
  }

  lemma KeepsTrans(a: Db, b: Db, c: Db, list: ListName)
    requires Keeps(a, b, list) && Keeps(b, c, list)
    ensures Keeps(a, c, list)
  {
    forall l | Called(a, l, list)
      ensures Called(c, l, list) && c.acls[l].kind == a.acls[l].kind && RulesPersist(a, c, l)
    {
      assert Called(b, l, list) && RulesPersist(a, b, l) && RulesPersist(b, c, l);
    }
  }

  lemma TidiesTrans(a: Db, b: Db, c: Db, list: ListName)
    requires Tidies(a, b, list) && Keeps(b, c, list) && Tidies(b, c, list)
    ensures Tidies(a, c, list)
  {
    forall l, k: Kind | Called(c, l, list) && k != c.acls[l].kind && RowsOf(c, k, l) != map[]
      ensures Called(a, l, list) && RowsOf(c, k, l).Keys <= RowsOf(a, k, l).Keys
    {
      assert Called(b, l, list) && k != b.acls[l].kind;
      assert RowsOf(b, k, l) != map[];
    }
  }

  lemma GentleTrans(a: Db, b: Db, c: Db, list: ListName, first: bool, second: bool)
    requires Gentle(a, b, list, first) && Gentle(b, c, list, second)
    ensures Gentle(a, c, list, first && second)
  {
    if first && second {
      KeepsTrans(a, b, c, list);
      TidiesTrans(a, b, c, list);
    }
  }

  /** A list's row is rewritten; its type may change. */
  lemma SetListGentle(db: Db, acl: nat, row: AclRow, list: ListName)
    requires OthersDeleted(db) && acl in db.acls && NameOf(row) == NameOf(db.acls[acl])
    ensures Gentle(db, SetList(db, acl, row), list, Called(db, acl, list) ==> row.kind == db.acls[acl].kind)
  {
    var after := SetList(db, acl, row);
    forall a | Called(after, a, list)
      ensures AllPending(ListRows(after, a)) || (Called(db, a, list) && after.acls[a].kind == db.acls[a].kind && ListRows(after, a) == ListRows(db, a))
    {
      assert ListRows(after, a) == RowsOf(db, after.acls[a].kind, a);
    }
  }

  lemma NewListGentle(db: Db, row: AclRow, list: ListName)
    requires IdsFresh(db)
    ensures Gentle(db, SetList(db, db.nextAcl, row).(nextAcl := db.nextAcl + 1), list, true)
  {
    var after := SetList(db, db.nextAcl, row).(nextAcl := db.nextAcl + 1);
    assert forall k: Kind :: RowsOf(after, k, db.nextAcl) == map[];
    assert forall a, k: Kind :: a in db.acls ==> RowsOf(after, k, a) == RowsOf(db, k, a);
  }

  /** The rules of a list are queued for deletion. */
  lemma MarkedGentle(db: Db, acl: nat, after: Db, list: ListName)
    requires acl in db.acls && after.acls == db.acls && after.rules == MarkRules(db.rules, db.acls[acl].kind, acl)
    ensures Gentle(db, after, list, true)
  {
    forall a, k: Kind
      ensures RowsOf(after, k, a).Keys == RowsOf(db, k, a).Keys
      ensures a != acl ==> RowsOf(after, k, a) == RowsOf(db, k, a)
    {
      MarkedRow(db.rules, db.acls[acl].kind, acl, k, a);
    }
    assert AllPending(ListRows(after, acl));
    forall a | a in db.acls
      ensures RulesPersist(db, after, a)
    {
    }
  }

  lemma MarkedRow(rules: RuleTables, kind: Kind, acl: nat, k: Kind, a: nat)
    ensures var before, after := OwnRows(rules.Get(k), a), OwnRows(MarkRules(rules, kind, acl).Get(k), a);
      after.Keys == before.Keys && (a != acl ==> after == before)
  {
  }

  lemma ReplacedRows(db: Db, acl: nat, list: seq<RuleInput>, a: nat)
    requires IdsFresh(db) && acl in db.acls && a in db.acls
    ensures var before, after := ListRows(db, a), ListRows(ReplaceRules(db, db.acls[acl].kind, acl, list), a);
      if a == acl then AllPending(after) && forall id :: id in before ==> id in after && SameRule(id, before[id], after[id])
      else after == before
  {
    var kind := db.acls[acl].kind;
    ReplacedTable(db, kind, acl, list);
    if a == acl {
      MarkedRows(db, kind, acl, MarkRules(db.rules, kind, acl).Get(kind));
      OwnReplaced(db.rules.Get(kind), MarkRules(db.rules, kind, acl).Get(kind), db.nextRule.Next(kind), acl, list);
    } else {
      if db.acls[a].kind == kind { OthersReplaced(db, acl, list, a, kind); }
    }
  }

  lemma OwnReplaced(rows: Rows, marked: Rows, next: nat, acl: nat, list: seq<RuleInput>)
    requires marked.Keys == rows.Keys && forall id :: id in rows ==>
      id < next && marked[id] == if rows[id].aclId == acl then rows[id].(status := PendingDelete) else rows[id]
    ensures var before, after := OwnRows(rows, acl), OwnRows(marked + NewRules(next, acl, list), acl);
      AllPending(after) && forall id :: id in before ==> id in after && SameRule(id, before[id], after[id])
  {
    var added := NewRules(next, acl, list);
    assert forall id :: id in rows ==> id !in added;
  }

  lemma OthersReplaced(db: Db, acl: nat, list: seq<RuleInput>, a: nat, kind: Kind)
    requires IdsFresh(db) && acl in db.acls && a != acl && kind == db.acls[acl].kind
    ensures RowsOf(ReplaceRules(db, kind, acl, list), kind, a) == RowsOf(db, kind, a)
  {
    var marked, added := MarkRules(db.rules, kind, acl).Get(kind), NewRules(db.nextRule.Next(kind), acl, list);
    var after := RowsOf(ReplaceRules(db, kind, acl, list), kind, a);
    assert after == OwnRows(marked + added, a) && marked.Keys == db.rules.Get(kind).Keys;
    forall id
      ensures id in after <==> id in RowsOf(db, kind, a)
      ensures id in after ==> after[id] == RowsOf(db, kind, a)[id]
    {
      assert id in db.rules.Get(kind) ==> id < db.nextRule.Next(kind);
    }
  }

  lemma ReplaceRulesGentle(db: Db, acl: nat, rules: seq<RuleInput>, list: ListName)
    requires IdsFresh(db) && acl in db.acls
    ensures Gentle(db, ReplaceRules(db, db.acls[acl].kind, acl, rules), list, true)
  {
    var after := ReplaceRules(db, db.acls[acl].kind, acl, rules);
    forall a | a in db.acls
      ensures ListRows(after, a) == ListRows(db, a) || AllPending(ListRows(after, a))
      ensures RulesPersist(db, after, a)
    {
      ReplacedRows(db, acl, rules, a);
    }
    forall a, k: Kind | Called(after, a, list) && k != after.acls[a].kind
      ensures RowsOf(after, k, a) == RowsOf(db, k, a)
    {
      ReplacedElsewhere(db, acl, rules, a, k);
    }
  }

  lemma ReplacedElsewhere(db: Db, acl: nat, rules: seq<RuleInput>, a: nat, k: Kind)
    requires IdsFresh(db) && acl in db.acls && a in db.acls && k != db.acls[a].kind
    ensures RowsOf(ReplaceRules(db, db.acls[acl].kind, acl, rules), k, a) == RowsOf(db, k, a)
  {
    if k == db.acls[acl].kind {
      OthersReplaced(db, acl, rules, a, k);
    }
  }

  /** Bindings and counters do not matter to the lists. */
  lemma SameListsGentle(db: Db, middle: Db, after: Db, list: ListName, care: bool)
    requires Gentle(db, middle, list, care) && after.acls == middle.acls && after.rules == middle.rules
    ensures Gentle(db, after, list, care)
  {
    assert forall a, k: Kind :: RowsOf(after, k, a) == RowsOf(middle, k, a);
    assert forall a :: Called(after, a, list) <==> Called(middle, a, list);
    if care {
      forall a | Called(db, a, list)
        ensures RulesPersist(db, after, a)
      {
        assert Called(middle, a, list) && RulesPersist(db, middle, a);
      }
    }
  }

  lemma UnchangedGentle(db: Db, list: ListName)
    ensures Gentle(db, db, list, true)
  {
  }

  /** A list that is pending_apply is dropped when deleted or renamed. */
  predicate KeptWhenDeleted(db: Db, acl: nat, list: ListName) {
    Called(db, acl, list) ==> !db.acls[acl].status.PendingApply?
  }

  lemma DropListGentle(db: Db, acl: nat, list: ListName)
    requires acl in db.acls && db.acls[acl].status.PendingApply?
    ensures Gentle(db, SoftDelete(db, acl), list, !Called(db, acl, list))
  {
    var after := SoftDelete(db, acl);
    forall a, k: Kind | a != acl
      ensures RowsOf(after, k, a) == RowsOf(db, k, a)
    {
    }
    assert forall a :: Called(after, a, list) <==> Called(db, a, list) && a != acl;
    if !Called(db, acl, list) {
      forall a | Called(db, a, list)
        ensures RulesPersist(db, after, a)
      {
        assert Called(after, a, list) && ListRows(after, a) == ListRows(db, a);
      }
    }
  }

  lemma DeleteOneGentle(db: Db, ifaces: Inventory, acl: nat, list: ListName)
    requires Sound(db, ifaces)
    ensures Gentle(db, DeleteOne(db, acl), list, KeptWhenDeleted(db, acl, list))
  {
    if acl in db.acls {
      var marked := MarkList(db, acl);
      MarkedGentle(db, acl, marked, list);
      MarkListSound(db, ifaces, acl);
      if db.acls[acl].status.PendingApply? {
        DropListGentle(marked, acl, list);
      } else {
        SetListGentle(marked, acl, db.acls[acl].(status := PendingDelete), list);
      }
      GentleTrans(db, marked, DeleteOne(db, acl), list, true, KeptWhenDeleted(db, acl, list));
    } else {
      UnchangedGentle(db, list);
    }
  }

  lemma FinishSaveGentle(
    db: Db, ifaces: Inventory, p: Payload, acl: nat, rules: bool, bindings: seq<BindingInput>, bind: bool, list: ListName)
    requires IdsFresh(db) && acl in db.acls && db.acls[acl].kind == p.kind
    requires FinishSave(db, ifaces, p, acl, rules, bindings, bind).Some?
    ensures Gentle(db, FinishSave(db, ifaces, p, acl, rules, bindings, bind).value, list, true)
  {
    var ruled := if rules then ReplaceRules(db, p.kind, acl, p.rules) else db;
    if rules { ReplaceRulesGentle(db, acl, p.rules, list); } else { UnchangedGentle(db, list); }
    FinishedLists(db, ifaces, p, acl, rules, bindings, bind, ruled);
    SameListsGentle(db, ruled, FinishSave(db, ifaces, p, acl, rules, bindings, bind).value, list, true);
  }

  /** Bindings are replaced after the rules and change no list. */
  lemma FinishedLists(db: Db, ifaces: Inventory, p: Payload, acl: nat, rules: bool, bindings: seq<BindingInput>, bind: bool, ruled: Db)
    requires ruled == if rules then ReplaceRules(db, p.kind, acl, p.rules) else db
    requires FinishSave(db, ifaces, p, acl, rules, bindings, bind).Some?
    ensures var after := FinishSave(db, ifaces, p, acl, rules, bindings, bind).value;
      after.acls == ruled.acls && after.rules == ruled.rules
  {
  }

  /** The list the save goes to, if it exists, is of the submitted type. */
  ghost predicate NameHasKind(db: Db, p: Payload, list: ListName) {
    list == ListName(p.host, p.name) ==> forall a :: Called(db, a, list) ==> db.acls[a].kind == p.kind
  }

  lemma CreateOrReviveGentle(db: Db, ifaces: Inventory, p: Payload, list: ListName)
    requires Sound(db, ifaces)
    ensures var r := CreateOrRevive(db, p.host, p.name, p.kind, p.description);
      r.At? ==> Gentle(db, r.db, list, NameHasKind(db, p, list))
  {
    var r := CreateOrRevive(db, p.host, p.name, p.kind, p.description);
    if r.At? {
      if exists a :: Named(db, a, p.host, p.name) {
        var marked := MarkList(db, r.acl);
        MarkedGentle(db, r.acl, marked, list);
        MarkListSound(db, ifaces, r.acl);
        SetListGentle(marked, r.acl, r.db.acls[r.acl], list);
        GentleTrans(db, marked, r.db, list, true, NameHasKind(db, p, list));
      } else {
        NewListGentle(db, AclRow(p.host, p.name, p.kind, p.description, 1, PendingApply), list);
      }
    }
  }

  lemma SaveLocatedGentle(db: Db, ifaces: Inventory, p: Payload, bindings: seq<BindingInput>, bind: bool, list: ListName)
    requires Sound(db, ifaces)
    ensures var at := CreateOrRevive(db, p.host, p.name, p.kind, p.description);
      at.At? ==> var r := FinishSave(at.db, ifaces, p, at.acl, true, bindings, bind);
        r.Some? ==> Gentle(db, r.value, list, NameHasKind(db, p, list))
  {
    var at := CreateOrRevive(db, p.host, p.name, p.kind, p.description);
    if at.At? {
      CreateOrReviveGentle(db, ifaces, p, list);
      CreateOrReviveSound(db, ifaces, p.host, p.name, p.kind, p.description);
      var r := FinishSave(at.db, ifaces, p, at.acl, true, bindings, bind);
      if r.Some? {
        FinishSaveGentle(at.db, ifaces, p, at.acl, true, bindings, bind, list);
        GentleTrans(db, at.db, r.value, list, NameHasKind(db, p, list), true);
      }
    }
  }

  /** A save under the old name, after the old rules were queued if the type changes. */
  lemma SaveInPlaceGentle(
    db: Db, ifaces: Inventory, p: Payload, row: AclRow, rules: bool, bindings: seq<BindingInput>, bind: bool, list: ListName)
    requires Sound(db, ifaces) && Existing(db, p.aclId) && NameOf(row) == NameOf(db.acls[p.aclId]) && row.kind == p.kind
    ensures var r := FinishSave(SetList(db, p.aclId, row), ifaces, p, p.aclId, rules, bindings, bind);
      r.Some? ==> Gentle(db, r.value, list, Called(db, p.aclId, list) ==> row.kind == db.acls[p.aclId].kind)
  {
    var listed := SetList(db, p.aclId, row);
    var r := FinishSave(listed, ifaces, p, p.aclId, rules, bindings, bind);
    SetListGentle(db, p.aclId, row, list);
    if r.Some? {
      FinishSaveGentle(listed, ifaces, p, p.aclId, rules, bindings, bind, list);
      GentleTrans(db, listed, r.value, list, Called(db, p.aclId, list) ==> row.kind == db.acls[p.aclId].kind, true);
    }
  }

  /** The save neither changes the type of the list nor drops it. */
  ghost predicate SaveKeeps(db: Db, p: Payload, list: ListName) {
    if p.aclId <= 0 then NameHasKind(db, p, list)
    else
      Existing(db, p.aclId) && !p.descriptionOnly ==>
        if SameIdentity(db.acls[p.aclId], p) then Called(db, p.aclId, list) ==> db.acls[p.aclId].kind == p.kind
        else KeptWhenDeleted(db, p.aclId, list) && NameHasKind(db, p, list)
  }

  lemma SaveGentle(db: Db, ifaces: Inventory, p: Payload, list: ListName)
    requires Sound(db, ifaces) && SaveAcl(db, ifaces, p).Some?
    ensures Gentle(db, SaveAcl(db, ifaces, p).value, list, SaveKeeps(db, p, list))
  {
    if p.aclId <= 0 {
      SaveLocatedGentle(db, ifaces, p, OrNone(p.bindings), p.bindingChanged, list);
    } else {
      var row := db.acls[p.aclId];
      if p.descriptionOnly {
        SetListGentle(db, p.aclId, row.(description := p.description, actionCfg := 1, status := PendingApply), list);
      } else if SameIdentity(row, p) && row.kind == p.kind {
        var actionCfg := if row.description != p.description then 1 else row.actionCfg;
        SaveInPlaceGentle(db, ifaces, p, row.(description := p.description, actionCfg := actionCfg, status := PendingApply),
                          p.rulesChanged, OrNone(p.bindings), p.bindingChanged, list);
      } else if SameIdentity(row, p) {
        RetypeGentle(db, ifaces, p, list);
      } else {
        RenameGentle(db, ifaces, p, list);
      }
    }
  }

  lemma RetypeGentle(db: Db, ifaces: Inventory, p: Payload, list: ListName)
    requires Sound(db, ifaces) && SaveAcl(db, ifaces, p).Some? && Existing(db, p.aclId) && !p.descriptionOnly
    requires SameIdentity(db.acls[p.aclId], p) && db.acls[p.aclId].kind != p.kind
    ensures Gentle(db, SaveAcl(db, ifaces, p).value, list, !Called(db, p.aclId, list))
  {
    var acl: nat := p.aclId;
    var row := db.acls[acl];
    var bindings := if p.bindings.None? then ReadBindings(db.bindings, acl, db.nextBinding) else p.bindings.value;
    var marked := db.(rules := MarkRules(db.rules, row.kind, acl));
    MarkedGentle(db, acl, marked, list);
    MarkRulesSound(db, ifaces, row.kind, acl);
    SaveInPlaceGentle(marked, ifaces, p, row.(kind := p.kind, description := p.description, status := PendingApply, actionCfg := 1),
                      true, bindings, true, list);
    GentleTrans(db, marked, SaveAcl(db, ifaces, p).value, list, true, !Called(db, acl, list));
  }

  lemma RenameGentle(db: Db, ifaces: Inventory, p: Payload, list: ListName)
    requires Sound(db, ifaces) && SaveAcl(db, ifaces, p).Some? && Existing(db, p.aclId) && !p.descriptionOnly
    requires !SameIdentity(db.acls[p.aclId], p)
    ensures Gentle(db, SaveAcl(db, ifaces, p).value, list, KeptWhenDeleted(db, p.aclId, list) && NameHasKind(db, p, list))
  {
    var acl: nat := p.aclId;
    var bindings := if p.bindings.None? then ReadBindings(db.bindings, acl, db.nextBinding) else p.bindings.value;
    DeleteOneGentle(db, ifaces, acl, list);
    DeleteOneSound(db, ifaces, acl);
    SaveLocatedGentle(DeleteOne(db, acl), ifaces, p, bindings, true, list);
    SavedAfterDeletion(db, DeleteOne(db, acl), SaveAcl(db, ifaces, p).value, acl, p, list);
  }

  lemma SavedAfterDeletion(db: Db, dropped: Db, after: Db, acl: nat, p: Payload, list: ListName)
    requires dropped == DeleteOne(db, acl) && Gentle(db, dropped, list, KeptWhenDeleted(db, acl, list))
    requires Gentle(dropped, after, list, NameHasKind(dropped, p, list))
    ensures Gentle(db, after, list, KeptWhenDeleted(db, acl, list) && NameHasKind(db, p, list))
  {
    if NameHasKind(db, p, list) { DeletedHasKind(db, acl, p, list); }
    GentleTrans(db, dropped, after, list, KeptWhenDeleted(db, acl, list), NameHasKind(dropped, p, list));
  }

  lemma DeletedHasKind(db: Db, acl: nat, p: Payload, list: ListName)
    requires NameHasKind(db, p, list)
    ensures NameHasKind(DeleteOne(db, acl), p, list)
  {
  }

  lemma SaveBindingsGentle(db: Db, ifaces: Inventory, acl: int, bindings: seq<BindingInput>, list: ListName)
    requires Sound(db, ifaces) && SaveAclBindings(db, ifaces, acl, bindings).Some?
    ensures Gentle(db, SaveAclBindings(db, ifaces, acl, bindings).value, list, true)
  {
    var listed := SetList(db, acl, db.acls[acl].(status := PendingApply));
    SetListGentle(db, acl, db.acls[acl].(status := PendingApply), list);
    SameListsGentle(db, listed, SaveAclBindings(db, ifaces, acl, bindings).value, list, true);
  }

  predicate DeleteKeeps(db: Db, acls: seq<nat>, list: ListName) {
    forall a :: a in acls ==> KeptWhenDeleted(db, a, list)
  }

  lemma {:induction false} DeletedNames(db: Db, acls: seq<nat>)
    requires NoRepeats(acls)
    ensures forall a :: a in DeleteAll(db, acls).acls <==> a in db.acls && !(a in acls && db.acls[a].status.PendingApply?)
    ensures forall a :: a in DeleteAll(db, acls).acls ==> NameOf(DeleteAll(db, acls).acls[a]) == NameOf(db.acls[a])
    ensures forall a :: a !in acls && a in db.acls ==> DeleteAll(db, acls).acls[a] == db.acls[a]
  {
    if acls != [] {
      var n := |acls| - 1;
      assert acls == acls[..n] + [acls[n]] && acls[n] !in acls[..n];
      DeletedNames(db, acls[..n]);
    }
  }

  lemma {:induction false} DeleteAllGentle(db: Db, ifaces: Inventory, acls: seq<nat>, list: ListName)
    requires Sound(db, ifaces) && NoRepeats(acls)
    ensures Sound(DeleteAll(db, acls), ifaces) && Gentle(db, DeleteAll(db, acls), list, DeleteKeeps(db, acls, list))
  {
    if acls == [] {
      UnchangedGentle(db, list);
    } else {
      var n := |acls| - 1;
      assert acls == acls[..n] + [acls[n]] && acls[n] !in acls[..n];
      DeleteAllGentle(db, ifaces, acls[..n], list);
      DeletedNames(db, acls[..n]);
      DeleteLastGentle(db, ifaces, DeleteAll(db, acls[..n]), acls, list);
    }
  }

  lemma DeleteLastGentle(db: Db, ifaces: Inventory, before: Db, acls: seq<nat>, list: ListName)
    requires acls != [] && Sound(before, ifaces) && Gentle(db, before, list, DeleteKeeps(db, acls[..|acls| - 1], list))
    requires var last := acls[|acls| - 1];
      (last in before.acls <==> last in db.acls) && (last in db.acls ==> before.acls[last] == db.acls[last])
    ensures var after := DeleteOne(before, acls[|acls| - 1]);
      Sound(after, ifaces) && Gentle(db, after, list, DeleteKeeps(db, acls, list))
  {
    var n, last := |acls| - 1, acls[|acls| - 1];
    DeleteOneGentle(before, ifaces, last, list);
    DeleteOneSound(before, ifaces, last);
    GentleTrans(db, before, DeleteOne(before, last), list, DeleteKeeps(db, acls[..n], list), KeptWhenDeleted(before, last, list));
    assert DeleteKeeps(db, acls, list) ==> KeptWhenDeleted(db, last, list) && DeleteKeeps(db, acls[..n], list);
  }

  lemma {:induction false} WantedDistinct(ids: seq<int>)
    ensures NoRepeats(Wanted(ids))
  {
    if ids != [] {
      WantedDistinct(ids[..|ids| - 1]);
    }
  }

  // ---------------------------------------------------------------------
  // Runs
  // ---------------------------------------------------------------------

  datatype Action =
    | Save(p: Payload)
    | SaveBindings(acl: int, list: seq<BindingInput>)
    | Delete(ids: seq<int>)
    | Push(host: string)
    | PushFails(host: string, applied: seq<Command>)

  function OrElse(o: Option<Db>, db: Db): Db {
    if o.Some? then o.value else db
  }

  /** Rejected edits change nothing. A failed push changes no row; of its commands
      the device applied some. */
  ghost function After(w: World, ifaces: Inventory, action: Action): World {
    match action
    case Save(p) => w.(db := OrElse(SaveAcl(w.db, ifaces, p), w.db))
    case SaveBindings(acl, list) => w.(db := OrElse(SaveAclBindings(w.db, ifaces, acl, list), w.db))
    case Delete(ids) => w.(db := OrElse(DeleteAcls(w.db, ids), w.db))
    case Push(host) => PushHost(w, host)
    case PushFails(host, applied) => if PartOfBatch(w.db, host, applied) then w.(dev := Exec(w.dev, applied)) else w
  }

  ghost function RunActions(w: World, ifaces: Inventory, actions: seq<Action>): World {
    if actions == [] then w
    else After(RunActions(w, ifaces, actions[..|actions| - 1]), ifaces, actions[|actions| - 1])
  }

  const EMPTY := World(
    Db(map[], NO_RULES, map[], 1, FIRST_IDS, 1), map[])

  lemma StepSound(w: World, ifaces: Inventory, action: Action)
    requires Sound(w.db, ifaces)
    ensures Sound(After(w, ifaces, action).db, ifaces)
  {
    match action
    case Save(p) =>
      if SaveAcl(w.db, ifaces, p).Some? { SaveAclSound(w.db, ifaces, p); }
    case SaveBindings(acl, list) =>
      if SaveAclBindings(w.db, ifaces, acl, list).Some? { SaveAclBindingsSound(w.db, ifaces, acl, list); }
    case Delete(ids) =>
      DeleteAllSound(w.db, ifaces, Wanted(ids));
    case Push(host) =>
      PushSound(w.db, ifaces, host);
    case PushFails(_, _) =>
  }

  /** In every run whatever: names stay unique per host, also among lists
      awaiting deletion, interfaces stay unique per direction, and no push is
      blocked by a binding to another host's interface. */
  lemma {:induction false} EveryRunSound(ifaces: Inventory, actions: seq<Action>)
    ensures var db := RunActions(EMPTY, ifaces, actions).db;
      Sound(db, ifaces) && forall a :: a in db.acls ==> BindingsOnHost(db, ifaces, a)
  {
    if actions != [] {
      EveryRunSound(ifaces, actions[..|actions| - 1]);
      StepSound(RunActions(EMPTY, ifaces, actions[..|actions| - 1]), ifaces, actions[|actions| - 1]);
    }
  }

  /** The step neither drops the list of that name nor changes its type. */
  ghost predicate KeepsList(db: Db, ifaces: Inventory, action: Action, list: ListName) {
    match action
    case Save(p) => SaveAcl(db, ifaces, p).Some? ==> SaveKeeps(db, p, list)
    case Delete(ids) => DeleteAcls(db, ids).Some? ==> DeleteKeeps(db, Wanted(ids), list)
    case _ => true
  }

  /** What the step has to respect for the sake of one list: it keeps the list,
      unless the device holds nothing of it, and is no successful push of its host
      while it cannot be rendered. Anything may happen to other lists. */
  ghost predicate Careful(w: World, ifaces: Inventory, action: Action, list: ListName) {
    && (KeepsList(w.db, ifaces, action, list) || On(w.dev, list) == ABSENT)
    && (action == Push(list.host) ==> RenderableAt(w.db, list))
  }

  lemma StepInv(w: World, ifaces: Inventory, action: Action, list: ListName)
    requires Inv(w, ifaces, list) && Careful(w, ifaces, action, list)
    ensures Inv(After(w, ifaces, action), ifaces, list)
  {
    match action
    case Save(p) =>
      if SaveAcl(w.db, ifaces, p).Some? { SaveStepInv(w, ifaces, p, list); }
    case SaveBindings(acl, bindings) =>
      if SaveAclBindings(w.db, ifaces, acl, bindings).Some? { SaveBindingsStepInv(w, ifaces, acl, bindings, list); }
    case Delete(ids) =>
      if DeleteAcls(w.db, ids).Some? { DeleteStepInv(w, ifaces, ids, list); }
    case Push(host) =>
      PushKeeps(w, ifaces, host, list);
    case PushFails(host, applied) =>
      if PartOfBatch(w.db, host, applied) { FailedPushKeeps(w, ifaces, host, applied, list); }
  }

  lemma SaveStepInv(w: World, ifaces: Inventory, p: Payload, list: ListName)
    requires Inv(w, ifaces, list) && SaveAcl(w.db, ifaces, p).Some? && (SaveKeeps(w.db, p, list) || On(w.dev, list) == ABSENT)
    ensures Inv(w.(db := SaveAcl(w.db, ifaces, p).value), ifaces, list)
  {
    SaveAclSound(w.db, ifaces, p);
    SaveGentle(w.db, ifaces, p, list);
    EditKeeps(w, ifaces, SaveAcl(w.db, ifaces, p).value, list);
  }

  lemma SaveBindingsStepInv(w: World, ifaces: Inventory, acl: int, bindings: seq<BindingInput>, list: ListName)
    requires Inv(w, ifaces, list) && SaveAclBindings(w.db, ifaces, acl, bindings).Some?
    ensures Inv(w.(db := SaveAclBindings(w.db, ifaces, acl, bindings).value), ifaces, list)
  {
    SaveAclBindingsSound(w.db, ifaces, acl, bindings);
    SaveBindingsGentle(w.db, ifaces, acl, bindings, list);
    EditKeeps(w, ifaces, SaveAclBindings(w.db, ifaces, acl, bindings).value, list);
  }

  lemma DeleteStepInv(w: World, ifaces: Inventory, ids: seq<int>, list: ListName)
    requires Inv(w, ifaces, list) && (DeleteKeeps(w.db, Wanted(ids), list) || On(w.dev, list) == ABSENT)
    ensures Inv(w.(db := DeleteAll(w.db, Wanted(ids))), ifaces, list)
  {
    WantedDistinct(ids);
    DeleteAllGentle(w.db, ifaces, Wanted(ids), list);
    EditKeeps(w, ifaces, DeleteAll(w.db, Wanted(ids)), list);
  }

  ghost predicate CarefulRun(ifaces: Inventory, actions: seq<Action>, list: ListName) {
    forall i :: 0 <= i < |actions| ==> Careful(RunActions(EMPTY, ifaces, actions[..i]), ifaces, actions[i], list)
  }

  lemma {:induction false} CarefulRunInv(ifaces: Inventory, actions: seq<Action>, list: ListName)
    requires CarefulRun(ifaces, actions, list)
    ensures Inv(RunActions(EMPTY, ifaces, actions), ifaces, list)
  {
    if actions != [] {
      var n := |actions| - 1;
      forall i | 0 <= i < n
        ensures Careful(RunActions(EMPTY, ifaces, actions[..n][..i]), ifaces, actions[..n][i], list)
      {
        assert actions[..n][..i] == actions[..i];
      }
      CarefulRunInv(ifaces, actions[..n], list);
      StepInv(RunActions(EMPTY, ifaces, actions[..n]), ifaces, actions[n], list);
    }
  }

  /** After any run of edits, pushes and failed pushes of any lists and hosts that
      was careful with the list of one name, one successful push leaves its device
      with exactly its visible rules and nothing pending, or with nothing under the
      name if the list is gone. */
  lemma RunConverges(ifaces: Inventory, actions: seq<Action>, list: ListName)
    requires CarefulRun(ifaces, actions, list) && RenderableAt(RunActions(EMPTY, ifaces, actions).db, list)
    ensures Converged(PushHost(RunActions(EMPTY, ifaces, actions), list.host), list)
  {
    CarefulRunInv(ifaces, actions, list);
    PushConverges(RunActions(EMPTY, ifaces, actions), ifaces, list);
  }

  // ---------------------------------------------------------------------
  // Where the run has to be careful
  // ---------------------------------------------------------------------

  /** A deleted list that was pending_apply is in no table. */
  lemma DroppedList(db: Db, acls: seq<nat>, list: ListName)
    requires NamesUnique(db) && NoRepeats(acls) && !DeleteKeeps(db, acls, list)
    ensures !HasList(DeleteAll(db, acls), list)
  {
    var a :| a in acls && !KeptWhenDeleted(db, a, list);
    DeletedNames(db, acls);
    forall b
      ensures !Called(DeleteAll(db, acls), b, list)
    {
      assert Called(DeleteAll(db, acls), b, list) ==> Called(db, b, list) && b == a;
    }
  }

  /** An accepted deletion strands what the device holds of a list exactly when it
      drops the row, because the list is pending_apply, and the device holds
      something. */
  lemma DeletionStrandsIff(w: World, ifaces: Inventory, ids: seq<int>, list: ListName)
    requires Inv(w, ifaces, list) && DeleteAcls(w.db, ids).Some?
    ensures Inv(After(w, ifaces, Delete(ids)), ifaces, list)
       <==> DeleteKeeps(w.db, Wanted(ids), list) || On(w.dev, list) == ABSENT
  {
    if DeleteKeeps(w.db, Wanted(ids), list) || On(w.dev, list) == ABSENT {
      DeleteStepInv(w, ifaces, ids, list);
    } else {
      WantedDistinct(ids);
      DroppedList(w.db, Wanted(ids), list);
    }
  }

  /** An accepted save under another name or host does so on the same condition. */
  lemma RenameStrandsIff(w: World, ifaces: Inventory, p: Payload, list: ListName)
    requires Inv(w, ifaces, list) && SaveAcl(w.db, ifaces, p).Some?
    requires Existing(w.db, p.aclId) && !p.descriptionOnly && Called(w.db, p.aclId, list) && !SameIdentity(w.db.acls[p.aclId], p)
    ensures Inv(After(w, ifaces, Save(p)), ifaces, list)
       <==> !w.db.acls[p.aclId].status.PendingApply? || On(w.dev, list) == ABSENT
  {
    if !w.db.acls[p.aclId].status.PendingApply? || On(w.dev, list) == ABSENT {
      SaveStepInv(w, ifaces, p, list);
    } else {
      RenamedAway(w.db, ifaces, p, list);
    }
  }

  lemma RenamedAway(db: Db, ifaces: Inventory, p: Payload, list: ListName)
    requires NamesUnique(db) && SaveAcl(db, ifaces, p).Some? && Existing(db, p.aclId) && db.acls[p.aclId].status.PendingApply?
    requires !p.descriptionOnly && Called(db, p.aclId, list) && !SameIdentity(db.acls[p.aclId], p)
    ensures !HasList(SaveAcl(db, ifaces, p).value, list)
  {
    var acl: nat := p.aclId;
    var dropped := DeleteOne(db, acl);
    var at := CreateOrRevive(dropped, p.host, p.name, p.kind, p.description);
    var bindings := if p.bindings.None? then ReadBindings(db.bindings, acl, db.nextBinding) else p.bindings.value;
    FinishedLists(at.db, ifaces, p, at.acl, true, bindings, true, ReplaceRules(at.db, p.kind, at.acl, p.rules));
    LocatedNames(dropped, p, at, list);
    assert forall a :: Called(dropped, a, list) ==> Called(db, a, list) && a == acl;
  }

  lemma LocatedNames(db: Db, p: Payload, at: Located, list: ListName)
    requires at == CreateOrRevive(db, p.host, p.name, p.kind, p.description) && at.At? && list != ListName(p.host, p.name)
    ensures forall a :: Called(at.db, a, list) ==> Called(db, a, list)
  {
  }

  lemma OneWanted(id: nat)
    requires id > 0
    ensures Wanted([id]) == [id]
  {
    assert [id as int][..0] == [];
  }

  /** Every accepted edit in place arms that case: right after its deletion, the
      edited list is on the device and in no table. */
  lemma EditThenDeleteStrands(w: World, ifaces: Inventory, p: Payload, saved: World)
    requires Sound(w.db, ifaces) && Existing(w.db, p.aclId) && SaveAcl(w.db, ifaces, p).Some?
    requires SameIdentity(w.db.acls[p.aclId], p) && w.db.acls[p.aclId].kind == p.kind
    requires saved == After(w, ifaces, Save(p))
    ensures var end := After(saved, ifaces, Delete([p.aclId]));
      !HasList(end.db, ListName(p.host, p.name)) && end.dev == w.dev
  {
    var acl: nat := p.aclId;
    SaveAclSound(w.db, ifaces, p);
    SavedInPlace(w.db, ifaces, p);
    OneWanted(acl);
    assert [acl][0] == acl && !KeptWhenDeleted(saved.db, acl, ListName(p.host, p.name));
    DroppedList(saved.db, [acl], ListName(p.host, p.name));
  }

  lemma SavedInPlace(db: Db, ifaces: Inventory, p: Payload)
    requires Existing(db, p.aclId) && SaveAcl(db, ifaces, p).Some?
    requires SameIdentity(db.acls[p.aclId], p) && db.acls[p.aclId].kind == p.kind
    ensures var saved := SaveAcl(db, ifaces, p).value;
      Existing(saved, p.aclId) && saved.acls[p.aclId].status.PendingApply? && NameOf(saved.acls[p.aclId]) == NameOf(db.acls[p.aclId])
  {
  }

  ghost predicate NumberTaken(rows: Rows, s: nat) {
    exists id :: id in rows && SequenceOf(rows, id) == s
  }

  /** Changing the type of a list hides its old rules from the collector: a push
      then shows the new rules exactly when each number still on the device is
      taken by one of them (and they can be rendered at all). */
  lemma RetypedPushShowsIff(kind: Kind, rows: Rows, st: ListState)
    requires !kind.Mac? && st.entries == {} && forall id :: id in rows ==> rows[id].status.PendingApply?
    ensures Shows(kind, rows, Pushed(kind, rows, st))
       <==> Renderable(kind, rows) && forall s :: s in st.lines ==> NumberTaken(rows, s)
  {
    var c := Collect(rows, false, PendingQuery(rows));
    var r := Pushed(kind, rows, st);
    PushEffect(kind, rows, st);
    CollectedLines(rows);
    assert forall l :: !LineFrom(rows, PendingDelete, l);
    forall s
      ensures Numbers(c.add, s) <==> NumberTaken(rows, s)
    {
      if NumberTaken(rows, s) {
        var id :| id in rows && SequenceOf(rows, id) == s;
        PendingLine(rows, id);
      }
    }
    if Shows(kind, rows, r) {
      forall i, j | i in VisibleIds(rows) && j in VisibleIds(rows) && SequenceOf(rows, i) == SequenceOf(rows, j)
        ensures rows[i].text == rows[j].text
      {
        assert OnDevice(kind, i, rows[i], r) && OnDevice(kind, j, rows[j], r);
      }
      forall s | s in st.lines
        ensures NumberTaken(rows, s)
      {
        assert s in r.lines;
        var id :| id in VisibleIds(rows) && RowAt(rows, id, s, r.lines[s]);
        assert id in rows && SequenceOf(rows, id) == s;
      }
    } else if Renderable(kind, rows) && forall s :: s in st.lines ==> NumberTaken(rows, s) {
      RetypedShows(kind, rows, st);
    }
  }

  lemma RetypedShows(kind: Kind, rows: Rows, st: ListState)
    requires !kind.Mac? && st.entries == {} && forall id :: id in rows ==> rows[id].status.PendingApply?
    requires Renderable(kind, rows) && forall s :: s in st.lines ==> NumberTaken(rows, s)
    ensures Shows(kind, rows, Pushed(kind, rows, st))
  {
    var c := Collect(rows, false, PendingQuery(rows));
    var r := Pushed(kind, rows, st);
    PushEffect(kind, rows, st);
    forall s | s in r.lines
      ensures Numbers(c.add, s)
    {
      if s in st.lines {
        var id :| id in rows && SequenceOf(rows, id) == s;
        PendingLine(rows, id);
      }
    }
    forall s | s in r.lines
      ensures exists id :: id in VisibleIds(rows) && RowAt(rows, id, s, r.lines[s])
    {
      AddedLineText(rows, s, r.lines[s]);
    }
    forall id | id in VisibleIds(rows)
      ensures OnDevice(kind, id, rows[id], r)
    {
      PendingLine(rows, id);
      AddedLineText(rows, SequenceOf(rows, id), r.lines[SequenceOf(rows, id)]);
    }
  }

  /** After a successful push a list is collected again exactly when a change of
      type left rows of it in another rule table: those are tracked by no task. */
  lemma CollectedAgainIff(db: Db, ifaces: Inventory, host: string, acl: nat)
    requires Sound(db, ifaces) && acl in db.acls && db.acls[acl].host == host && !db.acls[acl].status.PendingDelete?
    ensures var after := Apply(db, HostTracking(db, host));
      acl in after.acls
      && (NeedsPush(after, acl) <==> exists k: Kind :: k != db.acls[acl].kind && RowsOf(db, k, acl) != map[])
  {
    AppliedSettled(db, ifaces, host, acl);
    var after := Apply(db, HostTracking(db, host));
    forall k: Kind
      ensures PendingIds(RowsOf(after, k, acl)) != {} <==> k != db.acls[acl].kind && RowsOf(db, k, acl) != map[]
    {
      AppliedPending(db, ifaces, host, acl, k);
    }
  }

  lemma AppliedSettled(db: Db, ifaces: Inventory, host: string, acl: nat)
    requires Sound(db, ifaces) && acl in db.acls && db.acls[acl].host == host && !db.acls[acl].status.PendingDelete?
    ensures var after := Apply(db, HostTracking(db, host));
      acl in after.acls && !after.acls[acl].status.Pending() && PendingBindings(after, acl) == {}
  {
    AppliedAcls(db, host);
    AppliedBindings(db, host);
  }

  lemma AppliedPending(db: Db, ifaces: Inventory, host: string, acl: nat, k: Kind)
    requires Sound(db, ifaces) && acl in db.acls && db.acls[acl].host == host && !db.acls[acl].status.PendingDelete?
    ensures PendingIds(RowsOf(Apply(db, HostTracking(db, host)), k, acl)) != {}
       <==> k != db.acls[acl].kind && RowsOf(db, k, acl) != map[]
  {
    var before, after := RowsOf(db, k, acl), RowsOf(Apply(db, HostTracking(db, host)), k, acl);
    forall id
      ensures id in PendingIds(after) <==> id in before && k != db.acls[acl].kind
    {
      AppliedPendingRow(db, ifaces, host, acl, k, id);
    }
    if k != db.acls[acl].kind && before != map[] {
      var id :| id in before;
      assert id in PendingIds(after);
    }
  }

  lemma AppliedPendingRow(db: Db, ifaces: Inventory, host: string, acl: nat, k: Kind, id: nat)
    requires Sound(db, ifaces) && acl in db.acls && db.acls[acl].host == host && !db.acls[acl].status.PendingDelete?
    ensures id in PendingIds(RowsOf(Apply(db, HostTracking(db, host)), k, acl))
       <==> id in RowsOf(db, k, acl) && k != db.acls[acl].kind
  {
    assert Apply(db, HostTracking(db, host)).rules.Get(k) == ApplyRules(db.rules.Get(k), k, HostTracking(db, host));
    if id in db.rules.Get(k) {
      AppliedRule(db, host, k, id);
    }
  }

  lemma PushTidy(db: Db, host: string, list: ListName)
    requires Tidy(db, list)
    ensures Tidy(Apply(db, HostTracking(db, host)), list)
  {
    var after := Apply(db, HostTracking(db, host));
    AppliedAcls(db, host);
    forall a, k: Kind | Called(after, a, list) && k != after.acls[a].kind
      ensures RowsOf(after, k, a) == map[]
    {
      assert Called(db, a, list) && RowsOf(db, k, a) == map[];
      AppliedEmpty(db, HostTracking(db, host), k, a);
    }
  }

  lemma AppliedEmpty(db: Db, t: Tracking, k: Kind, a: nat)
    requires RowsOf(db, k, a) == map[]
    ensures RowsOf(Apply(db, t), k, a) == map[]
  {
    assert Apply(db, t).rules.Get(k) == ApplyRules(db.rules.Get(k), k, t);
    assert RowsOf(Apply(db, t), k, a).Keys <= RowsOf(db, k, a).Keys;
  }

  lemma EditTidy(db: Db, after: Db, list: ListName)
    requires Tidy(db, list) && NamesUnique(after) && Gentle(db, after, list, true)
    ensures Tidy(after, list)
  {
    forall a, k: Kind | Called(after, a, list) && k != after.acls[a].kind
      ensures RowsOf(after, k, a) == map[]
    {
      if Called(db, a, list) {
        assert after.acls[a].kind == db.acls[a].kind && RowsOf(db, k, a) == map[];
      }
    }
  }

  lemma StepTidy(w: World, ifaces: Inventory, action: Action, list: ListName)
    requires Sound(w.db, ifaces) && Tidy(w.db, list) && KeepsList(w.db, ifaces, action, list)
    ensures Tidy(After(w, ifaces, action).db, list)
  {
    StepSound(w, ifaces, action);
    match action
    case Save(p) =>
      if SaveAcl(w.db, ifaces, p).Some? {
        SaveGentle(w.db, ifaces, p, list);
        EditTidy(w.db, SaveAcl(w.db, ifaces, p).value, list);
      }
    case SaveBindings(acl, bindings) =>
      if SaveAclBindings(w.db, ifaces, acl, bindings).Some? {
        SaveBindingsGentle(w.db, ifaces, acl, bindings, list);
        EditTidy(w.db, SaveAclBindings(w.db, ifaces, acl, bindings).value, list);
      }
    case Delete(ids) =>
      if DeleteAcls(w.db, ids).Some? {
        WantedDistinct(ids);
        DeleteAllGentle(w.db, ifaces, Wanted(ids), list);
        EditTidy(w.db, DeleteAll(w.db, Wanted(ids)), list);
      }
    case Push(host) => PushTidy(w.db, host, list);
    case PushFails(_, _) =>
  }

  lemma {:induction false} RunTidy(ifaces: Inventory, actions: seq<Action>, list: ListName)
    requires forall i :: 0 <= i < |actions| ==> KeepsList(RunActions(EMPTY, ifaces, actions[..i]).db, ifaces, actions[i], list)
    ensures Tidy(RunActions(EMPTY, ifaces, actions).db, list)
  {
    if actions != [] {
      var n := |actions| - 1;
      forall i | 0 <= i < n
        ensures KeepsList(RunActions(EMPTY, ifaces, actions[..n][..i]).db, ifaces, actions[..n][i], list)
      {
        assert actions[..n][..i] == actions[..i];
      }
      RunTidy(ifaces, actions[..n], list);
      EveryRunSound(ifaces, actions[..n]);
      StepTidy(RunActions(EMPTY, ifaces, actions[..n]), ifaces, actions[n], list);
    }
  }

  /** After any run that kept a list and its type, whatever happened to others and
      whether or not it can be rendered, a successful push of its host leaves it
      with nothing to collect. */
  lemma NothingCollectedAgain(ifaces: Inventory, actions: seq<Action>, list: ListName)
    requires forall i :: 0 <= i < |actions| ==> KeepsList(RunActions(EMPTY, ifaces, actions[..i]).db, ifaces, actions[i], list)
    ensures var after := PushHost(RunActions(EMPTY, ifaces, actions), list.host).db;
      forall a :: Called(after, a, list) ==> !NeedsPush(after, a)
  {
    RunTidy(ifaces, actions, list);
    EveryRunSound(ifaces, actions);
    var w := RunActions(EMPTY, ifaces, actions);
    forall a | Called(PushHost(w, list.host).db, a, list)
      ensures !NeedsPush(PushHost(w, list.host).db, a)
    {
      CalledBefore(w, list.host, list, a);
      CollectedAgainIff(w.db, ifaces, list.host, a);
    }
  }
}
