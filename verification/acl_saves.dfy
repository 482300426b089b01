// What a save stores and when it is accepted, in terms of the request.

module AclSaves {
  import opened Common
  import opened AclLists
  import opened AclTables
  import opened AclEdits
  import opened AclPush
  import opened AclRuns

  // ---------------------------------------------------------------------
  // The request
  // ---------------------------------------------------------------------

  /** The save gives an existing list another host, name or type. */
  predicate ChangesIdentity(db: Db, p: Payload) {
    && p.aclId > 0 && p.aclId in db.acls && !p.descriptionOnly
    && (db.acls[p.aclId].host != p.host || db.acls[p.aclId].name != p.name || db.acls[p.aclId].kind != p.kind)
  }

  /** The save stores bindings anew; otherwise they stay. */
  predicate StoresBindings(db: Db, p: Payload) {
    if p.aclId <= 0 then p.bindingChanged
    else !p.descriptionOnly && (p.bindingChanged || ChangesIdentity(db, p))
  }

  /** The pairs the saved list is to show. An identity change without bindings keeps
      those shown before (interface ids are positive). */
  ghost predicate ToShow(db: Db, p: Payload, pair: Pair) {
    if p.aclId <= 0 then p.bindingChanged && p.bindings.Some? && Asked(p.bindings.value, pair)
    else if ChangesIdentity(db, p) then
      if p.bindings.Some? then Asked(p.bindings.value, pair) else pair.0 > 0 && Shown(db.bindings, p.aclId, pair)
    else if StoresBindings(db, p) then p.bindings.Some? && Asked(p.bindings.value, pair)
    else Shown(db.bindings, p.aclId, pair)
  }

  /** No list of the name, or one that awaits deletion. */
  predicate NameFree(db: Db, p: Payload) {
    forall a :: a in db.acls && Named(db, a, p.host, p.name) ==> db.acls[a].status.PendingDelete?
  }

  /** The save reaches a list: the one it names by id, a new one, or one that awaits
      deletion. */
  predicate Reaches(db: Db, p: Payload) {
    if p.aclId <= 0 then NameFree(db, p)
    else Existing(db, p.aclId) && (p.descriptionOnly || SameIdentity(db.acls[p.aclId], p) || NameFree(db, p))
  }

  /** The saved list: that of the id if it keeps its name, else the one of the name. */
  predicate Target(db: Db, p: Payload, saved: Db, a: nat) {
    if p.aclId > 0 && p.aclId in db.acls && (p.descriptionOnly || SameIdentity(db.acls[p.aclId], p)) then a == p.aclId
    else Named(saved, a, p.host, p.name)
  }

  // ---------------------------------------------------------------------
  // Bindings, step by step
  // ---------------------------------------------------------------------

  /** The bindings of `lists` were dropped or queued for deletion, and no other. */
  ghost predicate Cleared(before: BindingTable, after: BindingTable, lists: set<nat>) {
    && (forall a, pair :: a in lists ==> !Shown(after, a, pair))
    && (forall b :: b in before && before[b].aclId !in lists ==> b in after && after[b] == before[b])
    && (forall b :: b in after && after[b].aclId !in lists ==> b in before && after[b] == before[b])
    && (forall b :: b in after ==> b in before && PairOf(after[b]) == PairOf(before[b]) && after[b].aclId == before[b].aclId)
  }

  /** List `acl` shows exactly the wanted pairs, the other lists among `lists` none;
      any other list keeps its rows but for the pairs handed over. */
  ghost predicate StoredFor(before: BindingTable, after: BindingTable, lists: set<nat>, acl: nat, list: seq<BindingInput>) {
    && (forall pair :: Shown(after, acl, pair) <==> Asked(list, pair))
    && (forall a, pair :: a in lists && a != acl ==> !Shown(after, a, pair))
    && (forall b :: b in before && before[b].aclId !in lists && before[b].aclId != acl && !Asked(list, PairOf(before[b])) ==>
      b in after && after[b] == before[b])
    && (forall b :: b in after && after[b].aclId !in lists && after[b].aclId != acl ==> b in before && after[b] == before[b])
  }

  ghost predicate AllBindable(ifaces: Inventory, host: string, list: seq<BindingInput>) {
    forall pair: Pair :: Asked(list, pair) ==> Bindable(ifaces, host, pair.0)
  }

  lemma ClearedThenReplaced(before: BindingTable, db: Db, ifaces: Inventory, acl: nat, host: string, list: seq<BindingInput>, lists: set<nat>)
    requires Cleared(before, db.bindings, lists) && PairsUnique(db.bindings) && BelowNext(db.bindings, db.nextBinding)
    requires ReplaceBindings(db, ifaces, acl, host, list).Some?
    ensures StoredFor(before, ReplaceBindings(db, ifaces, acl, host, list).value.bindings, lists, acl, list)
  {
    BindingsReplaced(db, ifaces, acl, host, list);
    OthersAfterReplacing(db, ifaces, acl, host, list);
    var after := ReplaceBindings(db, ifaces, acl, host, list).value.bindings;
    forall a, pair | a in lists && a != acl
      ensures !Shown(after, a, pair)
    {
      assert !Shown(db.bindings, a, pair);
    }
  }

  lemma ClearedOnly(before: BindingTable, after: BindingTable, lists: set<nat>, acl: nat)
    requires Cleared(before, after, lists) && acl in lists
    ensures StoredFor(before, after, lists, acl, [])
  {
    assert forall pair :: !Asked([], pair);
  }

  lemma FinishStores(before: BindingTable, db: Db, ifaces: Inventory, p: Payload, acl: nat, rules: bool, list: seq<BindingInput>, bind: bool, lists: set<nat>)
    requires Cleared(before, db.bindings, lists) && PairsUnique(db.bindings) && BelowNext(db.bindings, db.nextBinding)
    ensures FinishSave(db, ifaces, p, acl, rules, list, bind).Some? <==> (bind ==> AllBindable(ifaces, p.host, list))
    ensures var r := FinishSave(db, ifaces, p, acl, rules, list, bind);
      r.Some? ==> if bind then StoredFor(before, r.value.bindings, lists, acl, list) else r.value.bindings == db.bindings
  {
    var ruled := if rules then ReplaceRules(db, p.kind, acl, p.rules) else db;
    BindingsAccepted(ruled, ifaces, acl, p.host, list);
    if ReplaceBindings(ruled, ifaces, acl, p.host, list).Some? {
      ClearedThenReplaced(before, ruled, ifaces, acl, p.host, list, lists);
    }
  }

  lemma MarkedCleared(bindings: BindingTable, acl: nat)
    ensures Cleared(bindings, MarkBindings(bindings, acl), {acl})
  {
  }

  lemma ClearedTrans(a: BindingTable, b: BindingTable, c: BindingTable, first: set<nat>, second: set<nat>)
    requires Cleared(a, b, first) && Cleared(b, c, second)
    ensures Cleared(a, c, first + second)
  {
    forall l, pair | l in first + second
      ensures !Shown(c, l, pair)
    {
      if l !in second {
        assert !Shown(b, l, pair);
      }
    }
  }

  lemma DeletedCleared(db: Db, acl: nat)
    ensures acl in db.acls ==> Cleared(db.bindings, DeleteOne(db, acl).bindings, {acl})
  {
    if acl in db.acls {
      MarkedCleared(db.bindings, acl);
    }
  }

  /** The pairs kept when an identity change submits none. */
  lemma {:induction false} PreservedAsked(bindings: BindingTable, acl: nat, n: nat, pair: Pair)
    ensures Asked(ReadBindings(bindings, acl, n), pair) <==>
            pair.0 > 0 && exists b: nat :: b < n && ShownBy(bindings, acl, b, pair)
  {
    if n > 0 {
      PreservedAsked(bindings, acl, n - 1, pair);
      if n - 1 in bindings && bindings[n - 1].aclId == acl && !bindings[n - 1].status.PendingDelete? {
        var last := BindingInput(bindings[n - 1].iface, bindings[n - 1].direction);
        AskedAppend(ReadBindings(bindings, acl, n - 1), last, pair);
        assert Usable(last, pair) <==> pair.0 > 0 && ShownBy(bindings, acl, n - 1, pair);
      } else {
        assert !ShownBy(bindings, acl, n - 1, pair);
      }
      forall b: nat | b < n && ShownBy(bindings, acl, b, pair)
        ensures b == n - 1 || b < n - 1
      {
      }
    }
  }

  predicate ShownBy(bindings: BindingTable, acl: nat, b: nat, pair: Pair) {
    b in bindings && PairOf(bindings[b]) == pair && bindings[b].aclId == acl && !bindings[b].status.PendingDelete?
  }

  lemma AskedAppend(rest: seq<BindingInput>, last: BindingInput, pair: Pair)
    ensures Asked(rest + [last], pair) <==> Asked(rest, pair) || Usable(last, pair)
  {
    var list := rest + [last];
    if i :| 0 <= i < |rest| && Usable(rest[i], pair) {
      assert Usable(list[i], pair);
    }
    if Usable(last, pair) {
      assert Usable(list[|rest|], pair);
    }
    if i :| 0 <= i < |list| && Usable(list[i], pair) {
      assert i < |rest| ==> Usable(rest[i], pair);
    }
  }

  lemma PreservedShown(db: Db, acl: nat)
    requires IdsFresh(db)
    ensures forall pair :: Asked(ReadBindings(db.bindings, acl, db.nextBinding), pair) <==> pair.0 > 0 && Shown(db.bindings, acl, pair)
  {
    forall pair
      ensures Asked(ReadBindings(db.bindings, acl, db.nextBinding), pair) <==> pair.0 > 0 && Shown(db.bindings, acl, pair)
    {
      PreservedAsked(db.bindings, acl, db.nextBinding, pair);
      if b :| b in db.bindings && PairOf(db.bindings[b]) == pair && db.bindings[b].aclId == acl && !db.bindings[b].status.PendingDelete? {
        assert b < db.nextBinding && ShownBy(db.bindings, acl, b, pair);
      }
    }
  }

  // ---------------------------------------------------------------------
  // Where the list comes from
  // ---------------------------------------------------------------------

  /** A list created or revived: its row, bindings that show nothing, no other change. */
  ghost predicate Located(db: Db, p: Payload, after: Db, a: nat) {
    && a in after.acls && after.acls[a] == AclRow(p.host, p.name, p.kind, p.description, 1, PendingApply)
    && (forall b :: b != a ==> (b in after.acls <==> b in db.acls) && (b in db.acls ==> after.acls[b] == db.acls[b]))
    && Cleared(db.bindings, after.bindings, {a}) && after.nextRule == db.nextRule && after.nextBinding == db.nextBinding
  }

  lemma LocatedEffect(db: Db, ifaces: Inventory, p: Payload)
    requires Sound(db, ifaces)
    ensures var at := CreateOrRevive(db, p.host, p.name, p.kind, p.description);
      (at.At? <==> NameFree(db, p)) && (at.At? ==> Located(db, p, at.db, at.acl))
  {
    var at := CreateOrRevive(db, p.host, p.name, p.kind, p.description);
    if a :| Named(db, a, p.host, p.name) {
      assert at.At? ==> at.acl == a;
      MarkedCleared(db.bindings, a);
    } else {
      NoBindingsOf(db, ifaces, db.nextAcl);
    }
  }

  lemma NoBindingsOf(db: Db, ifaces: Inventory, a: nat)
    requires Sound(db, ifaces) && a !in db.acls
    ensures Cleared(db.bindings, db.bindings, {a})
  {
  }

  /** A list deleted before the save under another name. */
  lemma DeletedEffect(db: Db, p: Payload, acl: nat)
    requires acl in db.acls && NamesUnique(db) && !SameIdentity(db.acls[acl], p)
    ensures var after := DeleteOne(db, acl);
      && Cleared(db.bindings, after.bindings, {acl}) && after.nextRule == db.nextRule && after.nextBinding == db.nextBinding
      && (NameFree(after, p) <==> NameFree(db, p))
      && (forall b :: b != acl ==> (b in after.acls <==> b in db.acls) && (b in db.acls ==> after.acls[b] == db.acls[b]))
      && (acl in after.acls <==> !db.acls[acl].status.PendingApply?)
      && (acl in after.acls ==> after.acls[acl] == db.acls[acl].(status := PendingDelete))
  {
    DeletedCleared(db, acl);
    var after := DeleteOne(db, acl);
    forall a
      ensures Named(after, a, p.host, p.name) <==> Named(db, a, p.host, p.name)
      ensures Named(db, a, p.host, p.name) ==> after.acls[a] == db.acls[a]
    {
    }
  }

  // ---------------------------------------------------------------------
  // Acceptance and bindings
  // ---------------------------------------------------------------------

  /** The bindings a save submits or keeps, as the program passes them on. */
  ghost function PassedOn(db: Db, p: Payload): seq<BindingInput> {
    if ChangesIdentity(db, p) && p.bindings.None? then ReadBindings(db.bindings, p.aclId, db.nextBinding) else OrNone(p.bindings)
  }

  lemma PassedOnShown(db: Db, p: Payload)
    requires IdsFresh(db) && StoresBindings(db, p)
    ensures forall pair :: Asked(PassedOn(db, p), pair) <==> ToShow(db, p, pair)
  {
    forall pair: Pair
      ensures Asked(PassedOn(db, p), pair) <==> ToShow(db, p, pair)
    {
      if ChangesIdentity(db, p) { PreservedShown(db, p.aclId); }
      assert !Asked([], pair);
    }
  }

  /** A save is accepted exactly when the request has a host, a name of up to 64
      letters, digits, dots, underscores and dashes, and valid rules with distinct
      sequences up to 65535; it reaches a list; and every pair it stores names an
      interface of the host that is not about to be deleted. */
  lemma SaveAcceptedIff(db: Db, ifaces: Inventory, p: Payload)
    requires Sound(db, ifaces)
    ensures SaveAcl(db, ifaces, p).Some? <==>
      && p.host != "" && 1 <= |p.name| <= 64
      && (forall c :: c in p.name ==> 'A' <= c <= 'Z' || 'a' <= c <= 'z' || '0' <= c <= '9' || c == '_' || c == '.' || c == '-')
      && p.rules != []
      && (forall i :: 0 <= i < |p.rules| ==> p.rules[i].fieldsValid && (p.rules[i].sequence.Some? ==> 1 <= p.rules[i].sequence.value <= 65535))
      && (forall i, j :: 0 <= i < j < |p.rules| ==> p.rules[i].sequence.None? || p.rules[i].sequence != p.rules[j].sequence)
      && Reaches(db, p)
      && (StoresBindings(db, p) ==> forall pair: Pair :: ToShow(db, p, pair) ==>
        pair.0 in ifaces && ifaces[pair.0].host == p.host && ifaces[pair.0].status != PendingDelete)
  {
    ValidPayloads(p);
    if !Reaches(db, p) {
      Unreached(db, ifaces, p);
    } else if PayloadValid(p) && (p.aclId > 0 ==> !p.descriptionOnly) {
      var s := Prepared(db, ifaces, p);
      StagedAccepted(db, ifaces, p, s);
    }
  }

  lemma ValidPayloads(p: Payload)
    ensures PayloadValid(p) <==>
      && p.host != "" && 1 <= |p.name| <= 64
      && (forall c :: c in p.name ==> 'A' <= c <= 'Z' || 'a' <= c <= 'z' || '0' <= c <= '9' || c == '_' || c == '.' || c == '-')
      && p.rules != []
      && (forall i :: 0 <= i < |p.rules| ==> p.rules[i].fieldsValid && (p.rules[i].sequence.Some? ==> 1 <= p.rules[i].sequence.value <= 65535))
      && (forall i, j :: 0 <= i < j < |p.rules| ==> p.rules[i].sequence.None? || p.rules[i].sequence != p.rules[j].sequence)
  {
  }

  lemma Unreached(db: Db, ifaces: Inventory, p: Payload)
    requires Sound(db, ifaces) && !Reaches(db, p)
    ensures SaveAcl(db, ifaces, p).None?
  {
    if p.aclId <= 0 {
      LocatedEffect(db, ifaces, p);
    } else if Existing(db, p.aclId) {
      DeletedEffect(db, p, p.aclId);
      DeleteOneSound(db, ifaces, p.aclId);
      LocatedEffect(DeleteOne(db, p.aclId), ifaces, p);
    }
  }

  lemma StagedAccepted(db: Db, ifaces: Inventory, p: Payload, s: Stage)
    requires Sound(db, ifaces) && Staged(db, ifaces, p, s)
    ensures SaveAcl(db, ifaces, p).Some? <==>
            (StoresBindings(db, p) ==> forall pair: Pair :: ToShow(db, p, pair) ==> Bindable(ifaces, p.host, pair.0))
  {
    FinishStores(db.bindings, s.db, ifaces, p, s.acl, ReplacesRules(db, p), PassedOn(db, p), StoresBindings(db, p), s.lists);
    if StoresBindings(db, p) {
      PassedOnShown(db, p);
      assert AllBindable(ifaces, p.host, PassedOn(db, p)) <==>
        forall pair: Pair :: ToShow(db, p, pair) ==> Bindable(ifaces, p.host, pair.0);
    }
  }

  /** Where a save has got to when it stores rules and bindings. */
  datatype Stage = Stage(db: Db, acl: nat, lists: set<nat>)

  /** The list is in place under its new identity; nothing of it or of a list left
      behind shows a binding, unless the list kept name and type. */
  ghost predicate Staged(db: Db, ifaces: Inventory, p: Payload, s: Stage) {
    && Sound(s.db, ifaces) && s.acl in s.db.acls && s.db.acls[s.acl].host == p.host && s.db.acls[s.acl].name == p.name
    && s.db.acls[s.acl].kind == p.kind && s.db.nextRule == db.nextRule
    && Cleared(db.bindings, s.db.bindings, s.lists)
    && SaveAcl(db, ifaces, p) == FinishSave(s.db, ifaces, p, s.acl, ReplacesRules(db, p), PassedOn(db, p), StoresBindings(db, p))
  }

  predicate ReplacesRules(db: Db, p: Payload) {
    p.aclId <= 0 || (!p.descriptionOnly && (p.rulesChanged || ChangesIdentity(db, p)))
  }

  lemma Prepared(db: Db, ifaces: Inventory, p: Payload) returns (s: Stage)
    requires Sound(db, ifaces) && PayloadValid(p) && Reaches(db, p) && (p.aclId > 0 ==> !p.descriptionOnly)
    ensures Staged(db, ifaces, p, s)
  {
    if p.aclId <= 0 {
      s := PreparedNew(db, ifaces, p);
    } else if !ChangesIdentity(db, p) {
      s := PreparedInPlace(db, ifaces, p);
    } else if SameIdentity(db.acls[p.aclId], p) {
      s := PreparedRetyped(db, ifaces, p);
    } else {
      s := PreparedRenamed(db, ifaces, p);
    }
  }

  lemma PreparedNew(db: Db, ifaces: Inventory, p: Payload) returns (s: Stage)
    requires Sound(db, ifaces) && PayloadValid(p) && Reaches(db, p) && p.aclId <= 0
    ensures Staged(db, ifaces, p, s) && Located(db, p, s.db, s.acl) && s.lists == {s.acl}
  {
    var at := CreateOrRevive(db, p.host, p.name, p.kind, p.description);
    LocatedEffect(db, ifaces, p);
    CreateOrReviveSound(db, ifaces, p.host, p.name, p.kind, p.description);
    s := Stage(at.db, at.acl, {at.acl});
  }

  lemma PreparedInPlace(db: Db, ifaces: Inventory, p: Payload) returns (s: Stage)
    requires Sound(db, ifaces) && PayloadValid(p) && Reaches(db, p) && p.aclId > 0 && !p.descriptionOnly && !ChangesIdentity(db, p)
    ensures Staged(db, ifaces, p, s) && s.acl == p.aclId && s.lists == {}
    ensures var row := db.acls[s.acl];
      s.db == SetList(db, s.acl, row.(description := p.description, status := PendingApply,
                                      actionCfg := if row.description != p.description then 1 else row.actionCfg))
  {
    var row := db.acls[p.aclId];
    var listed := row.(description := p.description, status := PendingApply,
                       actionCfg := if row.description != p.description then 1 else row.actionCfg);
    SetListSound(db, ifaces, p.aclId, listed);
    s := Stage(SetList(db, p.aclId, listed), p.aclId, {});
  }

  lemma PreparedRetyped(db: Db, ifaces: Inventory, p: Payload) returns (s: Stage)
    requires Sound(db, ifaces) && PayloadValid(p) && Reaches(db, p) && ChangesIdentity(db, p) && SameIdentity(db.acls[p.aclId], p)
    ensures Staged(db, ifaces, p, s) && s.acl == p.aclId && s.lists == {}
    ensures s.db.acls == db.acls[s.acl := AclRow(p.host, p.name, p.kind, p.description, 1, PendingApply)]
  {
    var acl: nat := p.aclId;
    var row := db.acls[acl];
    var marked := db.(rules := MarkRules(db.rules, row.kind, acl));
    MarkRulesSound(db, ifaces, row.kind, acl);
    var listed := row.(kind := p.kind, description := p.description, status := PendingApply, actionCfg := 1);
    SetListSound(marked, ifaces, acl, listed);
    s := Stage(SetList(marked, acl, listed), acl, {});
  }

  lemma PreparedRenamed(db: Db, ifaces: Inventory, p: Payload) returns (s: Stage)
    requires Sound(db, ifaces) && PayloadValid(p) && Reaches(db, p) && ChangesIdentity(db, p) && !SameIdentity(db.acls[p.aclId], p)
    ensures Staged(db, ifaces, p, s) && s.lists == {p.aclId as nat, s.acl} && Located(DeleteOne(db, p.aclId), p, s.db, s.acl)
  {
    var acl: nat := p.aclId;
    var dropped := DeleteOne(db, acl);
    DeletedEffect(db, p, acl);
    DeleteOneSound(db, ifaces, acl);
    LocatedEffect(dropped, ifaces, p);
    CreateOrReviveSound(dropped, ifaces, p.host, p.name, p.kind, p.description);
    var at := CreateOrRevive(dropped, p.host, p.name, p.kind, p.description);
    ClearedTrans(db.bindings, dropped.bindings, at.db.bindings, {acl}, {at.acl});
    assert {acl} + {at.acl} == {acl, at.acl};
    s := Stage(at.db, at.acl, {acl, at.acl});
  }

  // ---------------------------------------------------------------------
  // What an accepted save leaves
  // ---------------------------------------------------------------------

  /** A binding of another list whose pair is not stored for the saved one. */
  ghost predicate Elsewhere(db: Db, p: Payload, a: nat, b: nat) {
    && b in db.bindings && db.bindings[b].aclId != a && db.bindings[b].aclId != p.aclId
    && !(StoresBindings(db, p) && ToShow(db, p, PairOf(db.bindings[b])))
  }

  /** The saved list shows exactly the wanted pairs, a list it replaces none, and other
      lists' rows are as before but for pairs handed over. */
  ghost predicate BindingsSaved(db: Db, p: Payload, saved: Db, a: nat) {
    && (forall pair: Pair :: Shown(saved.bindings, a, pair) <==> ToShow(db, p, pair))
    && (p.aclId > 0 && a != p.aclId ==> forall pair :: !Shown(saved.bindings, p.aclId, pair))
    && (p.aclId > 0 && !StoresBindings(db, p) ==> saved.bindings == db.bindings)
    && (forall b :: Elsewhere(db, p, a, b) ==> b in saved.bindings && saved.bindings[b] == db.bindings[b])
  }

  /** The rules of the list are the submitted ones, under new ids and in their stable
      order by sequence, if the save replaces rules; else they are as before. */
  ghost predicate RulesSaved(db: Db, p: Payload, saved: Db, a: nat)
    requires a in saved.acls
  {
    if ReplacesRules(db, p) then
      var next := db.nextRule.Next(p.kind);
      && IsStableSort(p.rules, next, ReadRules(saved, p.kind, a))
      && forall i :: 0 <= i < |p.rules| ==> RuleStored(saved, p.kind, a, next + i, p.rules[i])
    else
      a in db.acls && ListRows(saved, a) == ListRows(db, a)
  }

  predicate RuleStored(db: Db, kind: Kind, a: nat, id: nat, rule: RuleInput) {
    && id in db.rules.Get(kind)
    && var row := db.rules.Get(kind)[id];
      && row.aclId == a && row.text == rule.text && row.status.PendingApply?
      && (if rule.sequence.Some? then row.sequence.Some? && row.sequence.value == rule.sequence.value else row.sequence.None?)
  }

  /** The row has the submitted identity and description and is to be applied; the
      description is pushed if it changed or the list is new or changed identity. */
  predicate RowSaved(db: Db, p: Payload, saved: Db, a: nat) {
    a in saved.acls &&
    if p.aclId > 0 && p.descriptionOnly then
      a in db.acls && saved.acls[a] == db.acls[a].(description := p.description, actionCfg := 1, status := PendingApply)
    else
      && saved.acls[a].host == p.host && saved.acls[a].name == p.name && saved.acls[a].kind == p.kind
      && saved.acls[a].description == p.description && saved.acls[a].status.PendingApply?
      && saved.acls[a].actionCfg ==
        if p.aclId > 0 && p.aclId in db.acls && !ChangesIdentity(db, p) && db.acls[p.aclId].description == p.description
        then db.acls[p.aclId].actionCfg else 1
  }

  ghost predicate Finishes(db: Db, ifaces: Inventory, p: Payload, s: Stage, saved: Db) {
    Staged(db, ifaces, p, s) && SaveAcl(db, ifaces, p) == Some(saved)
  }

  lemma StagedBindings(db: Db, ifaces: Inventory, p: Payload, s: Stage, saved: Db)
    requires Finishes(db, ifaces, p, s, saved)
    ensures if StoresBindings(db, p) then StoredFor(db.bindings, saved.bindings, s.lists, s.acl, PassedOn(db, p))
            else saved.bindings == s.db.bindings
  {
    FinishStores(db.bindings, s.db, ifaces, p, s.acl, ReplacesRules(db, p), PassedOn(db, p), StoresBindings(db, p), s.lists);
  }

  lemma StoredSaved(db: Db, p: Payload, saved: Db, a: nat, lists: set<nat>)
    requires IdsFresh(db) && StoresBindings(db, p) && StoredFor(db.bindings, saved.bindings, lists, a, PassedOn(db, p))
    requires forall l :: l in lists ==> l == a || l == p.aclId
    requires p.aclId > 0 && a != p.aclId ==> p.aclId as nat in lists
    ensures BindingsSaved(db, p, saved, a)
  {
    PassedOnShown(db, p);
  }

  lemma ClearedSaved(db: Db, p: Payload, saved: Db, a: nat)
    requires p.aclId <= 0 && !StoresBindings(db, p) && Cleared(db.bindings, saved.bindings, {a})
    ensures BindingsSaved(db, p, saved, a)
  {
  }

  lemma StagedTables(db: Db, ifaces: Inventory, p: Payload, s: Stage, saved: Db)
    requires Finishes(db, ifaces, p, s, saved)
    ensures saved.acls == s.db.acls
    ensures saved.rules == if ReplacesRules(db, p) then ReplaceRules(s.db, p.kind, s.acl, p.rules).rules else s.db.rules
  {
    var ruled := if ReplacesRules(db, p) then ReplaceRules(s.db, p.kind, s.acl, p.rules) else s.db;
    FinishedLists(s.db, ifaces, p, s.acl, ReplacesRules(db, p), PassedOn(db, p), StoresBindings(db, p), ruled);
  }

  lemma ReplacedShown(db: Db, kind: Kind, a: nat, list: seq<RuleInput>, saved: Db)
    requires IdsFresh(db) && saved.rules == ReplaceRules(db, kind, a, list).rules
    ensures ShowsSubmitted(RowsOf(saved, kind, a), db.nextRule.Next(kind), a, list)
  {
    SameRules(ReplaceRules(db, kind, a, list), saved, kind, a);
    ReplacedVisible(db, kind, a, list);
  }

  lemma ReplacedSaved(saved: Db, kind: Kind, a: nat, next: nat, list: seq<RuleInput>)
    requires RulesValid(list) && ShowsSubmitted(RowsOf(saved, kind, a), next, a, list)
    ensures IsStableSort(list, next, ReadRules(saved, kind, a))
    ensures forall i :: 0 <= i < |list| ==> RuleStored(saved, kind, a, next + i, list[i])
  {
    ReadInOrder(RowsOf(saved, kind, a), next, a, list);
    SubmittedStored(saved, kind, a, next, list);
  }

  lemma SameRules(db: Db, saved: Db, kind: Kind, a: nat)
    requires saved.rules == db.rules
    ensures RowsOf(saved, kind, a) == RowsOf(db, kind, a)
  {
  }

  lemma RulesAsSubmitted(db: Db, p: Payload, saved: Db, a: nat)
    requires PayloadValid(p) && ReplacesRules(db, p) && a in saved.acls
    requires ShowsSubmitted(RowsOf(saved, p.kind, a), db.nextRule.Next(p.kind), a, p.rules)
    ensures RulesSaved(db, p, saved, a)
  {
    ReplacedSaved(saved, p.kind, a, db.nextRule.Next(p.kind), p.rules);
  }

  lemma StagedRules(db: Db, ifaces: Inventory, p: Payload, s: Stage, saved: Db)
    requires PayloadValid(p) && Finishes(db, ifaces, p, s, saved)
    requires !ReplacesRules(db, p) ==> s.acl in db.acls && db.acls[s.acl].kind == p.kind && s.db.rules == db.rules
    ensures saved.acls == s.db.acls && RulesSaved(db, p, saved, s.acl)
  {
    StagedTables(db, ifaces, p, s, saved);
    if ReplacesRules(db, p) {
      ReplacedShown(s.db, p.kind, s.acl, p.rules, saved);
      RulesAsSubmitted(db, p, saved, s.acl);
    }
  }

  lemma SubmittedStored(db: Db, kind: Kind, a: nat, next: nat, list: seq<RuleInput>)
    requires RulesValid(list) && ShowsSubmitted(RowsOf(db, kind, a), next, a, list)
    ensures forall i :: 0 <= i < |list| ==> RuleStored(db, kind, a, next + i, list[i])
  {
    forall i | 0 <= i < |list|
      ensures RuleStored(db, kind, a, next + i, list[i])
    {
      assert next + i in VisibleIds(RowsOf(db, kind, a));
      NewRuleKey(a, list, i);
    }
  }

  ghost predicate ListSaved(db: Db, p: Payload, saved: Db, a: nat) {
    Target(db, p, saved, a) && RowSaved(db, p, saved, a) && RulesSaved(db, p, saved, a) && BindingsSaved(db, p, saved, a)
  }

  lemma NewSaved(db: Db, ifaces: Inventory, p: Payload, saved: Db) returns (a: nat)
    requires Sound(db, ifaces) && PayloadValid(p) && Reaches(db, p) && SaveAcl(db, ifaces, p) == Some(saved) && p.aclId <= 0
    ensures ListSaved(db, p, saved, a)
  {
    var s := PreparedNew(db, ifaces, p);
    a := s.acl;
    StagedRules(db, ifaces, p, s, saved);
    NewBindings(db, ifaces, p, s, saved);
    assert saved.acls[a] == AclRow(p.host, p.name, p.kind, p.description, 1, PendingApply);
  }

  lemma NewBindings(db: Db, ifaces: Inventory, p: Payload, s: Stage, saved: Db)
    requires IdsFresh(db) && Finishes(db, ifaces, p, s, saved) && p.aclId <= 0 && s.lists == {s.acl}
    ensures BindingsSaved(db, p, saved, s.acl)
  {
    StagedBindings(db, ifaces, p, s, saved);
    if StoresBindings(db, p) { StoredSaved(db, p, saved, s.acl, s.lists); } else { ClearedSaved(db, p, saved, s.acl); }
  }

  lemma InPlaceSaved(db: Db, ifaces: Inventory, p: Payload, saved: Db) returns (a: nat)
    requires Sound(db, ifaces) && PayloadValid(p) && Reaches(db, p) && SaveAcl(db, ifaces, p) == Some(saved)
    requires p.aclId > 0 && !p.descriptionOnly && !ChangesIdentity(db, p)
    ensures ListSaved(db, p, saved, a)
  {
    var s := PreparedInPlace(db, ifaces, p);
    a := s.acl;
    StagedRules(db, ifaces, p, s, saved);
    InPlaceBindings(db, ifaces, p, s, saved);
  }

  lemma InPlaceBindings(db: Db, ifaces: Inventory, p: Payload, s: Stage, saved: Db)
    requires IdsFresh(db) && Finishes(db, ifaces, p, s, saved) && p.aclId > 0 && s.acl == p.aclId && s.lists == {}
    requires s.db.bindings == db.bindings
    ensures BindingsSaved(db, p, saved, s.acl)
  {
    StagedBindings(db, ifaces, p, s, saved);
    if StoresBindings(db, p) {
      StoredSaved(db, p, saved, s.acl, {});
    } else {
      assert forall pair: Pair :: ToShow(db, p, pair) <==> Shown(db.bindings, s.acl, pair);
    }
  }

  lemma RetypedSaved(db: Db, ifaces: Inventory, p: Payload, saved: Db) returns (a: nat)
    requires Sound(db, ifaces) && PayloadValid(p) && Reaches(db, p) && SaveAcl(db, ifaces, p) == Some(saved)
    requires ChangesIdentity(db, p) && SameIdentity(db.acls[p.aclId], p)
    ensures ListSaved(db, p, saved, a)
  {
    var s := PreparedRetyped(db, ifaces, p);
    a := s.acl;
    StagedBindings(db, ifaces, p, s, saved);
    StagedRules(db, ifaces, p, s, saved);
    StoredSaved(db, p, saved, a, {});
  }

  lemma RenamedSaved(db: Db, ifaces: Inventory, p: Payload, saved: Db) returns (a: nat)
    requires Sound(db, ifaces) && PayloadValid(p) && Reaches(db, p) && SaveAcl(db, ifaces, p) == Some(saved)
    requires ChangesIdentity(db, p) && !SameIdentity(db.acls[p.aclId], p)
    ensures ListSaved(db, p, saved, a)
  {
    var s := PreparedRenamed(db, ifaces, p);
    a := s.acl;
    StagedRules(db, ifaces, p, s, saved);
    RenamedBindings(db, ifaces, p, s, saved);
    assert saved.acls[a] == AclRow(p.host, p.name, p.kind, p.description, 1, PendingApply);
  }

  lemma RenamedBindings(db: Db, ifaces: Inventory, p: Payload, s: Stage, saved: Db)
    requires IdsFresh(db) && Finishes(db, ifaces, p, s, saved) && ChangesIdentity(db, p) && s.lists == {p.aclId as nat, s.acl}
    ensures BindingsSaved(db, p, saved, s.acl)
  {
    StagedBindings(db, ifaces, p, s, saved);
    StoredSaved(db, p, saved, s.acl, s.lists);
  }

  /** An accepted save stores its bindings and rules for the list it reaches, and
      gives that list the submitted row. */
  lemma SavedList(db: Db, ifaces: Inventory, p: Payload, saved: Db) returns (a: nat)
    requires Sound(db, ifaces) && SaveAcl(db, ifaces, p) == Some(saved)
    ensures Target(db, p, saved, a)
    ensures RowSaved(db, p, saved, a) && RulesSaved(db, p, saved, a) && BindingsSaved(db, p, saved, a)
  {
    SaveAcceptedIff(db, ifaces, p);
    if p.aclId <= 0 {
      a := NewSaved(db, ifaces, p, saved);
    } else if p.descriptionOnly {
      a := p.aclId;
      DescriptionSaved(db, ifaces, p, saved);
    } else if !ChangesIdentity(db, p) {
      a := InPlaceSaved(db, ifaces, p, saved);
    } else if SameIdentity(db.acls[p.aclId], p) {
      a := RetypedSaved(db, ifaces, p, saved);
    } else {
      a := RenamedSaved(db, ifaces, p, saved);
    }
  }

  lemma DescriptionSaved(db: Db, ifaces: Inventory, p: Payload, saved: Db)
    requires SaveAcl(db, ifaces, p) == Some(saved) && p.aclId > 0 && p.descriptionOnly
    ensures ListSaved(db, p, saved, p.aclId)
  {
  }

  // ---------------------------------------------------------------------
  // Bindings alone
  // ---------------------------------------------------------------------

  /** Saving bindings alone is accepted exactly when the list exists and every pair names
      an interface of its host that is not about to be deleted; it then shows exactly those pairs, and its rules
      are as before. */
  lemma BindingsAloneSaved(db: Db, ifaces: Inventory, acl: int, list: seq<BindingInput>)
    requires Sound(db, ifaces)
    ensures SaveAclBindings(db, ifaces, acl, list).Some? <==>
            Existing(db, acl) && forall pair: Pair :: Asked(list, pair) ==>
              pair.0 in ifaces && ifaces[pair.0].host == db.acls[acl].host && ifaces[pair.0].status != PendingDelete
    ensures SaveAclBindings(db, ifaces, acl, list).Some? ==>
      var saved, a: nat := SaveAclBindings(db, ifaces, acl, list).value, acl;
      && (forall pair :: Shown(saved.bindings, a, pair) <==> Asked(list, pair))
      && (forall b :: b in db.bindings && db.bindings[b].aclId != a && !Asked(list, PairOf(db.bindings[b])) ==>
        b in saved.bindings && saved.bindings[b] == db.bindings[b])
      && saved.acls == db.acls[a := db.acls[a].(status := PendingApply)] && saved.rules == db.rules
  {
    if Existing(db, acl) {
      BindingsAccepted(db, ifaces, acl, db.acls[acl].host, list);
      if SaveAclBindings(db, ifaces, acl, list).Some? {
        BindingsReplaced(db, ifaces, acl, db.acls[acl].host, list);
      }
    }
  }

  // ---------------------------------------------------------------------
  // Deletions
  // ---------------------------------------------------------------------

  lemma {:induction false} WantedIff(ids: seq<int>)
    ensures forall a: nat :: a in Wanted(ids) <==> a > 0 && a in ids
  {
    if ids != [] {
      WantedIff(ids[..|ids| - 1]);
      assert ids == ids[..|ids| - 1] + [ids[|ids| - 1]];
    }
  }

  /** What a deletion leaves of one asked list: nothing of a draft, everything queued
      otherwise. */
  ghost predicate DeletedList(db: Db, after: Db, a: nat)
    requires a in db.acls
  {
    if db.acls[a].status.PendingApply? then
      && a !in after.acls && (forall k: Kind :: RowsOf(after, k, a) == map[])
      && forall b :: b in after.bindings ==> after.bindings[b].aclId != a
    else
      && a in after.acls && after.acls[a] == db.acls[a].(status := PendingDelete)
      && (forall k: Kind :: RowsOf(after, k, a).Keys == RowsOf(db, k, a).Keys)
      && (forall id :: id in ListRows(after, a) ==> ListRows(after, a)[id].status.PendingDelete?)
      && forall pair :: !Shown(after.bindings, a, pair)
  }

  ghost predicate KeptList(db: Db, after: Db, a: nat) {
    && (a in after.acls <==> a in db.acls) && (a in db.acls ==> after.acls[a] == db.acls[a])
    && (forall k: Kind :: RowsOf(after, k, a) == RowsOf(db, k, a))
    && (forall b :: b in db.bindings && db.bindings[b].aclId == a ==> b in after.bindings && after.bindings[b] == db.bindings[b])
    && (forall b :: b in after.bindings && after.bindings[b].aclId == a ==> b in db.bindings && after.bindings[b] == db.bindings[b])
  }

  lemma OneDeleted(db: Db, a: nat, l: nat)
    requires a in db.acls
    ensures if l == a then DeletedList(db, DeleteOne(db, a), a) else KeptList(db, DeleteOne(db, a), l)
  {
    var marked, after := MarkList(db, a), DeleteOne(db, a);
    forall k: Kind
      ensures RowsOf(marked, k, l).Keys == RowsOf(db, k, l).Keys && (l != a ==> RowsOf(marked, k, l) == RowsOf(db, k, l))
    {
      MarkedRow(db.rules, db.acls[a].kind, a, k, l);
    }
    if l == a {
      OwnDeleted(db, a);
    } else {
      assert forall k: Kind :: RowsOf(after, k, l) == RowsOf(marked, k, l);
    }
  }

  lemma OwnDeleted(db: Db, a: nat)
    requires a in db.acls
    ensures DeletedList(db, DeleteOne(db, a), a)
  {
    var after := DeleteOne(db, a);
    if db.acls[a].status.PendingApply? {
      assert forall k: Kind :: RowsOf(after, k, a) == map[];
    } else {
      forall k: Kind
        ensures RowsOf(after, k, a).Keys == RowsOf(db, k, a).Keys
      {
        MarkedRow(db.rules, db.acls[a].kind, a, k, a);
      }
      DeletedCleared(db, a);
    }
  }

  lemma {:induction false} ListsDeleted(db: Db, acls: seq<nat>, l: nat)
    requires NoRepeats(acls) && forall a :: a in acls ==> a in db.acls
    ensures if l in acls then DeletedList(db, DeleteAll(db, acls), l) else KeptList(db, DeleteAll(db, acls), l)
  {
    if acls != [] {
      var n := |acls| - 1;
      var before := DeleteAll(db, acls[..n]);
      assert acls == acls[..n] + [acls[n]] && acls[n] !in acls[..n];
      ListsDeleted(db, acls[..n], l);
      ListsDeleted(db, acls[..n], acls[n]);
      OneDeleted(before, acls[n], l);
      if l == acls[n] {
        KeptThenDeleted(db, before, DeleteAll(db, acls), l);
      } else if l in acls[..n] {
        DeletedThenKept(db, before, DeleteAll(db, acls), l);
      }
    }
  }

  lemma KeptThenDeleted(db: Db, before: Db, after: Db, l: nat)
    requires l in db.acls && KeptList(db, before, l) && l in before.acls && DeletedList(before, after, l)
    ensures DeletedList(db, after, l)
  {
  }

  lemma DeletedThenKept(db: Db, before: Db, after: Db, l: nat)
    requires l in db.acls && DeletedList(db, before, l) && KeptList(before, after, l)
    ensures DeletedList(db, after, l)
  {
    if !db.acls[l].status.PendingApply? {
      forall pair
        ensures !Shown(after.bindings, l, pair)
      {
        assert !Shown(before.bindings, l, pair);
      }
    }
  }

  /** A deletion is accepted exactly when it asks for at least one list and every
      list it asks for exists. It leaves nothing of asked drafts, queues the other
      asked lists with everything under them, and touches no other list. */
  lemma DeletionStored(db: Db, ids: seq<int>, l: nat)
    ensures DeleteAcls(db, ids).Some? <==> (exists a :: a in ids && a > 0) && forall a :: a in ids && a > 0 ==> Existing(db, a)
    ensures DeleteAcls(db, ids).Some? ==>
      if l > 0 && l in ids then l in db.acls && DeletedList(db, DeleteAcls(db, ids).value, l)
      else KeptList(db, DeleteAcls(db, ids).value, l)
  {
    var acls := Wanted(ids);
    WantedIff(ids);
    WantedDistinct(ids);
    DeletionAcceptedIff(db, ids, acls);
    if DeleteAcls(db, ids).Some? {
      forall a | a in acls
        ensures a in db.acls
      {
        assert Existing(db, a);
      }
      ListsDeleted(db, acls, l);
    }
  }

  lemma DeletionAcceptedIff(db: Db, ids: seq<int>, acls: seq<nat>)
    requires acls == Wanted(ids) && forall a: nat :: a in acls <==> a > 0 && a in ids
    ensures DeleteAcls(db, ids).Some? <==> (exists a :: a in ids && a > 0) && forall a :: a in ids && a > 0 ==> Existing(db, a)
  {
    if acls != [] {
      assert acls[0] in acls && acls[0] in ids;
    }
    if a :| a in ids && a > 0 {
      assert (a as nat) in acls;
    }
    forall a | a in ids && a > 0
      ensures (a as nat) in acls
    {
    }
    forall i | 0 <= i < |acls|
      ensures acls[i] in ids && acls[i] > 0
    {
      assert acls[i] in acls;
    }
  }
}
