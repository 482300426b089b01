// Short runs of ACL edits and pushes that reach the cases in which a push does
// not do what one would expect.

module AclTraces {
  import opened Common
  import opened AclLists
  import opened AclTables
  import opened AclEdits
  import opened AclPush
  import opened AclRuns

  // ---------------------------------------------------------------------
  // One list, step by step
  // ---------------------------------------------------------------------

  /** An edit in place that replaces the rules and leaves the bindings alone. */
  ghost predicate PlainEdit(db: Db, p: Payload) {
    && PayloadValid(p) && Existing(db, p.aclId) && SameIdentity(db.acls[p.aclId], p) && db.acls[p.aclId].kind == p.kind
    && !p.descriptionOnly && p.rulesChanged && !p.bindingChanged
  }

  /** Old rules queued for deletion, new ones under the ids from `next`. */
  ghost predicate Edited(before: Rows, after: Rows, next: nat, acl: nat, list: seq<RuleInput>) {
    && (forall id :: id in after <==> id in before || next <= id < next + |list|)
    && (forall id :: id in before ==> id < next && after[id] == before[id].(status := PendingDelete))
    && (forall id :: next <= id < next + |list| ==> after[id] == NewRule(acl, list[id - next]))
  }

  lemma ReplacedEdited(db: Db, kind: Kind, acl: nat, list: seq<RuleInput>)
    requires IdsFresh(db)
    ensures Edited(RowsOf(db, kind, acl), RowsOf(ReplaceRules(db, kind, acl, list), kind, acl), db.nextRule.Next(kind), acl, list)
  {
    ReplacedTable(db, kind, acl, list);
    MarkedHere(db, kind, acl);
    AddedHere(db.nextRule.Next(kind), acl, list);
    EditedBeside(db.rules.Get(kind), MarkRules(db.rules, kind, acl).Get(kind),
                 NewRules(db.nextRule.Next(kind), acl, list), db.nextRule.Next(kind), acl, list);
  }

  ghost predicate MarkedRows(rows: Rows, marked: Rows, next: nat, acl: nat) {
    && (forall id :: id in rows ==> id < next)
    && marked.Keys == rows.Keys
    && forall id :: id in rows ==> marked[id] == if rows[id].aclId == acl then rows[id].(status := PendingDelete) else rows[id]
  }

  ghost predicate AddedRows(added: Rows, next: nat, acl: nat, list: seq<RuleInput>) {
    && (forall id :: id in added <==> next <= id < next + |list|)
    && forall id :: id in added ==> added[id] == NewRule(acl, list[id - next])
  }

  lemma MarkedFrom(rules: RuleTables, kind: Kind, acl: nat)
    ensures var rows, marked := rules.Get(kind), MarkRules(rules, kind, acl).Get(kind);
      && marked.Keys == rows.Keys
      && forall id :: id in rows ==> marked[id] == if rows[id].aclId == acl then rows[id].(status := PendingDelete) else rows[id]
  {
  }

  lemma MarkedHere(db: Db, kind: Kind, acl: nat)
    requires IdsFresh(db)
    ensures MarkedRows(db.rules.Get(kind), MarkRules(db.rules, kind, acl).Get(kind), db.nextRule.Next(kind), acl)
  {
    MarkedFrom(db.rules, kind, acl);
  }

  lemma AddedHere(next: nat, acl: nat, list: seq<RuleInput>)
    ensures AddedRows(NewRules(next, acl, list), next, acl, list)
  {
  }

  lemma EditedBeside(rows: Rows, marked: Rows, added: Rows, next: nat, acl: nat, list: seq<RuleInput>)
    requires MarkedRows(rows, marked, next, acl)
    requires AddedRows(added, next, acl, list)
    ensures Edited(OwnRows(rows, acl), OwnRows(marked + added, acl), next, acl, list)
  {
    var after := OwnRows(marked + added, acl);
    assert forall id :: id in added ==> id in after && after[id] == added[id];
    assert forall id :: id in rows ==> id !in added;
  }

  lemma EditInPlace(db: Db, ifaces: Inventory, p: Payload)
    requires IdsFresh(db) && PlainEdit(db, p)
    ensures SaveAcl(db, ifaces, p).Some?
    ensures var saved, acl: nat := SaveAcl(db, ifaces, p).value, p.aclId;
      && Existing(saved, acl) && saved.acls[acl].status.PendingApply?
      && NameOf(saved.acls[acl]) == NameOf(db.acls[acl]) && saved.acls[acl].kind == p.kind && saved.acls.Keys == db.acls.Keys
      && Edited(ListRows(db, acl), ListRows(saved, acl), db.nextRule.Next(p.kind), acl, p.rules)
      && saved.nextRule.Next(p.kind) == db.nextRule.Next(p.kind) + |p.rules|
  {
    ReplacedEdited(db, p.kind, p.aclId, p.rules);
  }

  lemma SavedWorld(w: World, ifaces: Inventory, p: Payload, after: World)
    requires Sound(w.db, ifaces) && PlainEdit(w.db, p) && after == After(w, ifaces, Save(p))
    ensures var acl: nat := p.aclId;
      && Sound(after.db, ifaces) && after.dev == w.dev
      && Existing(after.db, acl) && after.db.acls[acl].status.PendingApply?
      && NameOf(after.db.acls[acl]) == NameOf(w.db.acls[acl]) && after.db.acls[acl].kind == p.kind
      && after.db.acls.Keys == w.db.acls.Keys
      && Edited(ListRows(w.db, acl), ListRows(after.db, acl), w.db.nextRule.Next(p.kind), acl, p.rules)
      && after.db.nextRule.Next(p.kind) == w.db.nextRule.Next(p.kind) + |p.rules|
  {
    EditInPlace(w.db, ifaces, p);
    StepSound(w, ifaces, Save(p));
  }

  /** What one list's device holds after all commands of a push were applied. */
  lemma BatchOnList(w: World, ifaces: Inventory, a: nat)
    requires Sound(w.db, ifaces) && a in w.db.acls && !w.db.acls[a].status.PendingDelete?
    ensures var row := w.db.acls[a];
      On(Exec(w.dev, HostBatch(w.db, row.host)), NameOf(row)) == Pushed(row.kind, ListRows(w.db, a), On(w.dev, NameOf(row)))
  {
    var host, list := w.db.acls[a].host, NameOf(w.db.acls[a]);
    ExecByList(w.dev, HostBatch(w.db, host), list);
    HostReceived(w.db, host, a);
    if a !in ListsToPush(w.db, host) {
      NothingPending(w.db, a);
    }
  }

  /** What a successful push makes of a list, whether or not it can be rendered. */
  ghost predicate ListPushed(w: World, after: World, a: nat)
    requires a in w.db.acls
  {
    var row := w.db.acls[a];
    && a in after.db.acls && NameOf(after.db.acls[a]) == NameOf(row) && after.db.acls[a].kind == row.kind
    && !after.db.acls[a].status.PendingDelete?
    && ListRows(after.db, a) == Advanced(ListRows(w.db, a)) && after.db.nextRule == w.db.nextRule
    && On(after.dev, NameOf(row)) == Pushed(row.kind, ListRows(w.db, a), On(w.dev, NameOf(row)))
  }

  lemma PushedWorld(w: World, ifaces: Inventory, a: nat)
    requires Sound(w.db, ifaces) && a in w.db.acls && !w.db.acls[a].status.PendingDelete?
    requires forall id :: id in ListRows(w.db, a) ==> !ListRows(w.db, a)[id].status.Skipped?
    ensures ListPushed(w, PushHost(w, w.db.acls[a].host), a)
  {
    AppliedAcls(w.db, w.db.acls[a].host);
    AppliedListRows(w.db, ifaces, w.db.acls[a].host, a);
    BatchOnList(w, ifaces, a);
  }

  // ---------------------------------------------------------------------
  // From nothing to one pushed rule
  // ---------------------------------------------------------------------

  /** A request for a new list with one numbered rule and no bindings. */
  ghost predicate FirstSave(p: Payload) {
    PayloadValid(p) && p.aclId <= 0 && !p.bindingChanged && |p.rules| == 1 && p.rules[0].sequence.Some?
  }

  function Alone(kind: Kind, row: RuleRow): ListState
    requires row.sequence.Some?
  {
    if kind.Mac? then ListState(map[], {row.text}) else ListState(map[row.sequence.value := row.text], {})
  }

  lemma OneRulePushed(kind: Kind, rows: Rows)
    requires rows.Keys == {1} && rows[1].status.PendingApply? && rows[1].sequence.Some? && rows[1].sequence.value > 0
    ensures Pushed(kind, rows, ABSENT) == Alone(kind, rows[1]) && Renderable(kind, rows)
  {
    var c, r := Collect(rows, false, PendingQuery(rows)), Pushed(kind, rows, ABSENT);
    PushEffect(kind, rows, ABSENT);
    CollectedLines(rows);
    PendingLine(rows, 1);
    assert forall l :: l in c.add <==> l == LineOf(rows, 1);
    assert kind.Mac? ==> r.entries == {rows[1].text};
    assert !kind.Mac? ==> r.lines == map[rows[1].sequence.value := rows[1].text];
  }

  /** The one list of the tables, as payload `p` describes it. */
  ghost predicate OneRule(db: Db, p: Payload, status: SyncStatus) {
    && FirstSave(p) && db.acls.Keys == {1} && Existing(db, 1) && db.nextRule.Next(p.kind) == 2
    && SameIdentity(db.acls[1], p) && db.acls[1].kind == p.kind
    && ListRows(db, 1) == map[1 := NewRule(1, p.rules[0]).(status := status)]
  }

  lemma FirstSaved(ifaces: Inventory, p: Payload)
    requires FirstSave(p)
    ensures SaveAcl(EMPTY.db, ifaces, p).Some? && OneRule(SaveAcl(EMPTY.db, ifaces, p).value, p, PendingApply)
  {
    assert forall a :: !Named(EMPTY.db, a, p.host, p.name);
    var listed := SetList(EMPTY.db, 1, AclRow(p.host, p.name, p.kind, p.description, 1, PendingApply)).(nextAcl := 2);
    assert CreateOrRevive(EMPTY.db, p.host, p.name, p.kind, p.description) == At(listed, 1);
    ReplacedEdited(listed, p.kind, 1, p.rules);
    assert RowsOf(listed, p.kind, 1) == map[];
  }

  lemma FirstSavedWorld(ifaces: Inventory, p: Payload)
    requires FirstSave(p)
    ensures var w := After(EMPTY, ifaces, Save(p));
      Sound(w.db, ifaces) && w.dev == map[] && OneRule(w.db, p, PendingApply)
  {
    FirstSaved(ifaces, p);
    EveryRunSound(ifaces, []);
    StepSound(EMPTY, ifaces, Save(p));
  }

  lemma OneRuleReady(w: World, ifaces: Inventory, p: Payload)
    requires Sound(w.db, ifaces) && OneRule(w.db, p, PendingApply) && w.dev == map[]
    ensures Pushed(p.kind, ListRows(w.db, 1), ABSENT) == Alone(p.kind, NewRule(1, p.rules[0]))
  {
    assert p.rules[0].sequence.value > 0 by { assert SequenceInRange(p.rules[0]); }
    OneRulePushed(p.kind, ListRows(w.db, 1));
  }

  lemma OneRuleAdvanced(w: World, ifaces: Inventory, p: Payload)
    requires Sound(w.db, ifaces) && OneRule(w.db, p, PendingApply)
    ensures OneRule(PushHost(w, p.host).db, p, Synchronized)
  {
    PushedWorld(w, ifaces, 1);
    PushedKeys(w, p);
    OneRuleThen(w.db, PushHost(w, p.host).db, p);
  }

  lemma PushedKeys(w: World, p: Payload)
    requires OneRule(w.db, p, PendingApply)
    ensures PushHost(w, p.host).db.acls.Keys == {1}
  {
    AppliedAcls(w.db, p.host);
  }

  lemma OneRuleThen(db: Db, after: Db, p: Payload)
    requires OneRule(db, p, PendingApply) && after.acls.Keys == {1} && after.nextRule == db.nextRule
    requires NameOf(after.acls[1]) == NameOf(db.acls[1]) && after.acls[1].kind == db.acls[1].kind
    requires !after.acls[1].status.PendingDelete? && ListRows(after, 1) == Advanced(ListRows(db, 1))
    ensures OneRule(after, p, Synchronized)
  {
    assert Advanced(ListRows(db, 1)) == map[1 := NewRule(1, p.rules[0]).(status := Synchronized)];
  }

  /** Its first push: the rule is synchronized and alone on the device. */
  lemma OneRuleSent(w: World, ifaces: Inventory, p: Payload)
    requires Sound(w.db, ifaces) && OneRule(w.db, p, PendingApply) && w.dev == map[]
    ensures var after := PushHost(w, p.host);
      && Sound(after.db, ifaces) && OneRule(after.db, p, Synchronized)
      && On(after.dev, ListName(p.host, p.name)) == Alone(p.kind, NewRule(1, p.rules[0]))
  {
    OneRuleReady(w, ifaces, p);
    OneRuleAdvanced(w, ifaces, p);
    PushSound(w.db, ifaces, p.host);
    BatchOnList(w, ifaces, 1);
  }

  lemma PushStep(w: World, ifaces: Inventory, host: string)
    ensures After(w, ifaces, Push(host)) == PushHost(w, host)
  {
  }

  lemma FirstPushed(ifaces: Inventory, p: Payload, first: World, pushed: World)
    requires FirstSave(p) && first == After(EMPTY, ifaces, Save(p)) && pushed == After(first, ifaces, Push(p.host))
    ensures Sound(pushed.db, ifaces) && OneRule(pushed.db, p, Synchronized)
    ensures On(pushed.dev, ListName(p.host, p.name)) == Alone(p.kind, NewRule(1, p.rules[0]))
  {
    FirstSavedWorld(ifaces, p);
    PushStep(first, ifaces, p.host);
    OneRuleSent(first, ifaces, p);
  }

  /** Another version of the one rule of list 1. */
  ghost predicate NextVersion(p: Payload, q: Payload) {
    && PayloadValid(q) && q.aclId == 1 && q.host == p.host && q.name == p.name && q.kind == p.kind
    && !q.descriptionOnly && q.rulesChanged && !q.bindingChanged
    && |p.rules| == 1 && |q.rules| == 1 && q.rules[0].sequence == p.rules[0].sequence
  }

  // ---------------------------------------------------------------------
  // A MAC rule edited during failed pushes
  // ---------------------------------------------------------------------

  /** The rows after versions that replaced one another without a success. */
  ghost predicate VersionRows(rows: Rows, s: nat, texts: seq<string>) {
    && |texts| >= 2 && Versions(rows, s, 1, |texts|)
    && (forall id :: id in rows <==> 1 <= id <= |texts|)
    && (forall id :: id in rows ==> rows[id].text == texts[id - 1])
  }

  lemma EditedOnce(before: Rows, after: Rows, s: nat, list: seq<RuleInput>)
    requires before.Keys == {1} && before[1].sequence == Some(s) && s > 0
    requires |list| == 1 && list[0].sequence == Some(s) && Edited(before, after, 2, 1, list)
    ensures VersionRows(after, s, [before[1].text, list[0].text])
  {
    assert forall id :: id in after <==> id == 1 || id == 2;
  }

  lemma EditedAgain(before: Rows, after: Rows, s: nat, texts: seq<string>, list: seq<RuleInput>)
    requires VersionRows(before, s, texts) && Edited(before, after, |texts| + 1, 1, list)
    requires |list| == 1 && list[0].sequence == Some(s)
    ensures VersionRows(after, s, texts + [list[0].text])
  {
  }

  ghost predicate VersionsOf(db: Db, p: Payload, s: nat, texts: seq<string>) {
    && Existing(db, 1) && SameIdentity(db.acls[1], p) && db.acls[1].kind == p.kind
    && db.nextRule.Next(p.kind) == 1 + |texts| && VersionRows(ListRows(db, 1), s, texts)
  }

  ghost predicate OneVersion(db: Db, p: Payload, s: nat, text: string) {
    && Existing(db, 1) && SameIdentity(db.acls[1], p) && db.acls[1].kind == p.kind && db.nextRule.Next(p.kind) == 2
    && ListRows(db, 1).Keys == {1} && ListRows(db, 1)[1].sequence == Some(s) && ListRows(db, 1)[1].text == text
  }

  lemma RuleIsVersion(db: Db, p: Payload, status: SyncStatus, s: nat)
    requires OneRule(db, p, status) && p.rules[0].sequence == Some(s)
    ensures s > 0 && OneVersion(db, p, s, p.rules[0].text)
  {
    assert SequenceInRange(p.rules[0]);
  }

  lemma SecondVersion(w: World, ifaces: Inventory, p: Payload, q: Payload, s: nat, text: string, after: World)
    requires Sound(w.db, ifaces) && OneVersion(w.db, p, s, text) && NextVersion(p, q) && p.rules[0].sequence == Some(s) && s > 0
    requires after == After(w, ifaces, Save(q))
    ensures Sound(after.db, ifaces) && after.dev == w.dev && VersionsOf(after.db, p, s, [text, q.rules[0].text])
  {
    SavedWorld(w, ifaces, q, after);
    EditedOnce(ListRows(w.db, 1), ListRows(after.db, 1), s, q.rules);
  }

  lemma LaterVersion(w: World, ifaces: Inventory, p: Payload, q: Payload, s: nat, texts: seq<string>, after: World)
    requires Sound(w.db, ifaces) && VersionsOf(w.db, p, s, texts) && NextVersion(p, q) && p.rules[0].sequence == Some(s)
    requires after == After(w, ifaces, Save(q))
    ensures Sound(after.db, ifaces) && after.dev == w.dev && VersionsOf(after.db, p, s, texts + [q.rules[0].text])
  {
    SavedWorld(w, ifaces, q, after);
    EditedAgain(ListRows(w.db, 1), ListRows(after.db, 1), s, texts, q.rules);
  }

  /** The second version, sent by a push that fails although all of it was applied. */
  lemma MacFailed(w: World, ifaces: Inventory, p: Payload, q: Payload, s: nat, text: string, saved: World,
                  sent: seq<Command>, failed: World)
    requires Sound(w.db, ifaces) && OneVersion(w.db, p, s, text) && NextVersion(p, q) && p.rules[0].sequence == Some(s) && s > 0
    requires p.kind.Mac? && On(w.dev, ListName(p.host, p.name)) == ListState(map[], {text}) && text != q.rules[0].text
    requires saved == After(w, ifaces, Save(q))
    requires sent == HostBatch(saved.db, p.host) && failed == After(saved, ifaces, PushFails(p.host, sent))
    ensures Sound(failed.db, ifaces) && VersionsOf(failed.db, p, s, [text, q.rules[0].text])
    ensures On(failed.dev, ListName(p.host, p.name)) == ListState(map[], {q.rules[0].text})
  {
    SecondVersion(w, ifaces, p, q, s, text, saved);
    FailedWorld(saved, ifaces, p.host, sent, 1);
    VersionsPushed(ListRows(saved.db, 1), s, 1, 2, ListState(map[], {text}));
  }

  /** Three versions, of which the second is on the device. */
  ghost predicate SecondOnDevice(rows: Rows, s: nat, texts: seq<string>, st: ListState) {
    && |texts| == 3 && texts[0] != texts[1] && texts[1] != texts[2]
    && VersionRows(rows, s, texts) && st == ListState(map[], {texts[1]})
  }

  lemma ThirdVersionShown(rows: Rows, s: nat, texts: seq<string>, st: ListState)
    requires SecondOnDevice(rows, s, texts, st)
    ensures PendingIds(Advanced(rows)) == {}
    ensures forall id :: id in VisibleIds(Advanced(rows)) ==> Advanced(rows)[id].text == texts[2]
    ensures Pushed(Mac, rows, st).entries == {texts[1], texts[2]} && !Shows(Mac, Advanced(rows), Pushed(Mac, rows, st))
  {
    VersionsPushed(rows, s, 1, 3, st);
    assert forall id :: id in Advanced(rows) ==> id == 3;
    assert forall id :: id in VisibleIds(Advanced(rows)) ==> !RowText(Advanced(rows), id, texts[1]);
  }

  ghost predicate Third(w: World, p: Payload, s: nat, texts: seq<string>) {
    && Existing(w.db, 1) && SameIdentity(w.db.acls[1], p) && w.db.acls[1].kind == p.kind && p.kind.Mac?
    && SecondOnDevice(ListRows(w.db, 1), s, texts, On(w.dev, ListName(p.host, p.name)))
  }

  /** The third version, pushed with success: the second is still there. */
  lemma MacPushed(w: World, ifaces: Inventory, p: Payload, s: nat, texts: seq<string>)
    requires Sound(w.db, ifaces) && Third(w, p, s, texts)
    ensures StaleMac(PushHost(w, p.host), p, texts[1], texts[2])
  {
    PushedWorld(w, ifaces, 1);
    StaleAfter(w, PushHost(w, p.host), p, s, texts);
  }

  lemma StaleAfter(w: World, end: World, p: Payload, s: nat, texts: seq<string>)
    requires Third(w, p, s, texts) && ListPushed(w, end, 1)
    ensures StaleMac(end, p, texts[1], texts[2])
  {
    ThirdVersionShown(ListRows(w.db, 1), s, texts, On(w.dev, ListName(p.host, p.name)));
  }

  lemma MacThird(w: World, ifaces: Inventory, p: Payload, r: Payload, s: nat, texts: seq<string>, saved: World)
    requires Sound(w.db, ifaces) && VersionsOf(w.db, p, s, texts) && NextVersion(p, r) && p.rules[0].sequence == Some(s)
    requires p.kind.Mac? && |texts| == 2 && texts[0] != texts[1] && texts[1] != r.rules[0].text
    requires On(w.dev, ListName(p.host, p.name)) == ListState(map[], {texts[1]})
    requires saved == After(w, ifaces, Save(r))
    ensures Sound(saved.db, ifaces) && Third(saved, p, s, texts + [r.rules[0].text])
  {
    LaterVersion(w, ifaces, p, r, s, texts, saved);
  }

  /** Nothing is pending and only `text` is visible, yet the device shows `stale` too. */
  ghost predicate StaleMac(w: World, p: Payload, stale: string, text: string) {
    var list := ListName(p.host, p.name);
    && Existing(w.db, 1) && NameOf(w.db.acls[1]) == list && PendingIds(ListRows(w.db, 1)) == {}
    && (forall id :: id in VisibleIds(ListRows(w.db, 1)) ==> ListRows(w.db, 1)[id].text == text)
    && On(w.dev, list).entries == {stale, text} && stale != text
    && !Shows(Mac, ListRows(w.db, 1), On(w.dev, list))
  }

  /** A run from empty tables: a MAC rule is saved and pushed, its second version is
      sent by a push that fails, its third version is pushed. One failed push is
      enough for the second version to stay beside the third. */
  lemma MacVersionStrands(ifaces: Inventory, p: Payload, q: Payload, r: Payload, first: World, pushed: World, second: World,
                          sent: seq<Command>, failed: World, third: World, end: World)
    requires FirstSave(p) && p.kind.Mac? && NextVersion(p, q) && NextVersion(p, r)
    requires q.rules[0].text != p.rules[0].text && r.rules[0].text != q.rules[0].text
    requires first == After(EMPTY, ifaces, Save(p)) && pushed == After(first, ifaces, Push(p.host))
    requires second == After(pushed, ifaces, Save(q))
    requires sent == HostBatch(second.db, p.host) && failed == After(second, ifaces, PushFails(p.host, sent))
    requires third == After(failed, ifaces, Save(r)) && end == After(third, ifaces, Push(p.host))
    ensures StaleMac(end, p, q.rules[0].text, r.rules[0].text)
  {
    FirstPushed(ifaces, p, first, pushed);
    MacTail(ifaces, p, q, r, pushed, second, sent, failed, third);
    PushStep(third, ifaces, p.host);
  }

  lemma MacTail(ifaces: Inventory, p: Payload, q: Payload, r: Payload, pushed: World, second: World,
                sent: seq<Command>, failed: World, third: World)
    requires Sound(pushed.db, ifaces) && OneRule(pushed.db, p, Synchronized) && p.kind.Mac? && NextVersion(p, q) && NextVersion(p, r)
    requires On(pushed.dev, ListName(p.host, p.name)) == Alone(p.kind, NewRule(1, p.rules[0]))
    requires q.rules[0].text != p.rules[0].text && r.rules[0].text != q.rules[0].text
    requires second == After(pushed, ifaces, Save(q)) && third == After(failed, ifaces, Save(r))
    requires sent == HostBatch(second.db, p.host) && failed == After(second, ifaces, PushFails(p.host, sent))
    ensures StaleMac(PushHost(third, p.host), p, q.rules[0].text, r.rules[0].text)
  {
    var s: nat := p.rules[0].sequence.value;
    var texts := [p.rules[0].text, q.rules[0].text];
    MacSecond(ifaces, p, q, s, pushed, second, sent, failed);
    MacThird(failed, ifaces, p, r, s, texts, third);
    MacPushed(third, ifaces, p, s, texts + [r.rules[0].text]);
  }

  lemma MacSecond(ifaces: Inventory, p: Payload, q: Payload, s: nat, pushed: World, second: World, sent: seq<Command>, failed: World)
    requires Sound(pushed.db, ifaces) && OneRule(pushed.db, p, Synchronized) && p.kind.Mac? && NextVersion(p, q)
    requires p.rules[0].sequence == Some(s) && q.rules[0].text != p.rules[0].text
    requires On(pushed.dev, ListName(p.host, p.name)) == Alone(p.kind, NewRule(1, p.rules[0]))
    requires second == After(pushed, ifaces, Save(q))
    requires sent == HostBatch(second.db, p.host) && failed == After(second, ifaces, PushFails(p.host, sent))
    ensures Sound(failed.db, ifaces) && VersionsOf(failed.db, p, s, [p.rules[0].text, q.rules[0].text])
    ensures On(failed.dev, ListName(p.host, p.name)) == ListState(map[], {q.rules[0].text})
  {
    RuleIsVersion(pushed.db, p, Synchronized, s);
    MacFailed(pushed, ifaces, p, q, s, p.rules[0].text, second, sent, failed);
  }

  /** A push that fails although every command was applied. */
  lemma FailedWorld(w: World, ifaces: Inventory, host: string, sent: seq<Command>, a: nat)
    requires Sound(w.db, ifaces) && a in w.db.acls && !w.db.acls[a].status.PendingDelete? && w.db.acls[a].host == host
    requires sent == HostBatch(w.db, host)
    ensures var after := After(w, ifaces, PushFails(host, sent));
      && Sound(after.db, ifaces) && after.db == w.db
      && On(after.dev, NameOf(w.db.acls[a])) == Pushed(w.db.acls[a].kind, ListRows(w.db, a), On(w.dev, NameOf(w.db.acls[a])))
  {
    WholeBatch(w.db, host, sent);
    FailsWith(w, ifaces, host, sent);
    BatchOnList(w, ifaces, a);
  }

  lemma WholeBatch(db: Db, host: string, sent: seq<Command>)
    requires sent == HostBatch(db, host)
    ensures PartOfBatch(db, host, sent)
  {
  }

  lemma FailsWith(w: World, ifaces: Inventory, host: string, sent: seq<Command>)
    requires PartOfBatch(w.db, host, sent)
    ensures After(w, ifaces, PushFails(host, sent)) == w.(dev := Exec(w.dev, sent))
  {
  }

  // ---------------------------------------------------------------------
  // A pushed list, edited and deleted before the next push
  // ---------------------------------------------------------------------

  lemma OneDeleted(w: World, ifaces: Inventory)
    requires w.db.acls.Keys == {1} && Existing(w.db, 1) && w.db.acls[1].status.PendingApply?
    ensures var after := After(w, ifaces, Delete([1]));
      after.dev == w.dev && after.db.acls == map[]
  {
    assert Wanted([1]) == [1] by { assert [1][..0] == []; }
    assert DeleteAll(w.db, [1]) == DeleteOne(w.db, 1) by { assert [1][..0] == []; }
  }

  /** No list has the name, and the device holds something under it. */
  ghost predicate Stranded(w: World, list: ListName, st: ListState) {
    !HasList(w.db, list) && On(w.dev, list) == st && st != ABSENT
  }

  lemma EditedThenDeleted(w: World, ifaces: Inventory, p: Payload, q: Payload, saved: World, end: World)
    requires Sound(w.db, ifaces) && OneRule(w.db, p, Synchronized) && NextVersion(p, q)
    requires On(w.dev, ListName(p.host, p.name)) == Alone(p.kind, NewRule(1, p.rules[0]))
    requires saved == After(w, ifaces, Save(q)) && end == After(saved, ifaces, Delete([1]))
    ensures Stranded(end, ListName(p.host, p.name), Alone(p.kind, NewRule(1, p.rules[0])))
  {
    SavedWorld(w, ifaces, q, saved);
    OneDeleted(saved, ifaces);
    AlonePresent(p.kind, NewRule(1, p.rules[0]));
  }

  lemma AlonePresent(kind: Kind, row: RuleRow)
    requires row.sequence.Some?
    ensures Alone(kind, row) != ABSENT
  {
    assert row.text in {row.text} && row.sequence.value in map[row.sequence.value := row.text];
  }

  /** A run from empty tables: the list is gone from the tables, its pushed rule is
      still on the device. */
  lemma EditedListStrands(ifaces: Inventory, p: Payload, q: Payload, first: World, pushed: World, edited: World, end: World)
    requires FirstSave(p) && NextVersion(p, q)
    requires first == After(EMPTY, ifaces, Save(p)) && pushed == After(first, ifaces, Push(p.host))
    requires edited == After(pushed, ifaces, Save(q)) && end == After(edited, ifaces, Delete([1]))
    ensures Stranded(end, ListName(p.host, p.name), Alone(p.kind, NewRule(1, p.rules[0])))
  {
    FirstPushed(ifaces, p, first, pushed);
    EditedThenDeleted(pushed, ifaces, p, q, edited, end);
  }

  lemma StepForeign(w: World, ifaces: Inventory, action: Action, list: ListName)
    requires !HasList(w.db, list)
    ensures On(After(w, ifaces, action).dev, list) == On(w.dev, list)
  {
    match action
    case Push(host) => ForeignKept(w, host, HostBatch(w.db, host), list);
    case PushFails(host, applied) => if PartOfBatch(w.db, host, applied) { ForeignKept(w, host, applied, list); }
    case _ =>
  }

  /** What a device holds under a name stays for as long as no list has that name,
      whatever is saved, deleted and pushed meanwhile. */
  lemma {:induction false} ResidueStays(w: World, ifaces: Inventory, actions: seq<Action>, list: ListName)
    requires forall i :: 0 <= i <= |actions| ==> !HasList(RunActions(w, ifaces, actions[..i]).db, list)
    ensures On(RunActions(w, ifaces, actions).dev, list) == On(w.dev, list)
  {
    if actions != [] {
      var n := |actions| - 1;
      forall i | 0 <= i <= n
        ensures !HasList(RunActions(w, ifaces, actions[..n][..i]).db, list)
      {
        assert actions[..n][..i] == actions[..i];
      }
      ResidueStays(w, ifaces, actions[..n], list);
      StepForeign(RunActions(w, ifaces, actions[..n]), ifaces, actions[n], list);
    }
  }

  // ---------------------------------------------------------------------
  // A change of type
  // ---------------------------------------------------------------------

  /** An accepted save that changes the type of a list. */
  ghost predicate Retypes(db: Db, ifaces: Inventory, p: Payload) {
    && Existing(db, p.aclId) && SameIdentity(db.acls[p.aclId], p) && db.acls[p.aclId].kind != p.kind
    && !p.descriptionOnly && SaveAcl(db, ifaces, p).Some?
  }

  /** It leaves the old rows in the old table, and only new ones in the new table. */
  lemma RetypedTables(db: Db, ifaces: Inventory, p: Payload)
    requires Sound(db, ifaces) && Retypes(db, ifaces, p) && Tidy(db, NameOf(db.acls[p.aclId]))
    ensures var saved, acl: nat := SaveAcl(db, ifaces, p).value, p.aclId;
      && Existing(saved, acl) && saved.acls[acl].kind == p.kind && NameOf(saved.acls[acl]) == NameOf(db.acls[acl])
      && saved.acls[acl].status.PendingApply?
      && RowsOf(saved, db.acls[acl].kind, acl).Keys == ListRows(db, acl).Keys
      && (forall k: Kind, id :: k != p.kind ==> (id in RowsOf(saved, k, acl) <==> id in RowsOf(db, k, acl)))
      && (forall id :: id in ListRows(saved, acl) ==> ListRows(saved, acl)[id].status.PendingApply?)
  {
    var acl: nat := p.aclId;
    var row, saved := db.acls[acl], SaveAcl(db, ifaces, p).value;
    var listed := SetList(db.(rules := MarkRules(db.rules, row.kind, acl)), acl,
                          row.(kind := p.kind, description := p.description, status := PendingApply, actionCfg := 1));
    RetypedLists(db, ifaces, p, listed);
    MarkRulesSound(db, ifaces, row.kind, acl);
    OtherTablesKept(db, listed, row.kind, p.kind, acl, p.rules);
    assert forall k: Kind :: RowsOf(saved, k, acl) == RowsOf(ReplaceRules(listed, p.kind, acl, p.rules), k, acl);
    EmptyReplaced(db, listed, row.kind, p.kind, acl, p.rules);
  }

  lemma RetypedLists(db: Db, ifaces: Inventory, p: Payload, listed: Db)
    requires Retypes(db, ifaces, p)
    requires var acl: nat := p.aclId;
      listed == SetList(db.(rules := MarkRules(db.rules, db.acls[acl].kind, acl)), acl,
                        db.acls[acl].(kind := p.kind, description := p.description, status := PendingApply, actionCfg := 1))
    ensures var saved, acl: nat := SaveAcl(db, ifaces, p).value, p.aclId;
      saved.acls == listed.acls && saved.rules == ReplaceRules(listed, p.kind, acl, p.rules).rules
  {
    var bindings := if p.bindings.None? then ReadBindings(db.bindings, p.aclId, db.nextBinding) else p.bindings.value;
    FinishedLists(listed, ifaces, p, p.aclId, true, bindings, true, ReplaceRules(listed, p.kind, p.aclId, p.rules));
  }

  lemma EmptyReplaced(db: Db, listed: Db, former: Kind, kind: Kind, acl: nat, list: seq<RuleInput>)
    requires IdsFresh(listed) && listed.rules == MarkRules(db.rules, former, acl) && RowsOf(db, kind, acl) == map[]
    ensures forall id :: id in RowsOf(ReplaceRules(listed, kind, acl, list), kind, acl) ==>
      RowsOf(ReplaceRules(listed, kind, acl, list), kind, acl)[id].status.PendingApply?
  {
    MarkedRow(db.rules, former, acl, kind, acl);
    assert RowsOf(listed, kind, acl) == map[];
    ReplacedEdited(listed, kind, acl, list);
  }

  lemma OtherTablesKept(db: Db, listed: Db, former: Kind, kind: Kind, acl: nat, list: seq<RuleInput>)
    requires listed.rules == MarkRules(db.rules, former, acl)
    ensures forall k: Kind, id :: k != kind ==>
      (id in RowsOf(ReplaceRules(listed, kind, acl, list), k, acl) <==> id in RowsOf(db, k, acl))
  {
    MarkedFrom(db.rules, former, acl);
  }

  /** The push after it shows the new rules exactly when they can be rendered and
      take every number still on the device. */
  lemma RetypedThenPushedIff(w: World, ifaces: Inventory, p: Payload, saved: World)
    requires Inv(w, ifaces, ListName(p.host, p.name)) && Tidy(w.db, ListName(p.host, p.name)) && Retypes(w.db, ifaces, p)
    requires !p.kind.Mac? && !w.db.acls[p.aclId].kind.Mac?
    requires saved == w.(db := SaveAcl(w.db, ifaces, p).value)
    ensures var acl: nat, list := p.aclId, ListName(p.host, p.name);
      && acl in saved.db.acls
      && (Shows(p.kind, ListRows(saved.db, acl), On(PushHost(saved, p.host).dev, list))
          <==> Renderable(p.kind, ListRows(saved.db, acl))
               && forall s :: s in On(w.dev, list).lines ==> NumberTaken(ListRows(saved.db, acl), s))
  {
    var acl: nat := p.aclId;
    assert ListInv(w, acl);
    RetypedTables(w.db, ifaces, p);
    SaveAclSound(w.db, ifaces, p);
    RetypedDevice(saved, ifaces, acl);
    RetypedPushShowsIff(p.kind, ListRows(saved.db, acl), On(w.dev, ListName(p.host, p.name)));
  }

  /** That push leaves the list to be collected again exactly when it had rules. */
  lemma RetypedCollectedAgainIff(db: Db, ifaces: Inventory, p: Payload, saved: Db)
    requires Sound(db, ifaces) && Retypes(db, ifaces, p) && Tidy(db, NameOf(db.acls[p.aclId])) && saved == SaveAcl(db, ifaces, p).value
    ensures var acl: nat, after := p.aclId, Apply(saved, HostTracking(saved, p.host));
      acl in after.acls && (NeedsPush(after, acl) <==> ListRows(db, acl) != map[])
  {
    RetypedTables(db, ifaces, p);
    SaveAclSound(db, ifaces, p);
    OldRowsLeft(db, saved, ifaces, p.host, p.aclId);
  }

  lemma RetypedDevice(w: World, ifaces: Inventory, a: nat)
    requires Sound(w.db, ifaces) && Existing(w.db, a)
    ensures var row := w.db.acls[a];
      On(PushHost(w, row.host).dev, NameOf(row)) == Pushed(row.kind, ListRows(w.db, a), On(w.dev, NameOf(row)))
  {
    var host, list := w.db.acls[a].host, NameOf(w.db.acls[a]);
    ExecByList(w.dev, HostBatch(w.db, host), list);
    HostReceived(w.db, host, a);
    if a !in ListsToPush(w.db, host) {
      NothingPending(w.db, a);
    }
  }

  lemma OldRowsLeft(db: Db, saved: Db, ifaces: Inventory, host: string, acl: nat)
    requires Sound(saved, ifaces) && acl in db.acls && Tidy(db, NameOf(db.acls[acl])) && Existing(saved, acl)
    requires saved.acls[acl].host == host && saved.acls[acl].kind != db.acls[acl].kind
    requires forall k: Kind, id :: k != saved.acls[acl].kind ==> (id in RowsOf(saved, k, acl) <==> id in RowsOf(db, k, acl))
    ensures var after := Apply(saved, HostTracking(saved, host));
      acl in after.acls && (NeedsPush(after, acl) <==> ListRows(db, acl) != map[])
  {
    CollectedAgainIff(saved, ifaces, host, acl);
    OtherTableHasRows(db, saved, acl);
  }

  lemma OtherTableHasRows(db: Db, saved: Db, acl: nat)
    requires acl in db.acls && Tidy(db, NameOf(db.acls[acl])) && acl in saved.acls && saved.acls[acl].kind != db.acls[acl].kind
    requires forall k: Kind, id :: k != saved.acls[acl].kind ==> (id in RowsOf(saved, k, acl) <==> id in RowsOf(db, k, acl))
    ensures (exists k: Kind :: k != saved.acls[acl].kind && RowsOf(saved, k, acl) != map[]) <==> ListRows(db, acl) != map[]
  {
    assert Called(db, acl, NameOf(db.acls[acl]));
    forall k: Kind | k != saved.acls[acl].kind
      ensures RowsOf(saved, k, acl) != map[] <==> RowsOf(db, k, acl) != map[]
    {
      assert RowsOf(saved, k, acl).Keys == RowsOf(db, k, acl).Keys;
    }
  }

  /** The tables after each of several successful pushes, the first before any. */
  ghost predicate PushedInTurn(dbs: seq<Db>, host: string) {
    |dbs| < 2 || (dbs[1] == Apply(dbs[0], HostTracking(dbs[0], host)) && PushedInTurn(dbs[1..], host))
  }

  ghost predicate HasOldRows(db: Db, ifaces: Inventory, host: string, acl: nat, k: Kind) {
    && Sound(db, ifaces) && Existing(db, acl) && db.acls[acl].host == host && k != db.acls[acl].kind
    && RowsOf(db, k, acl) != map[]
  }

  lemma OldRowsKept(db: Db, after: Db, ifaces: Inventory, host: string, acl: nat, k: Kind)
    requires HasOldRows(db, ifaces, host, acl, k) && after == Apply(db, HostTracking(db, host))
    ensures HasOldRows(after, ifaces, host, acl, k) && NeedsPush(after, acl)
  {
    PushSound(db, ifaces, host);
    AppliedAcls(db, host);
    CollectedAgainIff(db, ifaces, host, acl);
    AppliedPending(db, ifaces, host, acl, k);
    var id :| id in PendingIds(RowsOf(after, k, acl));
    assert id in RowsOf(after, k, acl);
  }

  /** Once left behind, the old rows make every later push collect the list again. */
  lemma {:induction false} CollectedAtEveryPush(dbs: seq<Db>, ifaces: Inventory, host: string, acl: nat, k: Kind, i: nat)
    requires i < |dbs| && PushedInTurn(dbs, host) && HasOldRows(dbs[0], ifaces, host, acl, k)
    ensures HasOldRows(dbs[i], ifaces, host, acl, k)
    ensures i > 0 ==> NeedsPush(dbs[i], acl)
  {
    if i > 0 {
      OldRowsKept(dbs[0], dbs[1], ifaces, host, acl, k);
      CollectedAtEveryPush(dbs[1..], ifaces, host, acl, k, i - 1);
    }
  }
}
