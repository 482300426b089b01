// The ACL tables and the edits of acl_db.py, rules.py and bindings.py, as
// functions of the whole database.

module AclTables {
  import opened Common
  import opened AclLists

  datatype Direction = Inbound | Outbound

  datatype AclRow = AclRow(
    host: string, name: string, kind: Kind, description: Option<string>, actionCfg: nat, status: SyncStatus)

  datatype BindingRow = BindingRow(iface: nat, direction: Direction, aclId: nat, status: SyncStatus)

  /** Every ACL type has its own rule table, with its own row ids. */
  datatype RuleTables = RuleTables(tables: map<Kind, Rows>) {
    function Get(kind: Kind): Rows {
      if kind in tables then tables[kind] else map[]
    }

    function With(kind: Kind, rows: Rows): (r: RuleTables)
      ensures forall k: Kind :: r.Get(k) == if k == kind then rows else Get(k)
    {
      RuleTables(tables[kind := rows])
    }
  }

  const NO_RULES := RuleTables(map[])

  datatype RuleKey = RuleKey(kind: Kind, id: nat)

  datatype Counters = Counters(next: map<Kind, nat>) {
    function Next(kind: Kind): nat {
      if kind in next then next[kind] else 1
    }

    function Advance(kind: Kind, n: nat): (r: Counters)
      ensures forall k: Kind :: r.Next(k) == if k == kind then Next(k) + n else Next(k)
    {
      if n == 0 then this else Counters(next[kind := Next(kind) + n])
    }
  }

  const FIRST_IDS := Counters(map[])

  /** The inventory the bindings refer to; edits do not change it. */
  datatype Iface = Iface(host: string, status: SyncStatus)
  type Inventory = map<nat, Iface>

  /** The tables; the counters are the AUTOINCREMENT sequences, never reused. */
  datatype Db = Db(
    acls: map<nat, AclRow>, rules: RuleTables, bindings: map<nat, BindingRow>,
    nextAcl: nat, nextRule: Counters, nextBinding: nat)

  type BindingTable = map<nat, BindingRow>

  // ---------------------------------------------------------------------
  // Validation
  // ---------------------------------------------------------------------

  /** One submitted rule; `fieldsValid` stands for the checks on action,
      endpoints, ports and timeouts. */
  datatype RuleInput = RuleInput(sequence: Option<int>, text: string, fieldsValid: bool)

  predicate SequenceInRange(rule: RuleInput) {
    rule.sequence.Some? ==> 1 <= rule.sequence.value <= 65535
  }

  ghost predicate RulesValid(rules: seq<RuleInput>) {
    && (forall i :: 0 <= i < |rules| ==> SequenceInRange(rules[i]) && rules[i].fieldsValid)
    && (forall i, j :: 0 <= i < j < |rules| && rules[i].sequence.Some? ==> rules[i].sequence != rules[j].sequence)
  }

  method ValidateRules(rules: seq<RuleInput>) returns (valid: bool)
    ensures valid == RulesValid(rules)
  {
    var seen: set<int> := {};
    for i := 0 to |rules|
      invariant forall s :: s in seen <==> exists k :: 0 <= k < i && rules[k].sequence == Some(s)
      invariant RulesValid(rules[..i])
    {
      var rule := rules[i];
      if !SequenceInRange(rule) || (rule.sequence.Some? && rule.sequence.value in seen) || !rule.fieldsValid {
        return false;
      }
      if rule.sequence.Some? {
        seen := seen + {rule.sequence.value};
      }
    }
    assert rules[..|rules|] == rules;
    return true;
  }

  predicate NameValid(name: string) {
    && 1 <= |name| <= 64
    && forall c :: c in name ==> 'A' <= c <= 'Z' || 'a' <= c <= 'z' || '0' <= c <= '9' || c in "_.-"
  }

  datatype BindingInput = BindingInput(iface: int, direction: Direction)

  datatype Payload = Payload(
    aclId: int, host: string, name: string, kind: Kind, description: Option<string>, rules: seq<RuleInput>,
    bindings: Option<seq<BindingInput>>, descriptionOnly: bool, rulesChanged: bool, bindingChanged: bool)

  ghost predicate PayloadValid(p: Payload) {
    p.host != "" && NameValid(p.name) && p.rules != [] && RulesValid(p.rules)
  }

  // ---------------------------------------------------------------------
  // Rules
  // ---------------------------------------------------------------------

  /** Mark every rule of a list, in the table of one type, for deletion. */
  function MarkRules(tables: RuleTables, kind: Kind, acl: nat): RuleTables {
    var rows := tables.Get(kind);
    tables.With(kind, map id | id in rows :: if rows[id].aclId == acl then rows[id].(status := PendingDelete) else rows[id])
  }

  function NewRule(acl: nat, input: RuleInput): RuleRow {
    var sequence := if input.sequence.Some? && input.sequence.value > 0 then Some(input.sequence.value as nat) else None;
    RuleRow(acl, sequence, input.text, PendingApply)
  }

  /** The rows inserted for a rule list, numbered in list order. */
  function NewRules(next: nat, acl: nat, list: seq<RuleInput>): (r: Rows)
    ensures forall id :: id in r <==> next <= id < next + |list|
    ensures forall id :: id in r ==> r[id] == NewRule(acl, list[id - next])
  {
    if list == [] then map[]
    else
      var n := |list| - 1;
      NewRules(next, acl, list[..n])[next + n := NewRule(acl, list[n])]
  }

  function ReplaceRules(db: Db, kind: Kind, acl: nat, list: seq<RuleInput>): Db {
    var marked := MarkRules(db.rules, kind, acl);
    db.(rules := marked.With(kind, marked.Get(kind) + NewRules(db.nextRule.Next(kind), acl, list)),
        nextRule := db.nextRule.Advance(kind, |list|))
  }

  function OwnRows(rows: Rows, acl: nat): Rows {
    map id | id in rows && rows[id].aclId == acl :: rows[id]
  }

  /** The rules of a list in the table of one type. */
  function RowsOf(db: Db, kind: Kind, acl: nat): Rows {
    OwnRows(db.rules.Get(kind), acl)
  }

  function ListRows(db: Db, acl: nat): Rows
    requires acl in db.acls
  {
    RowsOf(db, db.acls[acl].kind, acl)
  }

  // ---------------------------------------------------------------------
  // Bindings
  // ---------------------------------------------------------------------

  type Pair = (nat, Direction)

  function PairOf(row: BindingRow): Pair {
    (row.iface, row.direction)
  }

  function MarkBindings(bindings: BindingTable, acl: nat): BindingTable {
    map b | b in bindings :: if bindings[b].aclId == acl then bindings[b].(status := PendingDelete) else bindings[b]
  }

  /** The distinct usable pairs of a submitted list, in order of first use. */
  function Pairs(list: seq<BindingInput>): seq<Pair> {
    if list == [] then []
    else
      var rest := Pairs(list[..|list| - 1]);
      var last := list[|list| - 1];
      if last.iface <= 0 || (last.iface as nat, last.direction) in rest then rest
      else rest + [(last.iface as nat, last.direction)]
  }

  /** INSERT ... ON CONFLICT(iface_id, direction) DO UPDATE. */
  function Upsert(bindings: BindingTable, next: nat, acl: nat, pair: Pair): (BindingTable, nat) {
    if exists b :: b in bindings && PairOf(bindings[b]) == pair then
      (map b | b in bindings :: if PairOf(bindings[b]) == pair then bindings[b].(aclId := acl, status := PendingApply)
                                else bindings[b], next)
    else
      (bindings[next := BindingRow(pair.0, pair.1, acl, PendingApply)], next + 1)
  }

  function UpsertAll(bindings: BindingTable, next: nat, acl: nat, pairs: seq<Pair>): (BindingTable, nat) {
    if pairs == [] then (bindings, next)
    else
      var (b, n) := UpsertAll(bindings, next, acl, pairs[..|pairs| - 1]);
      Upsert(b, n, acl, pairs[|pairs| - 1])
  }

  predicate Bindable(ifaces: Inventory, host: string, iface: nat) {
    iface in ifaces && ifaces[iface].host == host && !ifaces[iface].status.PendingDelete?
  }

  /** None when a pair names an interface that is not an interface of the host. */
  function ReplaceBindings(db: Db, ifaces: Inventory, acl: nat, host: string, list: seq<BindingInput>): Option<Db> {
    var pairs := Pairs(list);
    if exists i :: 0 <= i < |pairs| && !Bindable(ifaces, host, pairs[i].0) then None
    else
      var (b, n) := UpsertAll(MarkBindings(db.bindings, acl), db.nextBinding, acl, pairs);
      Some(db.(bindings := b, nextBinding := n))
  }

  /** The visible bindings of a list in row order, for ids below `n`. */
  function ReadBindings(bindings: BindingTable, acl: nat, n: nat): seq<BindingInput> {
    if n == 0 then []
    else
      var rest := ReadBindings(bindings, acl, n - 1);
      if n - 1 in bindings && bindings[n - 1].aclId == acl && !bindings[n - 1].status.PendingDelete?
      then rest + [BindingInput(bindings[n - 1].iface, bindings[n - 1].direction)] else rest
  }

  // ---------------------------------------------------------------------
  // Lists
  // ---------------------------------------------------------------------

  predicate Existing(db: Db, acl: int) {
    acl > 0 && acl in db.acls && !db.acls[acl].status.PendingDelete?
  }

  function OtherRows(rows: Rows, acl: nat): Rows {
    map id | id in rows && rows[id].aclId != acl :: rows[id]
  }

  /** ON DELETE CASCADE reaches every rule table. */
  function WithoutList(tables: RuleTables, acl: nat): (r: RuleTables)
    ensures forall k: Kind :: r.Get(k) == OtherRows(tables.Get(k), acl)
  {
    RuleTables(map k | k in tables.tables :: OtherRows(tables.tables[k], acl))
  }

  /** A list that is only pending_apply is dropped with its rules and bindings. */
  function SoftDelete(db: Db, acl: nat): Db {
    if acl !in db.acls then db
    else if db.acls[acl].status.PendingApply? then
      db.(acls := db.acls - {acl},
          rules := WithoutList(db.rules, acl),
          bindings := map b | b in db.bindings && db.bindings[b].aclId != acl :: db.bindings[b])
    else
      db.(acls := db.acls[acl := db.acls[acl].(status := PendingDelete)])
  }

  function MarkList(db: Db, acl: nat): Db
    requires acl in db.acls
  {
    db.(rules := MarkRules(db.rules, db.acls[acl].kind, acl), bindings := MarkBindings(db.bindings, acl))
  }

  function DeleteOne(db: Db, acl: nat): Db {
    if acl in db.acls then SoftDelete(MarkList(db, acl), acl) else db
  }

  function DeleteAll(db: Db, acls: seq<nat>): Db {
    if acls == [] then db else DeleteOne(DeleteAll(db, acls[..|acls| - 1]), acls[|acls| - 1])
  }

  predicate Named(db: Db, acl: nat, host: string, name: string) {
    acl in db.acls && db.acls[acl].host == host && db.acls[acl].name == name
  }

  function SetList(db: Db, acl: nat, row: AclRow): Db {
    db.(acls := db.acls[acl := row])
  }

  datatype Located = Taken | At(db: Db, acl: nat)

  /** Insert a new list, or reuse the row of one still awaiting deletion. */
  ghost function CreateOrRevive(db: Db, host: string, name: string, kind: Kind, description: Option<string>): Located {
    if a :| Named(db, a, host, name) then
      if !db.acls[a].status.PendingDelete? then Taken
      else
        At(SetList(MarkList(db, a), a, db.acls[a].(kind := kind, description := description, status := PendingApply, actionCfg := 1)), a)
    else
      At(SetList(db, db.nextAcl, AclRow(host, name, kind, description, 1, PendingApply)).(nextAcl := db.nextAcl + 1), db.nextAcl)
  }

  function OrNone(o: Option<seq<BindingInput>>): seq<BindingInput> {
    if o.Some? then o.value else []
  }

  ghost function FinishSave(
    db: Db, ifaces: Inventory, p: Payload, acl: nat, replaceRules: bool, bindings: seq<BindingInput>, replaceBindings: bool)
    : Option<Db>
  {
    var ruled := if replaceRules then ReplaceRules(db, p.kind, acl, p.rules) else db;
    if replaceBindings then ReplaceBindings(ruled, ifaces, acl, p.host, bindings) else Some(ruled)
  }

  predicate SameIdentity(row: AclRow, p: Payload) {
    row.host == p.host && row.name == p.name
  }

  /** The database after a save, or None when the save is rejected. */
  ghost function SaveAcl(db: Db, ifaces: Inventory, p: Payload): Option<Db> {
    if !PayloadValid(p) then None
    else if p.aclId <= 0 then
      match CreateOrRevive(db, p.host, p.name, p.kind, p.description)
      case Taken => None
      case At(db1, acl) => FinishSave(db1, ifaces, p, acl, true, OrNone(p.bindings), p.bindingChanged)
    else if !Existing(db, p.aclId) then None
    else
      var acl: nat := p.aclId;
      var row := db.acls[acl];
      if p.descriptionOnly then
        Some(SetList(db, acl, row.(description := p.description, actionCfg := 1, status := PendingApply)))
      else if SameIdentity(row, p) && row.kind == p.kind then
        var actionCfg := if row.description != p.description then 1 else row.actionCfg;
        var db1 := SetList(db, acl, row.(description := p.description, actionCfg := actionCfg, status := PendingApply));
        FinishSave(db1, ifaces, p, acl, p.rulesChanged, OrNone(p.bindings), p.bindingChanged)
      else
        var bindings := if p.bindings.None? then ReadBindings(db.bindings, acl, db.nextBinding) else p.bindings.value;
        if SameIdentity(row, p) then
          var db1 := SetList(db.(rules := MarkRules(db.rules, row.kind, acl)), acl,
                             row.(kind := p.kind, description := p.description, status := PendingApply, actionCfg := 1));
          FinishSave(db1, ifaces, p, acl, true, bindings, true)
        else
          match CreateOrRevive(DeleteOne(db, acl), p.host, p.name, p.kind, p.description)
          case Taken => None
          case At(db1, target) => FinishSave(db1, ifaces, p, target, true, bindings, true)
  }

  ghost function SaveAclBindings(db: Db, ifaces: Inventory, acl: int, list: seq<BindingInput>): Option<Db> {
    if !Existing(db, acl) then None
    else
      var replaced := ReplaceBindings(db, ifaces, acl, db.acls[acl].host, list);
      if replaced.None? then None
      else Some(SetList(replaced.value, acl, db.acls[acl].(status := PendingApply)))
  }

  /** The distinct positive ids of a request, in order. */
  function Wanted(ids: seq<int>): seq<nat> {
    if ids == [] then []
    else
      var rest := Wanted(ids[..|ids| - 1]);
      var last := ids[|ids| - 1];
      if last <= 0 || (last as nat) in rest then rest else rest + [last as nat]
  }

  function DeleteAcls(db: Db, ids: seq<int>): Option<Db> {
    var acls := Wanted(ids);
    if acls == [] || exists i :: 0 <= i < |acls| && !Existing(db, acls[i]) then None else Some(DeleteAll(db, acls))
  }

  // ---------------------------------------------------------------------
  // Collecting and applying a push
  // ---------------------------------------------------------------------

  /** The rows a task will advance or remove once its push succeeded. */
  datatype Tracking = Tracking(
    aclAdd: set<nat>, aclDel: set<nat>, ruleAdd: set<RuleKey>, ruleDel: set<RuleKey>, bindAdd: set<nat>, bindDel: set<nat>)
  {
    function Union(other: Tracking): Tracking {
      Tracking(aclAdd + other.aclAdd, aclDel + other.aclDel, ruleAdd + other.ruleAdd, ruleDel + other.ruleDel,
               bindAdd + other.bindAdd, bindDel + other.bindDel)
    }
  }

  const NOTHING := Tracking({}, {}, {}, {}, {}, {})

  function PendingBindings(db: Db, acl: nat): set<nat> {
    set b | b in db.bindings && db.bindings[b].aclId == acl && db.bindings[b].status.Pending()
  }

  /** The collector's guard against a binding to another host's interface. */
  predicate BindingsOnHost(db: Db, ifaces: Inventory, acl: nat)
    requires acl in db.acls
  {
    forall b :: b in PendingBindings(db, acl) ==>
      db.bindings[b].iface in ifaces && ifaces[db.bindings[b].iface].host == db.acls[acl].host
  }

  ghost function Track(db: Db, acl: nat): Tracking
    requires acl in db.acls
  {
    var row := db.acls[acl];
    var removed := row.status.PendingDelete?;
    var rules := Collect(ListRows(db, acl), removed, PendingQuery(ListRows(db, acl)));
    Tracking(
      if row.status.Pending() && !removed then {acl} else {},
      if removed then {acl} else {},
      set id | id in rules.trackAdd :: RuleKey(row.kind, id),
      set id | id in rules.trackDel :: RuleKey(row.kind, id),
      set b | b in PendingBindings(db, acl) && !db.bindings[b].status.PendingDelete?,
      set b | b in PendingBindings(db, acl) && db.bindings[b].status.PendingDelete?)
  }

  function Settle(status: SyncStatus): SyncStatus {
    if status.Pending() then Synchronized else status
  }

  function ApplyRules(rows: Rows, kind: Kind, t: Tracking): Rows {
    map id | id in rows && !(RuleKey(kind, id) in t.ruleDel && rows[id].status.PendingDelete?) ::
      if RuleKey(kind, id) in t.ruleAdd then rows[id].(status := Settle(rows[id].status)) else rows[id]
  }

  function ApplyTables(tables: RuleTables, t: Tracking): (r: RuleTables)
    ensures forall k: Kind :: r.Get(k) == ApplyRules(tables.Get(k), k, t)
  {
    RuleTables(map k | k in tables.tables :: ApplyRules(tables.tables[k], k, t))
  }

  /** Deletions touch only rows still awaiting deletion, additions only pending
      rows. This connection does not enforce foreign keys: nothing cascades. */
  function Apply(db: Db, t: Tracking): Db {
    db.(acls := map a | a in db.acls && !(a in t.aclDel && db.acls[a].status.PendingDelete?) ::
          if a in t.aclAdd then db.acls[a].(status := Settle(db.acls[a].status)) else db.acls[a],
        rules := ApplyTables(db.rules, t),
        bindings := map b | b in db.bindings && !(b in t.bindDel && db.bindings[b].status.PendingDelete?) ::
          if b in t.bindAdd then db.bindings[b].(status := Settle(db.bindings[b].status)) else db.bindings[b])
  }

  /** A list is collected when it or anything under it, in any rule table, is pending. */
  ghost predicate NeedsPush(db: Db, acl: nat)
    requires acl in db.acls
  {
    || db.acls[acl].status.Pending()
    || (exists k: Kind :: PendingIds(RowsOf(db, k, acl)) != {})
    || PendingBindings(db, acl) != {}
  }

  // ---------------------------------------------------------------------
  // What every run keeps
  // ---------------------------------------------------------------------

  ghost predicate NamesUnique(db: Db) {
    forall a, b :: a in db.acls && b in db.acls && db.acls[a].host == db.acls[b].host && db.acls[a].name == db.acls[b].name ==>
      a == b
  }

  ghost predicate IdsFresh(db: Db) {
    && db.nextAcl > 0
    && (forall a :: a in db.acls ==> 0 < a < db.nextAcl)
    && (forall k: Kind, id :: id in db.rules.Get(k) ==> id < db.nextRule.Next(k) && db.rules.Get(k)[id].aclId < db.nextAcl)
    && (forall b :: b in db.bindings ==> b < db.nextBinding && db.bindings[b].aclId < db.nextAcl)
  }

  ghost predicate BindingsOwned(db: Db, ifaces: Inventory) {
    forall b :: b in db.bindings ==>
      && db.bindings[b].aclId in db.acls
      && db.bindings[b].iface in ifaces
      && ifaces[db.bindings[b].iface].host == db.acls[db.bindings[b].aclId].host
  }

  ghost predicate PairsUnique(bindings: BindingTable) {
    forall b, c :: b in bindings && c in bindings && PairOf(bindings[b]) == PairOf(bindings[c]) ==> b == c
  }

  predicate Removed(db: Db, acl: nat) {
    acl in db.acls && db.acls[acl].status.PendingDelete?
  }

  /** Under a list awaiting deletion everything awaits deletion. */
  ghost predicate DeletedTogether(db: Db) {
    && (forall k: Kind, id :: id in db.rules.Get(k) && Removed(db, db.rules.Get(k)[id].aclId) ==>
          db.rules.Get(k)[id].status.PendingDelete?)
    && (forall b :: b in db.bindings && Removed(db, db.bindings[b].aclId) ==> db.bindings[b].status.PendingDelete?)
  }

  predicate OtherKind(db: Db, acl: nat, kind: Kind) {
    acl in db.acls && db.acls[acl].kind != kind
  }

  /** Rule rows outside the table of their list's current type, left there by a
      change of type, await deletion. */
  ghost predicate OthersDeleted(db: Db) {
    forall k: Kind, id :: id in db.rules.Get(k) && OtherKind(db, db.rules.Get(k)[id].aclId, k) ==>
      db.rules.Get(k)[id].status.PendingDelete?
  }

  ghost predicate Sound(db: Db, ifaces: Inventory) {
    NamesUnique(db) && IdsFresh(db) && BindingsOwned(db, ifaces) && PairsUnique(db.bindings) && DeletedTogether(db)
    && OthersDeleted(db)
  }

  // Each step of an edit keeps the tables sound.

  ghost predicate AllDeleted(db: Db, acl: nat) {
    forall k: Kind, id :: id in db.rules.Get(k) && db.rules.Get(k)[id].aclId == acl ==> db.rules.Get(k)[id].status.PendingDelete?
  }

  ghost predicate Live(db: Db, acl: nat, host: string, kind: Kind) {
    acl in db.acls && db.acls[acl].host == host && db.acls[acl].kind == kind && !db.acls[acl].status.PendingDelete?
  }

  /** A rule that was there, perhaps queued for deletion since, or one inserted
      under a fresh id for a list that is not awaiting deletion. */
  ghost predicate KeptOrNew(db: Db, after: Db, k: Kind, id: nat)
    requires id in after.rules.Get(k)
  {
    var row := after.rules.Get(k)[id];
    if id in db.rules.Get(k) then
      row.aclId == db.rules.Get(k)[id].aclId && (row.status == db.rules.Get(k)[id].status || row.status.PendingDelete?)
    else
      && db.nextRule.Next(k) <= id < after.nextRule.Next(k)
      && row.aclId in db.acls && db.acls[row.aclId].kind == k && !db.acls[row.aclId].status.PendingDelete?
  }

  ghost predicate RulesChange(db: Db, after: Db) {
    && after == db.(rules := after.rules, nextRule := after.nextRule)
    && (forall k: Kind :: db.nextRule.Next(k) <= after.nextRule.Next(k))
    && (forall k: Kind, id :: id in after.rules.Get(k) ==> KeptOrNew(db, after, k, id))
  }

  lemma RulesChangeFresh(db: Db, ifaces: Inventory, after: Db)
    requires Sound(db, ifaces) && RulesChange(db, after)
    ensures IdsFresh(after)
  {
    forall k: Kind, id | id in after.rules.Get(k)
      ensures id < after.nextRule.Next(k) && after.rules.Get(k)[id].aclId < after.nextAcl
    {
      assert KeptOrNew(db, after, k, id);
    }
  }

  lemma RulesChangeTogether(db: Db, ifaces: Inventory, after: Db)
    requires Sound(db, ifaces) && RulesChange(db, after)
    ensures DeletedTogether(after)
  {
    forall k: Kind, id | id in after.rules.Get(k) && Removed(after, after.rules.Get(k)[id].aclId)
      ensures after.rules.Get(k)[id].status.PendingDelete?
    {
      assert KeptOrNew(db, after, k, id);
    }
  }

  lemma RulesChangeOthers(db: Db, ifaces: Inventory, after: Db)
    requires Sound(db, ifaces) && RulesChange(db, after)
    ensures OthersDeleted(after)
  {
    forall k: Kind, id | id in after.rules.Get(k) && OtherKind(after, after.rules.Get(k)[id].aclId, k)
      ensures after.rules.Get(k)[id].status.PendingDelete?
    {
      assert KeptOrNew(db, after, k, id);
    }
  }

  lemma RulesChangeSound(db: Db, ifaces: Inventory, after: Db)
    requires Sound(db, ifaces) && RulesChange(db, after)
    ensures Sound(after, ifaces)
  {
    RulesChangeFresh(db, ifaces, after);
    RulesChangeTogether(db, ifaces, after);
    RulesChangeOthers(db, ifaces, after);
  }

  lemma MarkRulesSound(db: Db, ifaces: Inventory, kind: Kind, acl: nat)
    requires Sound(db, ifaces)
    ensures Sound(db.(rules := MarkRules(db.rules, kind, acl)), ifaces)
  {
    RulesChangeSound(db, ifaces, db.(rules := MarkRules(db.rules, kind, acl)));
  }

  lemma MarkBindingsSound(db: Db, ifaces: Inventory, acl: nat)
    requires Sound(db, ifaces)
    ensures Sound(db.(bindings := MarkBindings(db.bindings, acl)), ifaces)
  {
    assert forall b :: b in db.bindings ==> PairOf(MarkBindings(db.bindings, acl)[b]) == PairOf(db.bindings[b]);
  }

  lemma MarkListSound(db: Db, ifaces: Inventory, acl: nat)
    requires Sound(db, ifaces) && acl in db.acls
    ensures Sound(MarkList(db, acl), ifaces)
    ensures AllDeleted(MarkList(db, acl), acl)
  {
    MarkRulesSound(db, ifaces, db.acls[acl].kind, acl);
    MarkBindingsSound(db.(rules := MarkRules(db.rules, db.acls[acl].kind, acl)), ifaces, acl);
    ListAllDeleted(db, ifaces, acl);
  }

  lemma ListAllDeleted(db: Db, ifaces: Inventory, acl: nat)
    requires OthersDeleted(db) && acl in db.acls
    ensures AllDeleted(MarkList(db, acl), acl)
  {
    var after := MarkList(db, acl);
    forall k: Kind, id | id in after.rules.Get(k) && after.rules.Get(k)[id].aclId == acl
      ensures after.rules.Get(k)[id].status.PendingDelete?
    {
      assert k != db.acls[acl].kind ==> OtherKind(db, db.rules.Get(k)[id].aclId, k);
    }
  }

  lemma DeleteOneSound(db: Db, ifaces: Inventory, acl: nat)
    requires Sound(db, ifaces)
    ensures Sound(DeleteOne(db, acl), ifaces)
    ensures DeleteOne(db, acl).nextAcl == db.nextAcl
  {
    if acl in db.acls {
      MarkListSound(db, ifaces, acl);
      SoftDeleteSound(MarkList(db, acl), ifaces, acl);
    }
  }

  lemma SoftDeleteSound(db: Db, ifaces: Inventory, acl: nat)
    requires Sound(db, ifaces) && acl in db.acls && AllDeleted(db, acl)
    requires forall b :: b in db.bindings && db.bindings[b].aclId == acl ==> db.bindings[b].status.PendingDelete?
    ensures Sound(SoftDelete(db, acl), ifaces)
  {
    if db.acls[acl].status.PendingApply? {
      DropListSound(db, ifaces, acl);
    } else {
      QueueListSound(db, ifaces, acl);
    }
  }

  lemma QueueListSound(db: Db, ifaces: Inventory, acl: nat)
    requires Sound(db, ifaces) && acl in db.acls && AllDeleted(db, acl)
    requires forall b :: b in db.bindings && db.bindings[b].aclId == acl ==> db.bindings[b].status.PendingDelete?
    ensures Sound(SetList(db, acl, db.acls[acl].(status := PendingDelete)), ifaces)
  {
  }

  lemma DropListSound(db: Db, ifaces: Inventory, acl: nat)
    requires Sound(db, ifaces) && acl in db.acls && db.acls[acl].status.PendingApply?
    ensures Sound(SoftDelete(db, acl), ifaces)
  {
    var after := SoftDelete(db, acl);
    forall k: Kind, id | id in after.rules.Get(k)
      ensures id in db.rules.Get(k) && after.rules.Get(k)[id] == db.rules.Get(k)[id] && db.rules.Get(k)[id].aclId != acl
    {
      assert after.rules.Get(k) == OtherRows(db.rules.Get(k), acl);
    }
    DropRulesSound(db, ifaces, acl);
    assert forall b :: b in after.bindings ==> b in db.bindings && after.bindings[b] == db.bindings[b];
  }

  lemma DropRulesSound(db: Db, ifaces: Inventory, acl: nat)
    requires Sound(db, ifaces) && acl in db.acls && db.acls[acl].status.PendingApply?
    ensures OthersDeleted(SoftDelete(db, acl)) && DeletedTogether(SoftDelete(db, acl))
  {
    var after := SoftDelete(db, acl);
    forall k: Kind, id | id in after.rules.Get(k)
      ensures OtherKind(after, after.rules.Get(k)[id].aclId, k) ==> after.rules.Get(k)[id].status.PendingDelete?
      ensures Removed(after, after.rules.Get(k)[id].aclId) ==> after.rules.Get(k)[id].status.PendingDelete?
    {
      assert after.rules.Get(k) == OtherRows(db.rules.Get(k), acl);
      assert id in db.rules.Get(k) && after.rules.Get(k)[id] == db.rules.Get(k)[id];
      assert OtherKind(after, after.rules.Get(k)[id].aclId, k) ==> OtherKind(db, db.rules.Get(k)[id].aclId, k);
    }
  }

  /** Giving a list a new row, when its rules allow the row's type and status. */
  lemma SetListSound(db: Db, ifaces: Inventory, acl: nat, row: AclRow)
    requires Sound(db, ifaces) && acl in db.acls
    requires row.host == db.acls[acl].host && row.name == db.acls[acl].name && !row.status.PendingDelete?
    requires forall k: Kind, id :: id in db.rules.Get(k) && db.rules.Get(k)[id].aclId == acl && k != row.kind ==>
      db.rules.Get(k)[id].status.PendingDelete?
    ensures Sound(SetList(db, acl, row), ifaces)
  {
  }

  lemma NewListSound(db: Db, ifaces: Inventory, row: AclRow)
    requires Sound(db, ifaces) && (forall a :: !Named(db, a, row.host, row.name)) && !row.status.PendingDelete?
    ensures Sound(SetList(db, db.nextAcl, row).(nextAcl := db.nextAcl + 1), ifaces)
  {
    assert forall a :: a in db.acls ==> !(db.acls[a].host == row.host && db.acls[a].name == row.name) by {
      assert forall a :: a in db.acls ==> !Named(db, a, row.host, row.name);
    }
  }

  lemma CreateOrReviveSound(db: Db, ifaces: Inventory, host: string, name: string, kind: Kind, description: Option<string>)
    requires Sound(db, ifaces)
    ensures var r := CreateOrRevive(db, host, name, kind, description);
      r.At? ==> Sound(r.db, ifaces) && Live(r.db, r.acl, host, kind)
  {
    var r := CreateOrRevive(db, host, name, kind, description);
    if exists a :: Named(db, a, host, name) {
      var a :| Named(db, a, host, name);
      if r.At? {
        assert a == r.acl;
        MarkListSound(db, ifaces, a);
        SetListSound(MarkList(db, a), ifaces, a, r.db.acls[a]);
      }
    } else {
      NewListSound(db, ifaces, AclRow(host, name, kind, description, 1, PendingApply));
    }
  }

  lemma ReplaceRulesSound(db: Db, ifaces: Inventory, acl: nat, list: seq<RuleInput>)
    requires Sound(db, ifaces) && acl in db.acls && !db.acls[acl].status.PendingDelete?
    ensures Sound(ReplaceRules(db, db.acls[acl].kind, acl, list), ifaces)
  {
    var kind := db.acls[acl].kind;
    var after := ReplaceRules(db, kind, acl, list);
    assert after.rules.Get(kind) == MarkRules(db.rules, kind, acl).Get(kind) + NewRules(db.nextRule.Next(kind), acl, list);
    forall k: Kind, id | id in after.rules.Get(k)
      ensures KeptOrNew(db, after, k, id)
    {
    }
    RulesChangeSound(db, ifaces, after);
  }

  lemma {:induction false} UpsertAllSound(db: Db, ifaces: Inventory, acl: nat, pairs: seq<Pair>)
    requires Sound(db, ifaces) && acl in db.acls && !db.acls[acl].status.PendingDelete?
    requires forall i :: 0 <= i < |pairs| ==> Bindable(ifaces, db.acls[acl].host, pairs[i].0)
    ensures var (b, n) := UpsertAll(db.bindings, db.nextBinding, acl, pairs);
      Sound(db.(bindings := b, nextBinding := n), ifaces)
  {
    if pairs != [] {
      var n := |pairs| - 1;
      UpsertAllSound(db, ifaces, acl, pairs[..n]);
      var (b, m) := UpsertAll(db.bindings, db.nextBinding, acl, pairs[..n]);
      UpsertSound(db.(bindings := b, nextBinding := m), ifaces, acl, pairs[n]);
    }
  }

  ghost predicate BelowNext(bindings: BindingTable, next: nat) {
    forall b :: b in bindings ==> b < next
  }

  lemma UpsertUnique(before: BindingTable, next: nat, acl: nat, pair: Pair)
    requires PairsUnique(before) && BelowNext(before, next)
    ensures var (after, n) := Upsert(before, next, acl, pair);
      PairsUnique(after) && BelowNext(after, n)
  {
  }

  /** Rows for other lists stay; the pair's row is pending for the list. */
  lemma UpsertRows(before: BindingTable, next: nat, acl: nat, pair: Pair)
    ensures var (after, n) := Upsert(before, next, acl, pair);
      n >= next && forall b :: b in after ==>
        (b in before && after[b] == before[b])
        || (PairOf(after[b]) == pair && after[b].aclId == acl && after[b].status.PendingApply? && b < n)
        || (b in before && PairOf(after[b]) == pair && after[b].aclId == acl && after[b].status.PendingApply?)
  {
  }

  lemma UpsertSound(db: Db, ifaces: Inventory, acl: nat, pair: Pair)
    requires Sound(db, ifaces) && acl in db.acls && !db.acls[acl].status.PendingDelete?
    requires Bindable(ifaces, db.acls[acl].host, pair.0)
    ensures var (b, n) := Upsert(db.bindings, db.nextBinding, acl, pair);
      Sound(db.(bindings := b, nextBinding := n), ifaces)
  {
    UpsertUnique(db.bindings, db.nextBinding, acl, pair);
    UpsertRows(db.bindings, db.nextBinding, acl, pair);
    var (b, n) := Upsert(db.bindings, db.nextBinding, acl, pair);
    BindingsSound(db, ifaces, acl, b, n);
  }

  /** Rows that stay, and pending rows of one list on its own host. */
  lemma BindingsSound(db: Db, ifaces: Inventory, acl: nat, bindings: BindingTable, next: nat)
    requires Sound(db, ifaces) && acl in db.acls && !db.acls[acl].status.PendingDelete?
    requires PairsUnique(bindings) && BelowNext(bindings, next)
    requires forall b :: b in bindings ==>
      || (b in db.bindings && bindings[b] == db.bindings[b])
      || (bindings[b].aclId == acl && bindings[b].iface in ifaces && ifaces[bindings[b].iface].host == db.acls[acl].host)
    ensures Sound(db.(bindings := bindings, nextBinding := next), ifaces)
  {
  }

  lemma ReplaceBindingsSound(db: Db, ifaces: Inventory, acl: nat, list: seq<BindingInput>)
    requires Sound(db, ifaces) && acl in db.acls && !db.acls[acl].status.PendingDelete?
    ensures var r := ReplaceBindings(db, ifaces, acl, db.acls[acl].host, list);
      r.Some? ==> Sound(r.value, ifaces) && r.value.acls == db.acls && r.value.rules == db.rules
  {
    if ReplaceBindings(db, ifaces, acl, db.acls[acl].host, list).Some? {
      UpsertAllSound(db.(bindings := MarkBindings(db.bindings, acl)), ifaces, acl, Pairs(list));
    }
  }

  lemma FinishSaveSound(db: Db, ifaces: Inventory, p: Payload, acl: nat, rules: bool, bindings: seq<BindingInput>, bind: bool)
    requires Sound(db, ifaces) && Live(db, acl, p.host, p.kind)
    ensures var r := FinishSave(db, ifaces, p, acl, rules, bindings, bind);
      r.Some? ==> Sound(r.value, ifaces)
  {
    ReplaceRulesSound(db, ifaces, acl, p.rules);
    var ruled := if rules then ReplaceRules(db, p.kind, acl, p.rules) else db;
    ReplaceBindingsSound(ruled, ifaces, acl, bindings);
  }

  lemma SaveInPlaceSound(db: Db, ifaces: Inventory, p: Payload, row: AclRow, rules: bool, bind: bool)
    requires Sound(db, ifaces) && Existing(db, p.aclId)
    requires SameIdentity(row, p) && row.kind == p.kind && !row.status.PendingDelete?
    requires SameIdentity(db.acls[p.aclId], p) && db.acls[p.aclId].kind == p.kind
    ensures var r := FinishSave(SetList(db, p.aclId, row), ifaces, p, p.aclId, rules, OrNone(p.bindings), bind);
      r.Some? ==> Sound(r.value, ifaces)
  {
    SetListSound(db, ifaces, p.aclId, row);
    FinishSaveSound(SetList(db, p.aclId, row), ifaces, p, p.aclId, rules, OrNone(p.bindings), bind);
  }

  lemma SaveRetypedSound(db: Db, ifaces: Inventory, p: Payload, row: AclRow, bindings: seq<BindingInput>)
    requires Sound(db, ifaces) && Existing(db, p.aclId) && SameIdentity(db.acls[p.aclId], p)
    requires SameIdentity(row, p) && row.kind == p.kind && !row.status.PendingDelete?
    ensures var marked := db.(rules := MarkRules(db.rules, db.acls[p.aclId].kind, p.aclId));
      var r := FinishSave(SetList(marked, p.aclId, row), ifaces, p, p.aclId, true, bindings, true);
      r.Some? ==> Sound(r.value, ifaces)
  {
    var marked := db.(rules := MarkRules(db.rules, db.acls[p.aclId].kind, p.aclId));
    MarkRulesSound(db, ifaces, db.acls[p.aclId].kind, p.aclId);
    SetListSound(marked, ifaces, p.aclId, row);
    FinishSaveSound(SetList(marked, p.aclId, row), ifaces, p, p.aclId, true, bindings, true);
  }

  lemma SaveLocatedSound(db: Db, ifaces: Inventory, p: Payload, bindings: seq<BindingInput>, bind: bool)
    requires Sound(db, ifaces)
    ensures var at := CreateOrRevive(db, p.host, p.name, p.kind, p.description);
      at.At? ==> var r := FinishSave(at.db, ifaces, p, at.acl, true, bindings, bind);
        r.Some? ==> Sound(r.value, ifaces)
  {
    var at := CreateOrRevive(db, p.host, p.name, p.kind, p.description);
    CreateOrReviveSound(db, ifaces, p.host, p.name, p.kind, p.description);
    if at.At? {
      FinishSaveSound(at.db, ifaces, p, at.acl, true, bindings, bind);
    }
  }

  /** Every accepted save keeps the tables sound, whatever was submitted. */
  lemma SaveAclSound(db: Db, ifaces: Inventory, p: Payload)
    requires Sound(db, ifaces) && SaveAcl(db, ifaces, p).Some?
    ensures Sound(SaveAcl(db, ifaces, p).value, ifaces)
  {
    if p.aclId <= 0 {
      SaveLocatedSound(db, ifaces, p, OrNone(p.bindings), p.bindingChanged);
    } else {
      var acl: nat := p.aclId;
      var row := db.acls[acl];
      if p.descriptionOnly {
        SetListSound(db, ifaces, acl, row.(description := p.description, actionCfg := 1, status := PendingApply));
      } else if SameIdentity(row, p) && row.kind == p.kind {
        var actionCfg := if row.description != p.description then 1 else row.actionCfg;
        SaveInPlaceSound(db, ifaces, p, row.(description := p.description, actionCfg := actionCfg, status := PendingApply),
                         p.rulesChanged, p.bindingChanged);
      } else {
        var bindings := if p.bindings.None? then ReadBindings(db.bindings, acl, db.nextBinding) else p.bindings.value;
        if SameIdentity(row, p) {
          SaveRetypedSound(db, ifaces, p,
            row.(kind := p.kind, description := p.description, status := PendingApply, actionCfg := 1), bindings);
        } else {
          DeleteOneSound(db, ifaces, acl);
          SaveLocatedSound(DeleteOne(db, acl), ifaces, p, bindings, true);
        }
      }
    }
  }

  lemma {:induction false} DeleteAllSound(db: Db, ifaces: Inventory, acls: seq<nat>)
    requires Sound(db, ifaces)
    ensures Sound(DeleteAll(db, acls), ifaces)
  {
    if acls != [] {
      DeleteAllSound(db, ifaces, acls[..|acls| - 1]);
      DeleteOneSound(DeleteAll(db, acls[..|acls| - 1]), ifaces, acls[|acls| - 1]);
    }
  }

  lemma SaveAclBindingsSound(db: Db, ifaces: Inventory, acl: int, list: seq<BindingInput>)
    requires Sound(db, ifaces) && SaveAclBindings(db, ifaces, acl, list).Some?
    ensures Sound(SaveAclBindings(db, ifaces, acl, list).value, ifaces)
  {
    var a: nat := acl;
    ReplaceBindingsSound(db, ifaces, a, list);
    var replaced := ReplaceBindings(db, ifaces, a, db.acls[a].host, list).value;
    SetListSound(replaced, ifaces, a, db.acls[a].(status := PendingApply));
  }

  /** The guard in the collector never fires on sound tables. */
  lemma GuardNeverFires(db: Db, ifaces: Inventory, acl: nat)
    requires Sound(db, ifaces) && acl in db.acls
    ensures BindingsOnHost(db, ifaces, acl)
    ensures forall b :: b in db.bindings && db.bindings[b].aclId == acl ==>
      db.bindings[b].iface in ifaces && ifaces[db.bindings[b].iface].host == db.acls[acl].host
  {
  }
}
