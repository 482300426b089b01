// DHCP staging tables: the pending rows of a host, the push task they become, and the
// effect of marking a pushed task. Two components collect and two mark; the
// meaning they share is defined here.

module DhcpTables {
  import opened Common

  datatype Kind = Excluded | Pool | Helper

  /** `owner` is the host, or for a helper the interface it belongs to. A missing
      status or mask is a NULL column. */
  datatype Row = Row(owner: string, fields: seq<string>, mask: Option<string>, status: Option<SyncStatus>)

  type Table = map<nat, Row>

  datatype Interface = Interface(host: string, name: string)

  datatype Db = Db(excluded: Table, pools: Table, helpers: Table, interfaces: map<string, Interface>) {
    function Of(kind: Kind): Table {
      match kind
      case Excluded => excluded
      case Pool => pools
      case Helper => helpers
    }
  }

  predicate Waiting(status: Option<SyncStatus>) {
    status.None? || status.value.Pending()
  }

  /** A helper of an unknown interface has no host. */
  function HostOf(kind: Kind, row: Row, interfaces: map<string, Interface>): Option<string> {
    if !kind.Helper? then Some(row.owner)
    else if row.owner in interfaces then Some(interfaces[row.owner].host)
    else None
  }

  predicate IsSelected(db: Db, kind: Kind, host: string, id: nat) {
    && id in db.Of(kind) && Waiting(db.Of(kind)[id].status)
    && HostOf(kind, db.Of(kind)[id], db.interfaces) == Some(host)
  }

  /** The rows of one table that await a push to a host. */
  function Selected(db: Db, kind: Kind, host: string): set<nat> {
    set id | id in db.Of(kind) && IsSelected(db, kind, host, id)
  }

  /** Whose row it is: a helper belongs to the host of its interface and to none when
      the interface is unknown, any other row to the host it names. A row without a
      status waits like one to be applied or deleted. */
  lemma SelectedIff(db: Db, kind: Kind, host: string, id: nat)
    ensures id in Selected(db, kind, host) <==>
      && id in db.Of(kind)
      && (db.Of(kind)[id].status == None || db.Of(kind)[id].status == Some(PendingApply) || db.Of(kind)[id].status == Some(PendingDelete))
      && var owner := db.Of(kind)[id].owner;
        if kind.Helper? then owner in db.interfaces && db.interfaces[owner].host == host else owner == host
  {
    if id in db.Of(kind) {
      assert IsSelected(db, kind, host, id) <==> id in Selected(db, kind, host);
    }
  }

  // ---------------------------------------------------------------------
  // Option masks
  // ---------------------------------------------------------------------

  /** Bit test of the stand-alone collector: no mask pushes every option. */
  predicate TextBit(mask: Option<string>, bit: nat) {
    if mask.None? || mask.value == "" then true
    else
      var position := |mask.value| - 1 - bit;
      0 <= position < |mask.value| && mask.value[position] == '1'
  }

  /** Bit test of the view's collector, which fills in a mask of three ones. */
  predicate FilledBit(mask: Option<string>, bit: nat) {
    var filled := if mask.None? || mask.value == "" then "111" else mask.value;
    if |filled| <= bit then false else filled[|filled| - 1 - bit] == '1'
  }

  /** The two agree on every mask exactly for the three bits that are used. */
  lemma BitsAgreeIff(bit: nat)
    ensures (forall mask :: TextBit(mask, bit) <==> FilledBit(mask, bit)) <==> bit <= 2
  {
    if bit > 2 {
      assert TextBit(None, bit) && !FilledBit(None, bit);
    }
  }

  // ---------------------------------------------------------------------
  // Tasks
  // ---------------------------------------------------------------------

  datatype State = Setup | Remove | Ignore

  function StateOf(status: Option<SyncStatus>): State {
    if status.None? || status.value.PendingApply? then Setup
    else if status.value.PendingDelete? then Remove
    else Ignore
  }

  /** What a device is told about one row. */
  datatype Item = Item(fields: seq<string>, interfaceName: string,
                       pushDefault: bool, pushDns: bool, pushLease: bool, state: State)

  function NameOf(kind: Kind, row: Row, interfaces: map<string, Interface>): string {
    if kind.Helper? && row.owner in interfaces then interfaces[row.owner].name else ""
  }

  function ItemOf(kind: Kind, row: Row, interfaces: map<string, Interface>): Item {
    Item(row.fields, NameOf(kind, row, interfaces),
         kind.Pool? && TextBit(row.mask, 2), kind.Pool? && TextBit(row.mask, 1), kind.Pool? && TextBit(row.mask, 0),
         StateOf(row.status))
  }

  /** One table's share of a task: items, and the ids to settle or to drop. */
  datatype Part = Part(items: seq<Item>, add: seq<nat>, del: seq<nat>)

  function Extend(part: Part, id: nat, item: Item): Part {
    if item.state.Remove? then Part(part.items + [item], part.add, part.del + [id])
    else Part(part.items + [item], part.add + [id], part.del)
  }

  function PartOf(db: Db, kind: Kind, order: seq<nat>): Part
    requires forall id :: id in order ==> id in db.Of(kind)
  {
    if order == [] then Part([], [], [])
    else
      var id := order[|order| - 1];
      Extend(PartOf(db, kind, order[..|order| - 1]), id, ItemOf(kind, db.Of(kind)[id], db.interfaces))
  }

  datatype Task = Task(host: string, excluded: Part, pools: Part, helpers: Part) {
    function Of(kind: Kind): Part {
      match kind
      case Excluded => excluded
      case Pool => pools
      case Helper => helpers
    }
  }

  /** What a query without an ORDER BY may return: each selected row once. */
  ghost predicate Listing(db: Db, kind: Kind, host: string, order: seq<nat>) {
    NoRepeats(order) && forall id :: id in order <==> IsSelected(db, kind, host, id)
  }

  /** `order` with `id` moved to its end. */
  ghost function MovedLast(order: seq<nat>, id: nat): (moved: seq<nat>)
    requires id in order
    ensures moved != [] && moved[|moved| - 1] == id
  {
    var i :| 0 <= i < |order| && order[i] == id;
    order[..i] + order[i + 1..] + [id]
  }

  lemma MovedLastListing(db: Db, kind: Kind, host: string, order: seq<nat>, id: nat)
    requires Listing(db, kind, host, order) && id in order
    ensures Listing(db, kind, host, MovedLast(order, id))
  {
    var i :| 0 <= i < |order| && order[i] == id && MovedLast(order, id) == order[..i] + order[i + 1..] + [id];
    CutOut(order, i);
  }

  lemma CutOut(order: seq<nat>, i: nat)
    requires NoRepeats(order) && i < |order|
    ensures var moved := order[..i] + order[i + 1..] + [order[i]];
      NoRepeats(moved) && forall x :: x in moved <==> x in order
  {
    var rest := order[..i] + order[i + 1..];
    assert order == order[..i] + [order[i]] + order[i + 1..];
    assert forall k :: 0 <= k < |rest| ==> rest[k] == if k < i then order[k] else order[k + 1];
  }

  /** The rows whose removal a task asks for. */
  predicate Removes(db: Db, kind: Kind, id: nat) {
    id in db.Of(kind) && StateOf(db.Of(kind)[id].status).Remove?
  }

  /** Every listed row is in exactly one of the two id lists, once. */
  lemma {:induction false} PartPartitions(db: Db, kind: Kind, order: seq<nat>)
    requires NoRepeats(order) && forall id :: id in order ==> id in db.Of(kind)
    ensures var part := PartOf(db, kind, order);
      && NoRepeats(part.add) && NoRepeats(part.del)
      && (forall id :: id in part.add <==> id in order && !Removes(db, kind, id))
      && (forall id :: id in part.del <==> id in order && Removes(db, kind, id))
  {
    if order != [] {
      var n := |order| - 1;
      PartPartitions(db, kind, order[..n]);
      assert order == order[..n] + [order[n]];
      assert order[n] !in order[..n];
    }
  }

  /** Parts that differ in row order only. */
  predicate SameRows(p: Part, q: Part) {
    && multiset(p.items) == multiset(q.items)
    && multiset(p.add) == multiset(q.add) && multiset(p.del) == multiset(q.del)
  }

  function Shown(db: Db, kind: Kind, id: nat): Item {
    if id in db.Of(kind) then ItemOf(kind, db.Of(kind)[id], db.interfaces)
    else Item([], "", false, false, false, Ignore)
  }

  function Items(db: Db, kind: Kind, order: seq<nat>): seq<Item> {
    if order == [] then [] else Items(db, kind, order[..|order| - 1]) + [Shown(db, kind, order[|order| - 1])]
  }

  lemma {:induction false} PartItems(db: Db, kind: Kind, order: seq<nat>)
    requires forall id :: id in order ==> id in db.Of(kind)
    ensures PartOf(db, kind, order).items == Items(db, kind, order)
  {
    if order != [] {
      PartItems(db, kind, order[..|order| - 1]);
    }
  }

  /** What an item says of its row, in the columns' own terms: the last three characters
      of a mask are for gateway, DNS server and lease; without a mask all are pushed. */
  predicate ItemSays(db: Db, kind: Kind, id: nat, item: Item) {
    && id in db.Of(kind)
    && var row := db.Of(kind)[id];
      && item.fields == row.fields
      && (item.state.Remove? <==> row.status == Some(PendingDelete))
      && (item.state.Setup? <==> row.status == None || row.status == Some(PendingApply))
      && (kind.Helper? && row.owner in db.interfaces ==> item.interfaceName == db.interfaces[row.owner].name)
      && (kind.Pool? && row.mask.Some? && row.mask.value != "" ==>
        var mask, last := row.mask.value, |row.mask.value| - 1;
        && (item.pushDefault <==> last >= 2 && mask[last - 2] == '1')
        && (item.pushDns <==> last >= 1 && mask[last - 1] == '1')
        && (item.pushLease <==> mask[last] == '1'))
      && (kind.Pool? && row.mask in {None, Some("")} ==> item.pushDefault && item.pushDns && item.pushLease)
  }

  ghost predicate ItemsSay(db: Db, kind: Kind, order: seq<nat>, items: seq<Item>) {
    |items| == |order| && forall i :: 0 <= i < |order| ==> ItemSays(db, kind, order[i], items[i])
  }

  lemma RowSays(db: Db, kind: Kind, id: nat)
    requires id in db.Of(kind)
    ensures ItemSays(db, kind, id, ItemOf(kind, db.Of(kind)[id], db.interfaces))
  {
  }

  lemma {:induction false} PartSays(db: Db, kind: Kind, order: seq<nat>)
    requires forall id :: id in order ==> id in db.Of(kind)
    ensures ItemsSay(db, kind, order, PartOf(db, kind, order).items)
  {
    if order != [] {
      var id := order[|order| - 1];
      PartSays(db, kind, order[..|order| - 1]);
      RowSays(db, kind, id);
    }
  }

  lemma {:induction false} ItemsConcat(db: Db, kind: Kind, a: seq<nat>, b: seq<nat>)
    ensures Items(db, kind, a + b) == Items(db, kind, a) + Items(db, kind, b)
  {
    if b == [] {
      assert a + b == a;
    } else {
      var n := |b| - 1;
      assert (a + b)[..|a| + n] == a + b[..n];
      ItemsConcat(db, kind, a, b[..n]);
    }
  }

  lemma {:induction false} ItemsPermute(db: Db, kind: Kind, p: seq<nat>, q: seq<nat>)
    requires multiset(p) == multiset(q)
    ensures multiset(Items(db, kind, p)) == multiset(Items(db, kind, q))
  {
    if p == [] {
      assert |multiset(q)| == 0;
    } else {
      var n, x := |p| - 1, p[|p| - 1];
      assert p == p[..n] + [x];
      assert x in multiset(q);
      var k :| 0 <= k < |q| && q[k] == x;
      var before, behind := q[..k], q[k + 1..];
      assert q == before + ([x] + behind);
      assert multiset(before + behind) == multiset(q) - multiset{x};
      ItemsPermute(db, kind, p[..n], before + behind);
      MovedOut(db, kind, before, x, behind);
      ItemsConcat(db, kind, p[..n], [x]);
    }
  }

  lemma MovedOut(db: Db, kind: Kind, before: seq<nat>, x: nat, behind: seq<nat>)
    ensures multiset(Items(db, kind, before + ([x] + behind))) ==
            multiset(Items(db, kind, before + behind)) + multiset(Items(db, kind, [x]))
  {
    ItemsConcat(db, kind, before, behind);
    ItemsConcat(db, kind, before, [x] + behind);
    ItemsConcat(db, kind, [x], behind);
  }

  lemma ListingsSameMultiset(p: seq<nat>, q: seq<nat>)
    requires NoRepeats(p) && NoRepeats(q) && forall id :: id in p <==> id in q
    ensures multiset(p) == multiset(q)
  {
    CountsOfDistinct(p);
    CountsOfDistinct(q);
  }

  lemma {:induction false} CountsOfDistinct(p: seq<nat>)
    requires NoRepeats(p)
    ensures forall id :: multiset(p)[id] == if id in p then 1 else 0
  {
    if p != [] {
      var n := |p| - 1;
      CountsOfDistinct(p[..n]);
      assert p == p[..n] + [p[n]];
      assert p[n] !in p[..n];
    }
  }

  lemma SameIds(db: Db, kind: Kind, p: seq<nat>, q: seq<nat>)
    requires NoRepeats(p) && NoRepeats(q) && (forall id :: id in p <==> id in q) && forall id :: id in p ==> id in db.Of(kind)
    ensures forall id :: id in q ==> id in db.Of(kind)
    ensures multiset(PartOf(db, kind, p).add) == multiset(PartOf(db, kind, q).add)
    ensures multiset(PartOf(db, kind, p).del) == multiset(PartOf(db, kind, q).del)
  {
    PartPartitions(db, kind, p);
    PartPartitions(db, kind, q);
    ListingsSameMultiset(PartOf(db, kind, p).add, PartOf(db, kind, q).add);
    ListingsSameMultiset(PartOf(db, kind, p).del, PartOf(db, kind, q).del);
  }

  /** Any two collectors of the same rows produce the same part up to row order. */
  lemma CollectorsAgree(db: Db, kind: Kind, host: string, p: seq<nat>, q: seq<nat>)
    requires Listing(db, kind, host, p) && Listing(db, kind, host, q)
    ensures SameRows(PartOf(db, kind, p), PartOf(db, kind, q))
  {
    assert (forall id :: id in p <==> id in q) && forall id :: id in p ==> id in db.Of(kind);
    SameIds(db, kind, p, q);
    ListingsSameMultiset(p, q);
    ItemsPermute(db, kind, p, q);
    PartItems(db, kind, p);
    PartItems(db, kind, q);
  }

  /** Both find something to do for the same hosts. */
  lemma ListingEmptyIff(db: Db, kind: Kind, host: string, order: seq<nat>)
    requires Listing(db, kind, host, order)
    ensures order == [] <==> Selected(db, kind, host) == {}
  {
    if order != [] {
      assert order[0] in order;
      assert order[0] in Selected(db, kind, host);
    }
  }

  // ---------------------------------------------------------------------
  // Marking
  // ---------------------------------------------------------------------

  /** A pushed row is synchronized, and a pool has no option left to push. */
  function Settled(kind: Kind, row: Row): Row {
    row.(status := Some(Synchronized), mask := if kind.Pool? then Some("000") else row.mask)
  }

  function MarkTable(kind: Kind, table: Table, part: Part): Table {
    map id | id in table && id !in part.del :: if id in part.add then Settled(kind, table[id]) else table[id]
  }

  function Mark(db: Db, task: Task): Db {
    Db(MarkTable(Excluded, db.excluded, task.excluded), MarkTable(Pool, db.pools, task.pools),
       MarkTable(Helper, db.helpers, task.helpers), db.interfaces)
  }

  ghost predicate CollectedPart(db: Db, host: string, kind: Kind, part: Part) {
    && (forall id :: id in part.add <==> IsSelected(db, kind, host, id) && !Removes(db, kind, id))
    && (forall id :: id in part.del <==> IsSelected(db, kind, host, id) && Removes(db, kind, id))
  }

  /** A task that holds exactly a host's pending rows of `db`. */
  ghost predicate Collected(db: Db, host: string, task: Task) {
    task.host == host && forall kind :: CollectedPart(db, host, kind, task.Of(kind))
  }

  lemma PartCollects(db: Db, kind: Kind, host: string, order: seq<nat>)
    requires Listing(db, kind, host, order)
    ensures CollectedPart(db, host, kind, PartOf(db, kind, order))
  {
    PartPartitions(db, kind, order);
  }

  /** Marking takes from a host's pending rows exactly those that were collected,
      even when the tables `now` were edited after collecting. */
  lemma MarkedRowsLeave(db: Db, now: Db, host: string, task: Task, kind: Kind)
    requires Collected(db, host, task)
    ensures Selected(Mark(now, task), kind, host) == Selected(now, kind, host) - Selected(db, kind, host)
  {
    forall id
      ensures IsSelected(Mark(now, task), kind, host, id) <==> IsSelected(now, kind, host, id) && !IsSelected(db, kind, host, id)
    {
      MarkedRow(db, now, host, task, kind, id);
    }
  }

  /** Collected rows are gone or synchronized; all others are as they were. */
  lemma MarkedRow(db: Db, now: Db, host: string, task: Task, kind: Kind, id: nat)
    requires Collected(db, host, task)
    ensures Mark(now, task).Of(kind) == MarkTable(kind, now.Of(kind), task.Of(kind))
    ensures !IsSelected(db, kind, host, id) ==>
      id !in task.Of(kind).add && id !in task.Of(kind).del
    ensures IsSelected(db, kind, host, id) ==>
      id in Mark(now, task).Of(kind) ==> Mark(now, task).Of(kind)[id].status == Some(Synchronized)
  {
    assert IsSelected(db, kind, host, id) ==> id in task.Of(kind).add || id in task.Of(kind).del;
  }

  /** A collected row is dropped exactly when its removal was collected; otherwise it
      keeps its values, is synchronized, and as a pool has no option left to push. */
  lemma MarkedFate(db: Db, now: Db, host: string, task: Task, kind: Kind, id: nat)
    requires Collected(db, host, task) && IsSelected(db, kind, host, id) && id in now.Of(kind)
    ensures id in Mark(now, task).Of(kind) <==> db.Of(kind)[id].status != Some(PendingDelete)
    ensures id in Mark(now, task).Of(kind) ==>
      var was, row := now.Of(kind)[id], Mark(now, task).Of(kind)[id];
      && row.owner == was.owner && row.fields == was.fields && row.status == Some(Synchronized)
      && row.mask == if kind == Pool then Some("000") else was.mask
  {
    MarkedRow(db, now, host, task, kind, id);
  }

  lemma OtherRowsKept(db: Db, now: Db, host: string, task: Task, kind: Kind, id: nat)
    requires Collected(db, host, task) && !IsSelected(db, kind, host, id) && id in now.Of(kind)
    ensures id in Mark(now, task).Of(kind) && Mark(now, task).Of(kind)[id] == now.Of(kind)[id]
  {
    MarkedRow(db, now, host, task, kind, id);
  }

  /** Collecting again right after marking finds nothing for that host and what it
      found before for every other host. */
  lemma CollectAfterMark(db: Db, host: string, task: Task, kind: Kind, g: string)
    requires Collected(db, host, task)
    ensures Selected(Mark(db, task), kind, g) == if g == host then {} else Selected(db, kind, g)
  {
    if g == host {
      MarkedRowsLeave(db, db, host, task, kind);
    } else {
      forall id
        ensures IsSelected(Mark(db, task), kind, g, id) <==> IsSelected(db, kind, g, id)
      {
        MarkedRow(db, db, host, task, kind, id);
      }
    }
  }
}
