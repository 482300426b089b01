// DHCP pools on a device: which pool a push leaves there, and when the order of
// the pending rows decides.

module DhcpPoolOrders {
  import opened Common
  import opened DhcpTables
  import opened DhcpPools

  /** Network, mask, gateway, DNS server and lease of one pool. */
  type Config = c: seq<string> | |c| == 5 witness ["", "", "", "", ""]

  const BLANK: Config := ["", "", "", "", ""]

  /** The pools of a device by name. */
  type Device = map<string, Config>

  function At(dev: Device, name: string): Config {
    if name in dev then dev[name] else BLANK
  }

  predicate Shaped(rows: Table) {
    forall id :: id in rows ==> |rows[id].fields| == 6
  }

  predicate Named(rows: Table, id: nat, name: string) {
    id in rows && |rows[id].fields| == 6 && rows[id].fields[0] == name
  }

  predicate Removing(rows: Table, id: nat) {
    id in rows && rows[id].status == Some(PendingDelete)
  }

  /** The template sends the network if there is one, and the options whose bit is set. */
  predicate Writes(row: Row, slot: nat)
    requires |row.fields| == 6 && slot < 5
  {
    if slot < 2 then row.fields[1] != ""
    else if slot == 2 then TextBit(row.mask, 2)
    else if slot == 3 then TextBit(row.mask, 1)
    else TextBit(row.mask, 0)
  }

  function Configure(before: Config, row: Row): Config
    requires |row.fields| == 6
  {
    seq(5, i requires 0 <= i < 5 => if Writes(row, i) then row.fields[i + 1] else before[i])
  }

  /** One row's commands. */
  function Command(dev: Device, row: Row): Device
    requires |row.fields| == 6
  {
    if row.status == Some(PendingDelete) then dev - {row.fields[0]}
    else dev[row.fields[0] := Configure(At(dev, row.fields[0]), row)]
  }

  function Sent(dev: Device, rows: Table, order: seq<nat>): Device
    requires Shaped(rows) && forall id :: id in order ==> id in rows
  {
    if order == [] then dev
    else Command(Sent(dev, rows, order[..|order| - 1]), rows[order[|order| - 1]])
  }

  /** The template run over a task's items: network and mask if there is a network,
      then gateway, DNS server and lease as flagged. */
  function Sets(item: Item, slot: nat): bool
    requires |item.fields| == 6 && slot < 5
  {
    if slot < 2 then item.fields[1] != "" else [item.pushDefault, item.pushDns, item.pushLease][slot - 2]
  }

  function Rendered(dev: Device, item: Item): Device
    requires |item.fields| == 6
  {
    var name := item.fields[0];
    if item.state.Remove? then dev - {name}
    else dev[name := seq(5, i requires 0 <= i < 5 => if Sets(item, i) then item.fields[i + 1] else At(dev, name)[i])]
  }

  function RenderedAll(dev: Device, items: seq<Item>): Device
    requires forall item :: item in items ==> |item.fields| == 6
  {
    if items == [] then dev else Rendered(RenderedAll(dev, items[..|items| - 1]), items[|items| - 1])
  }

  function DbOf(rows: Table): Db {
    Db(map[], rows, map[], map[])
  }

  /** An order in which a query may return a host's pending rows. */
  ghost predicate Order(rows: Table, host: string, order: seq<nat>) {
    Shaped(rows) && Listing(DbOf(rows), Pool, host, order)
  }

  /** A row that is queued for the host, for setup or for removal. */
  predicate Queued(rows: Table, host: string, id: nat) {
    id in rows && Waiting(rows[id].status) && rows[id].owner == host
  }

  lemma OrderLists(rows: Table, host: string, order: seq<nat>, id: nat)
    requires Order(rows, host, order)
    ensures id in order <==> Queued(rows, host, id)
  {
    assert id in order <==> IsSelected(DbOf(rows), Pool, host, id);
  }

  /** The items that a collector takes from rows configure what the rows say. */
  lemma {:induction false} ItemsSent(dev: Device, rows: Table, order: seq<nat>)
    requires Shaped(rows) && forall id :: id in order ==> id in rows
    ensures var items := PartOf(DbOf(rows), Pool, order).items;
      (forall item :: item in items ==> |item.fields| == 6) && RenderedAll(dev, items) == Sent(dev, rows, order)
  {
    if order != [] {
      var n := |order| - 1;
      var rest, item := PartOf(DbOf(rows), Pool, order[..n]).items, ItemOf(Pool, rows[order[n]], map[]);
      assert order == order[..n] + [order[n]];
      ItemsSent(dev, rows, order[..n]);
      ItemSent(Sent(dev, rows, order[..n]), rows[order[n]]);
      assert PartOf(DbOf(rows), Pool, order).items == rest + [item];
      assert (rest + [item])[..|rest|] == rest;
    }
  }

  lemma ItemSent(dev: Device, row: Row)
    requires |row.fields| == 6
    ensures Rendered(dev, ItemOf(Pool, row, map[])) == Command(dev, row)
  {
    var item := ItemOf(Pool, row, map[]);
    if !item.state.Remove? {
      assert forall i :: 0 <= i < 5 ==> Sets(item, i) == Writes(row, i);
      var c: Config := seq(5, i requires 0 <= i < 5 => if Sets(item, i) then item.fields[i + 1] else At(dev, row.fields[0])[i]);
      assert c == Configure(At(dev, row.fields[0]), row);
    }
  }

  // ---------------------------------------------------------------------
  // What the order decides
  // ---------------------------------------------------------------------

  /** The rows ask for different things under one name: to remove and to set up, or
      to set up with different values of one field. */
  predicate Differ(row: Row, other: Row)
    requires |row.fields| == 6 && |other.fields| == 6
  {
    && row.fields[0] == other.fields[0]
    && ((row.status == Some(PendingDelete)) != (other.status == Some(PendingDelete))
        || (row.status != Some(PendingDelete) && DifferIn(row, other)))
  }

  predicate DifferIn(row: Row, other: Row)
    requires |row.fields| == 6 && |other.fields| == 6
  {
    exists slot | 0 <= slot < 5 :: Writes(row, slot) && Writes(other, slot) && row.fields[slot + 1] != other.fields[slot + 1]
  }

  ghost predicate Clash(rows: Table, host: string)
    requires Shaped(rows)
  {
    exists i, j :: Queued(rows, host, i) && Queued(rows, host, j) && Differ(rows[i], rows[j])
  }

  ghost predicate OrderIrrelevant(dev: Device, rows: Table, host: string) {
    forall p, q :: Order(rows, host, p) && Order(rows, host, q) ==> Sent(dev, rows, p) == Sent(dev, rows, q)
  }

  predicate LastNamed(rows: Table, order: seq<nat>, name: string, k: int) {
    0 <= k < |order| && Named(rows, order[k], name) && forall l :: k < l < |order| ==> !Named(rows, order[l], name)
  }

  /** A pool is on the device after a push exactly when the last command for its name
      sets it up, or no command names it and it was there. */
  lemma {:induction false} LastDecides(dev: Device, rows: Table, order: seq<nat>, name: string)
    requires Shaped(rows) && forall id :: id in order ==> id in rows
    ensures name in Sent(dev, rows, order) <==>
      || (exists k :: LastNamed(rows, order, name, k) && !Removing(rows, order[k]))
      || (name in dev && forall k :: 0 <= k < |order| ==> !Named(rows, order[k], name))
  {
    if order != [] {
      var n := |order| - 1;
      var last := order[n];
      assert order == order[..n] + [last] && last in order;
      LastDecides(dev, rows, order[..n], name);
      if Named(rows, last, name) {
        assert LastNamed(rows, order, name, n);
        assert name in Sent(dev, rows, order) <==> !Removing(rows, last);
      } else {
        assert name in Sent(dev, rows, order) <==> name in Sent(dev, rows, order[..n]);
        forall k: int
          ensures LastNamed(rows, order, name, k) <==> LastNamed(rows, order[..n], name, k)
          ensures 0 <= k < n ==> order[..n][k] == order[k]
        {
          EarlierLast(rows, order, name, k);
        }
      }
    }
  }

  lemma EarlierLast(rows: Table, order: seq<nat>, name: string, k: int)
    requires order != [] && !Named(rows, order[|order| - 1], name)
    ensures LastNamed(rows, order, name, k) <==> LastNamed(rows, order[..|order| - 1], name, k)
    ensures 0 <= k < |order| - 1 ==> order[..|order| - 1][k] == order[k]
  {
    var before := order[..|order| - 1];
    assert forall l :: 0 <= l < |before| ==> before[l] == order[l];
  }

  /** Without a removal of the name, a field has the value of a row that writes it, if
      they agree, and else the one it had. */
  lemma {:induction false} FieldAfter(dev: Device, rows: Table, order: seq<nat>, name: string, slot: nat)
    requires Shaped(rows) && slot < 5 && forall id :: id in order ==> id in rows
    requires forall id :: id in order && Named(rows, id, name) ==> !Removing(rows, id)
    requires forall i, j :: (i in order && j in order && Named(rows, i, name) && Named(rows, j, name)
      && Writes(rows[i], slot) && Writes(rows[j], slot)) ==> rows[i].fields[slot + 1] == rows[j].fields[slot + 1]
    ensures var after := At(Sent(dev, rows, order), name);
      && (forall id :: id in order && Named(rows, id, name) && Writes(rows[id], slot) ==> after[slot] == rows[id].fields[slot + 1])
      && ((forall id :: id in order && Named(rows, id, name) ==> !Writes(rows[id], slot)) ==> after[slot] == At(dev, name)[slot])
  {
    if order != [] {
      var n := |order| - 1;
      var last := order[n];
      assert order == order[..n] + [last] && last in order;
      FieldAfter(dev, rows, order[..n], name, slot);
      FieldStep(Sent(dev, rows, order[..n]), rows[last], name, slot);
    }
  }

  lemma FieldStep(dev: Device, row: Row, name: string, slot: nat)
    requires |row.fields| == 6 && slot < 5 && (row.fields[0] == name ==> row.status != Some(PendingDelete))
    ensures At(Command(dev, row), name)[slot] ==
      if row.fields[0] == name && Writes(row, slot) then row.fields[slot + 1] else At(dev, name)[slot]
  {
  }

  // ---------------------------------------------------------------------
  // Rows that agree
  // ---------------------------------------------------------------------

  lemma SamePresence(dev: Device, rows: Table, host: string, p: seq<nat>, q: seq<nat>, name: string)
    requires Order(rows, host, p) && Order(rows, host, q) && !Clash(rows, host)
    ensures name in Sent(dev, rows, p) ==> name in Sent(dev, rows, q)
  {
    LastDecides(dev, rows, p, name);
    LastDecides(dev, rows, q, name);
    forall id
      ensures id in p <==> id in q
      ensures id in p <==> Queued(rows, host, id)
    {
      OrderLists(rows, host, p, id);
      OrderLists(rows, host, q, id);
    }
    if k :| LastNamed(rows, p, name, k) && !Removing(rows, p[k]) {
      SomeLast(rows, q, name, p[k]);
      var l :| LastNamed(rows, q, name, l);
      assert p[k] in p && q[l] in q;
      assert !Differ(rows[p[k]], rows[q[l]]);
    } else if name in Sent(dev, rows, p) {
      forall l | 0 <= l < |q|
        ensures !Named(rows, q[l], name)
      {
        assert q[l] in q;
      }
    }
  }

  lemma {:induction false} SomeLast(rows: Table, order: seq<nat>, name: string, id: nat)
    requires id in order && Named(rows, id, name)
    ensures exists l :: LastNamed(rows, order, name, l)
  {
    var n := |order| - 1;
    if Named(rows, order[n], name) {
      assert LastNamed(rows, order, name, n);
    } else {
      assert order == order[..n] + [order[n]];
      SomeLast(rows, order[..n], name, id);
      var l :| LastNamed(rows, order[..n], name, l);
      EarlierLast(rows, order, name, l);
      assert LastNamed(rows, order, name, l);
    }
  }

  lemma SameField(dev: Device, rows: Table, host: string, p: seq<nat>, q: seq<nat>, name: string, slot: nat)
    requires Order(rows, host, p) && Order(rows, host, q) && !Clash(rows, host) && slot < 5 && name in Sent(dev, rows, p)
    ensures At(Sent(dev, rows, p), name)[slot] == At(Sent(dev, rows, q), name)[slot]
  {
    forall id
      ensures id in p <==> id in q
      ensures id in p <==> Queued(rows, host, id)
    {
      OrderLists(rows, host, p, id);
      OrderLists(rows, host, q, id);
    }
    NoRemoval(dev, rows, host, p, name);
    forall i, j | i in p && j in p && Named(rows, i, name) && Named(rows, j, name) && Writes(rows[i], slot) && Writes(rows[j], slot)
      ensures rows[i].fields[slot + 1] == rows[j].fields[slot + 1]
    {
      assert !Differ(rows[i], rows[j]);
    }
    FieldAfter(dev, rows, p, name, slot);
    FieldAfter(dev, rows, q, name, slot);
  }

  lemma NoRemoval(dev: Device, rows: Table, host: string, p: seq<nat>, name: string)
    requires Order(rows, host, p) && !Clash(rows, host) && name in Sent(dev, rows, p)
    ensures forall id :: id in p && Named(rows, id, name) ==> !Removing(rows, id)
  {
    LastDecides(dev, rows, p, name);
    forall id | id in p && Named(rows, id, name)
      ensures !Removing(rows, id)
    {
      var k :| LastNamed(rows, p, name, k) && !Removing(rows, p[k]);
      OrderLists(rows, host, p, id);
      OrderLists(rows, host, p, p[k]);
      assert !Differ(rows[id], rows[p[k]]);
    }
  }

  lemma AgreedSame(dev: Device, rows: Table, host: string, p: seq<nat>, q: seq<nat>)
    requires Order(rows, host, p) && Order(rows, host, q) && !Clash(rows, host)
    ensures Sent(dev, rows, p) == Sent(dev, rows, q)
  {
    forall name
      ensures name in Sent(dev, rows, p) <==> name in Sent(dev, rows, q)
      ensures name in Sent(dev, rows, p) ==> Sent(dev, rows, p)[name] == Sent(dev, rows, q)[name]
    {
      SamePresence(dev, rows, host, p, q, name);
      SamePresence(dev, rows, host, q, p, name);
      if name in Sent(dev, rows, p) {
        forall slot: nat | slot < 5
          ensures Sent(dev, rows, p)[name][slot] == Sent(dev, rows, q)[name][slot]
        {
          SameField(dev, rows, host, p, q, name, slot);
        }
      }
    }
  }

  // ---------------------------------------------------------------------
  // Rows that do not
  // ---------------------------------------------------------------------

  /** The last row has its way. */
  lemma LastWins(dev: Device, rows: Table, order: seq<nat>)
    requires Shaped(rows) && order != [] && forall id :: id in order ==> id in rows
    ensures var last, after := rows[order[|order| - 1]], Sent(dev, rows, order);
      && (last.fields[0] in after <==> last.status != Some(PendingDelete))
      && (last.status != Some(PendingDelete) ==>
        forall slot: nat :: slot < 5 && Writes(last, slot) ==> At(after, last.fields[0])[slot] == last.fields[slot + 1])
  {
  }

  lemma ClashMatters(dev: Device, rows: Table, host: string, i: nat, j: nat)
    requires Shaped(rows) && Queued(rows, host, i) && Queued(rows, host, j) && Differ(rows[i], rows[j])
    ensures exists p, q :: Order(rows, host, p) && Order(rows, host, q) && Sent(dev, rows, p) != Sent(dev, rows, q)
  {
    var order := SomeOrder(rows, host);
    OrderLists(rows, host, order, i);
    OrderLists(rows, host, order, j);
    MovedLastListing(DbOf(rows), Pool, host, order, i);
    MovedLastListing(DbOf(rows), Pool, host, order, j);
    var p, q := MovedLast(order, i), MovedLast(order, j);
    LastWins(dev, rows, p);
    LastWins(dev, rows, q);
    assert Sent(dev, rows, p) != Sent(dev, rows, q);
  }

  ghost function SomeOrder(rows: Table, host: string): (order: seq<nat>)
    requires Shaped(rows)
    ensures Order(rows, host, order)
  {
    Ordered(map id | id in rows :: 0, Selected(DbOf(rows), Pool, host))
  }

  /** The collector without an ORDER BY may leave another configuration exactly when
      some pool is queued with different intents, whatever the device holds. */
  lemma OrderIrrelevantIff(dev: Device, rows: Table, host: string)
    requires Shaped(rows)
    ensures OrderIrrelevant(dev, rows, host) <==> !Clash(rows, host)
  {
    if Clash(rows, host) {
      var i, j :| Queued(rows, host, i) && Queued(rows, host, j) && Differ(rows[i], rows[j]);
      ClashMatters(dev, rows, host, i, j);
    } else {
      forall p, q | Order(rows, host, p) && Order(rows, host, q)
        ensures Sent(dev, rows, p) == Sent(dev, rows, q)
      {
        AgreedSame(dev, rows, host, p, q);
      }
    }
  }

  // ---------------------------------------------------------------------
  // How an edit gets there
  // ---------------------------------------------------------------------

  /** Every synchronized pool whose network is changed is queued for removal and for
      setup under one name. */
  lemma ReplacedPoolClash(p: Pools, id: nat, d: PoolData, dev: Device)
    requires Sound(p) && id in p.rows && p.rows[id].status == Some(Synchronized)
    requires p.rows[id].fields[0] == d.name && !SameIdentity(p.rows[id].fields, d)
    ensures var rows := After(p, Update(id, d)).rows;
      Shaped(rows) && Clash(rows, p.rows[id].owner) && !OrderIrrelevant(dev, rows, p.rows[id].owner)
  {
    var rows, host := After(p, Update(id, d)).rows, p.rows[id].owner;
    assert Queued(rows, host, id) && Queued(rows, host, p.next);
    assert rows[p.next].fields[0] == Identity(d)[0];
    assert Differ(rows[id], rows[p.next]);
    OrderIrrelevantIff(dev, rows, host);
  }

  /** A run from an empty table: a pool is created, pushed, and moved to another network. */
  lemma ClashRun(host: string, first: PoolData, second: PoolData, part: Part, dev: Device)
    requires second.name == first.name && Identity(second) != Identity(first)
    requires CollectedPart(DbOf(After(Pools(map[], 0), Create(host, first)).rows), host, Pool, part)
    ensures
      var pushed := Pools(MarkTable(Pool, After(Pools(map[], 0), Create(host, first)).rows, part), 1);
      Sound(pushed) && !OrderIrrelevant(dev, After(pushed, Update(0, second)).rows, host)
  {
    var created := After(Pools(map[], 0), Create(host, first)).rows;
    assert IsSelected(DbOf(created), Pool, host, 0) && !Removes(DbOf(created), Pool, 0);
    var pushed := Pools(MarkTable(Pool, created, part), 1);
    assert pushed.rows[0].fields == Fields(first) && pushed.rows[0].fields[0] == Identity(first)[0];
    ReplacedPoolClash(pushed, 0, second, dev);
  }
}
