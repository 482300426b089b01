// Excluded DHCP address ranges of one host: when a push leaves the device with
// exactly the synchronized ranges, and when the order of rows matters.

module DhcpExclusions {
  import opened Common
  import opened DhcpTables

  type Range = seq<string>

  /** The host's rows, the next row id, and the ranges excluded on the device. */
  datatype World = World(host: string, rows: Table, nextId: nat, device: set<Range>)

  function DbOf(rows: Table): Db {
    Db(rows, map[], map[], map[])
  }

  /** One command of the template; every other state than a removal adds. */
  function Command(device: set<Range>, item: Item): set<Range> {
    if item.state.Remove? then device - {item.fields} else device + {item.fields}
  }

  function Exec(device: set<Range>, items: seq<Item>): set<Range> {
    if items == [] then device else Command(Exec(device, items[..|items| - 1]), items[|items| - 1])
  }

  /** The device after the commands for some rows, in that order. */
  function Sent(w: World, order: seq<nat>): set<Range> {
    Exec(w.device, Items(DbOf(w.rows), Excluded, order))
  }

  /** The pending rows as the view's collector orders them: by id. */
  ghost function ById(w: World): (order: seq<nat>)
    ensures Listing(DbOf(w.rows), Excluded, w.host, order)
    ensures forall i, j :: 0 <= i < j < |order| ==> order[i] < order[j]
  {
    var key := map id | id in w.rows :: 0;
    Ordered(key, Selected(DbOf(w.rows), Excluded, w.host))
  }

  /** Deleting a draft drops it; anything else is queued for removal. */
  function SoftDelete(rows: Table, id: nat): Table {
    if id !in rows then rows
    else if rows[id].status.None? || rows[id].status.value.PendingApply? then rows - {id}
    else rows[id := rows[id].(status := Some(PendingDelete))]
  }

  /** A failed push ran some number of its commands. */
  datatype Event = Add(range: Range) | Delete(id: nat) | Fail(ran: nat) | Push

  ghost function After(w: World, e: Event): World {
    match e
    case Add(range) =>
      w.(rows := w.rows[w.nextId := Row(w.host, range, None, Some(PendingApply))], nextId := w.nextId + 1)
    case Delete(id) => w.(rows := SoftDelete(w.rows, id))
    case Fail(ran) => w.(device := Sent(w, if ran <= |ById(w)| then ById(w)[..ran] else ById(w)))
    case Push =>
      w.(device := Sent(w, ById(w)), rows := MarkTable(Excluded, w.rows, PartOf(DbOf(w.rows), Excluded, ById(w))))
  }

  predicate Holds(rows: Table, id: nat, x: Range, status: SyncStatus) {
    id in rows && rows[id].fields == x && rows[id].status == Some(status)
  }

  ghost predicate Held(rows: Table, x: Range, status: SyncStatus) {
    exists id :: Holds(rows, id, x, status)
  }

  // ---------------------------------------------------------------------
  // Facts of every run
  // ---------------------------------------------------------------------

  /** Rows still to be applied are newer than all others. */
  predicate Aged(w: World) {
    && (forall id :: id in w.rows ==>
      id < w.nextId && w.rows[id].owner == w.host && w.rows[id].status.Some? && !w.rows[id].status.value.Skipped?)
    && (forall a, b :: a in w.rows && b in w.rows && w.rows[a].status == Some(PendingApply) && w.rows[b].status != Some(PendingApply) ==>
      b < a)
  }

  lemma PendingListed(w: World, order: seq<nat>, id: nat)
    requires Aged(w) && Listing(DbOf(w.rows), Excluded, w.host, order)
    ensures id in order <==> id in w.rows && w.rows[id].status != Some(Synchronized)
  {
    assert id in order <==> IsSelected(DbOf(w.rows), Excluded, w.host, id);
  }

  lemma PushedIds(w: World, id: nat)
    requires Aged(w)
    ensures var part := PartOf(DbOf(w.rows), Excluded, ById(w));
      && (id in part.add <==> id in w.rows && w.rows[id].status == Some(PendingApply))
      && (id in part.del <==> id in w.rows && w.rows[id].status == Some(PendingDelete))
  {
    PendingListed(w, ById(w), id);
    PartPartitions(DbOf(w.rows), Excluded, ById(w));
  }

  /** A successful push keeps exactly the rows not queued for removal, all of them
      synchronized. */
  lemma PushedRows(w: World)
    requires Aged(w)
    ensures var rows := After(w, Push).rows;
      && (forall id :: id in rows <==> id in w.rows && w.rows[id].status != Some(PendingDelete))
      && (forall id :: id in rows ==> rows[id] == w.rows[id].(status := Some(Synchronized)))
  {
    var part := PartOf(DbOf(w.rows), Excluded, ById(w));
    forall id
      ensures id in part.add <==> id in w.rows && w.rows[id].status == Some(PendingApply)
      ensures id in part.del <==> id in w.rows && w.rows[id].status == Some(PendingDelete)
    {
      PushedIds(w, id);
    }
  }

  lemma StepAged(w: World, e: Event)
    requires Aged(w)
    ensures Aged(After(w, e))
  {
    if e.Push? {
      PushedRows(w);
    }
  }

  // ---------------------------------------------------------------------
  // What a list of commands does
  // ---------------------------------------------------------------------

  ghost predicate Listed(rows: Table, order: seq<nat>, x: Range, status: SyncStatus) {
    exists id :: id in order && Holds(rows, id, x, status)
  }

  /** No range is added and later removed. */
  ghost predicate RemovesFirst(rows: Table, order: seq<nat>) {
    forall i, j, x :: 0 <= i < j < |order| && Holds(rows, order[i], x, PendingApply) ==> !Holds(rows, order[j], x, PendingDelete)
  }

  predicate PendingOnly(rows: Table, order: seq<nat>) {
    forall id :: id in order ==> id in rows && (rows[id].status == Some(PendingApply) || rows[id].status == Some(PendingDelete))
  }

  /** Then a range is on the device exactly when a row adds it, or it was there and
      no row removes it. */
  lemma {:induction false} SentEffect(w: World, order: seq<nat>, x: Range)
    requires PendingOnly(w.rows, order) && RemovesFirst(w.rows, order)
    ensures x in Sent(w, order) <==>
            Listed(w.rows, order, x, PendingApply) || (x in w.device && !Listed(w.rows, order, x, PendingDelete))
  {
    if order != [] {
      var n, id := |order| - 1, order[|order| - 1];
      assert order == order[..n] + [id];
      SentEffect(w, order[..n], x);
      assert id in order;
      assert forall status :: Listed(w.rows, order, x, status) <==> Listed(w.rows, order[..n], x, status) || Holds(w.rows, id, x, status);
      assert forall i :: 0 <= i < n && Holds(w.rows, order[i], x, PendingApply) ==> !Holds(w.rows, order[n], x, PendingDelete);
    }
  }

  lemma OrderRemovesFirst(w: World, k: nat)
    requires Aged(w) && k <= |ById(w)|
    ensures PendingOnly(w.rows, ById(w)[..k]) && RemovesFirst(w.rows, ById(w)[..k])
  {
    var order := ById(w);
    forall id | id in order[..k]
      ensures id in w.rows && (w.rows[id].status == Some(PendingApply) || w.rows[id].status == Some(PendingDelete))
    {
      assert id in order;
      assert IsSelected(DbOf(w.rows), Excluded, w.host, id);
    }
  }

  lemma AllListed(w: World, order: seq<nat>, x: Range, status: SyncStatus)
    requires Aged(w) && Listing(DbOf(w.rows), Excluded, w.host, order) && status != Synchronized
    ensures Listed(w.rows, order, x, status) <==> Held(w.rows, x, status)
  {
    if Held(w.rows, x, status) {
      var id :| Holds(w.rows, id, x, status);
      PendingListed(w, order, id);
    }
  }

  lemma PushEffect(w: World, x: Range)
    requires Aged(w)
    ensures x in After(w, Push).device <==> Held(w.rows, x, PendingApply) || (x in w.device && !Held(w.rows, x, PendingDelete))
    ensures Held(After(w, Push).rows, x, Synchronized) <==> Held(w.rows, x, PendingApply) || Held(w.rows, x, Synchronized)
  {
    var order := ById(w);
    assert order[..|order|] == order;
    OrderRemovesFirst(w, |order|);
    SentEffect(w, order, x);
    AllListed(w, order, x, PendingApply);
    AllListed(w, order, x, PendingDelete);
    PushedRows(w);
    var rows := After(w, Push).rows;
    forall id
      ensures Holds(rows, id, x, Synchronized) <==> Holds(w.rows, id, x, PendingApply) || Holds(w.rows, id, x, Synchronized)
    {
    }
  }

  // ---------------------------------------------------------------------
  // When a push converges
  // ---------------------------------------------------------------------

  ghost predicate Converged(w: World) {
    forall x :: x in w.device <==> Held(w.rows, x, Synchronized)
  }

  /** Apart from ranges about to be applied, what is on the device and not queued
      for removal is what is synchronized. */
  ghost predicate Pushable(w: World) {
    forall x :: !Held(w.rows, x, PendingApply) ==>
      (x in w.device && !Held(w.rows, x, PendingDelete) <==> Held(w.rows, x, Synchronized))
  }

  /** A successful push makes the device equal to the synchronized rows exactly
      when the state before it was pushable. */
  lemma PushConvergesIff(w: World)
    requires Aged(w)
    ensures Converged(After(w, Push)) <==> Pushable(w)
  {
    forall x
      ensures x in After(w, Push).device <==> Held(w.rows, x, PendingApply) || (x in w.device && !Held(w.rows, x, PendingDelete))
      ensures Held(After(w, Push).rows, x, Synchronized) <==> Held(w.rows, x, PendingApply) || Held(w.rows, x, Synchronized)
    {
      PushEffect(w, x);
    }
  }

  /** Nothing on the device lacks a row, every synchronized range is on it, and no
      range is both synchronized and queued for removal. */
  ghost predicate Backed(w: World) {
    forall x :: BackedAt(w, x)
  }

  ghost predicate BackedAt(w: World, x: Range) {
    && (x in w.device ==> Held(w.rows, x, PendingApply) || Held(w.rows, x, PendingDelete) || Held(w.rows, x, Synchronized))
    && (Held(w.rows, x, Synchronized) ==> x in w.device && !Held(w.rows, x, PendingDelete))
  }

  predicate Another(rows: Table, id: nat, status: SyncStatus)
    requires id in rows
  {
    exists other :: other in rows && other != id && Holds(rows, other, rows[id].fields, status)
  }

  /** Deletions that leave the device accounted for: a draft whose range did not
      reach the device or has another row, a synchronized range without a twin. */
  predicate Careful(w: World, e: Event) {
    e.Delete? && e.id in w.rows ==>
      match w.rows[e.id].status
      case Some(PendingApply) =>
        || w.rows[e.id].fields !in w.device || Another(w.rows, e.id, PendingApply)
        || Another(w.rows, e.id, PendingDelete) || Another(w.rows, e.id, Synchronized)
      case Some(Synchronized) => !Another(w.rows, e.id, Synchronized)
      case _ => true
  }

  lemma AddedHeld(w: World, range: Range, x: Range, status: SyncStatus)
    requires Aged(w)
    ensures Held(After(w, Add(range)).rows, x, status) <==> Held(w.rows, x, status) || (x == range && status == PendingApply)
  {
    var after := After(w, Add(range)).rows;
    assert Holds(after, w.nextId, range, PendingApply);
    forall id | id != w.nextId
      ensures Holds(after, id, x, status) <==> Holds(w.rows, id, x, status)
    {
    }
  }

  lemma DeletedHeld(w: World, id: nat, x: Range, status: SyncStatus)
    requires Aged(w) && id in w.rows
    ensures var after := SoftDelete(w.rows, id);
      Held(after, x, status) <==>
        || (if x == w.rows[id].fields && w.rows[id].status == Some(status) then Another(w.rows, id, status)
            else Held(w.rows, x, status))
        || (status == PendingDelete && x == w.rows[id].fields && w.rows[id].status != Some(PendingApply))
  {
    var after := SoftDelete(w.rows, id);
    forall k | k != id
      ensures Holds(after, k, x, status) <==> Holds(w.rows, k, x, status)
    {
    }
    if w.rows[id].status != Some(PendingApply) {
      assert Holds(after, id, w.rows[id].fields, PendingDelete);
    }
    if Held(w.rows, x, status) {
      var k :| Holds(w.rows, k, x, status);
      assert k != id ==> Holds(after, k, x, status);
    }
    if x == w.rows[id].fields && Another(w.rows, id, status) {
      var other :| other in w.rows && other != id && Holds(w.rows, other, w.rows[id].fields, status);
      assert Holds(after, other, x, status);
    }
  }

  lemma DeleteBackedAt(w: World, id: nat, x: Range)
    requires Aged(w) && Backed(w) && id in w.rows
    ensures BackedAt(After(w, Delete(id)), x) <==> x != w.rows[id].fields || Careful(w, Delete(id))
  {
    assert BackedAt(w, x);
    assert Holds(w.rows, id, w.rows[id].fields, w.rows[id].status.value);
    DeletedHeld(w, id, x, PendingApply);
    DeletedHeld(w, id, x, PendingDelete);
    DeletedHeld(w, id, x, Synchronized);
    if x == w.rows[id].fields {
      assert forall status :: Another(w.rows, id, status) ==> Held(w.rows, x, status);
      assert forall status :: status != w.rows[id].status.value && Held(w.rows, x, status) ==> Another(w.rows, id, status);
    }
  }

  /** A deletion keeps the device accounted for exactly when it is careful. */
  lemma DeleteKeepsIff(w: World, id: nat)
    requires Aged(w) && Backed(w)
    ensures Backed(After(w, Delete(id))) <==> Careful(w, Delete(id))
  {
    if id in w.rows {
      forall x
        ensures BackedAt(After(w, Delete(id)), x) <==> x != w.rows[id].fields || Careful(w, Delete(id))
      {
        DeleteBackedAt(w, id, x);
      }
      assert BackedAt(After(w, Delete(id)), w.rows[id].fields) <==> Careful(w, Delete(id));
    }
  }

  lemma AddBacked(w: World, range: Range)
    requires Aged(w) && Backed(w)
    ensures Backed(After(w, Add(range)))
  {
    forall x
      ensures BackedAt(After(w, Add(range)), x)
    {
      assert BackedAt(w, x);
      AddedHeld(w, range, x, PendingApply);
      AddedHeld(w, range, x, PendingDelete);
      AddedHeld(w, range, x, Synchronized);
    }
  }

  lemma FailBacked(w: World, ran: nat)
    requires Aged(w) && Backed(w)
    ensures Backed(After(w, Fail(ran)))
  {
    var k := if ran <= |ById(w)| then ran else |ById(w)|;
    var order := ById(w)[..k];
    assert After(w, Fail(ran)).device == Sent(w, order) by { assert ById(w)[..|ById(w)|] == ById(w); }
    OrderRemovesFirst(w, k);
    forall x
      ensures BackedAt(After(w, Fail(ran)), x)
    {
      assert BackedAt(w, x);
      SentEffect(w, order, x);
      assert forall status :: Listed(w.rows, order, x, status) ==> Held(w.rows, x, status);
    }
  }

  lemma PushBacked(w: World)
    requires Aged(w) && Backed(w)
    ensures Converged(After(w, Push)) && Backed(After(w, Push))
  {
    PushedRows(w);
    forall x
      ensures x in After(w, Push).device <==> Held(After(w, Push).rows, x, Synchronized)
      ensures BackedAt(After(w, Push), x)
    {
      assert BackedAt(w, x);
      PushEffect(w, x);
      assert !Held(After(w, Push).rows, x, PendingDelete);
    }
  }

  ghost predicate AllCareful(w: World, events: seq<Event>)
    decreases |events|
  {
    events != [] ==> Careful(w, events[0]) && AllCareful(After(w, events[0]), events[1..])
  }

  ghost function Run(w: World, events: seq<Event>): World
    decreases |events|
  {
    if events == [] then w else Run(After(w, events[0]), events[1..])
  }

  lemma StepBacked(w: World, e: Event)
    requires Aged(w) && Backed(w) && Careful(w, e)
    ensures Backed(After(w, e))
  {
    match e
    case Add(range) => AddBacked(w, range);
    case Delete(id) => DeleteKeepsIff(w, id);
    case Fail(ran) => FailBacked(w, ran);
    case Push => PushBacked(w);
  }

  /** Over every run rows still to be applied are newer than all others, so that the
      ordered collector never adds a range and removes it later in one push. */
  lemma {:induction false} EveryRunRemovesFirst(w: World, events: seq<Event>)
    requires Aged(w)
    ensures var end := Run(w, events);
      Aged(end) && PendingOnly(end.rows, ById(end)) && RemovesFirst(end.rows, ById(end))
    decreases |events|
  {
    if events == [] {
      assert ById(w)[..|ById(w)|] == ById(w);
      OrderRemovesFirst(w, |ById(w)|);
    } else {
      StepAged(w, events[0]);
      EveryRunRemovesFirst(After(w, events[0]), events[1..]);
    }
  }

  /** After any careful run of additions, deletions and half-done pushes, one
      successful push leaves exactly the synchronized ranges on the device. */
  lemma {:induction false} CarefulRunConverges(w: World, events: seq<Event>)
    requires Aged(w) && Backed(w) && AllCareful(w, events)
    ensures Aged(Run(w, events)) && Backed(Run(w, events)) && Converged(After(Run(w, events), Push))
    decreases |events|
  {
    if events == [] {
      PushBacked(w);
    } else {
      StepAged(w, events[0]);
      StepBacked(w, events[0]);
      CarefulRunConverges(After(w, events[0]), events[1..]);
    }
  }

  // ---------------------------------------------------------------------
  // Row order
  // ---------------------------------------------------------------------

  ghost predicate Clash(rows: Table) {
    exists x :: Held(rows, x, PendingApply) && Held(rows, x, PendingDelete)
  }

  lemma NoClashEffect(w: World, order: seq<nat>, x: Range)
    requires Aged(w) && Listing(DbOf(w.rows), Excluded, w.host, order) && !Clash(w.rows)
    ensures x in Sent(w, order) <==> Held(w.rows, x, PendingApply) || (x in w.device && !Held(w.rows, x, PendingDelete))
  {
    forall i, j, y | 0 <= i < j < |order| && Holds(w.rows, order[i], y, PendingApply)
      ensures !Holds(w.rows, order[j], y, PendingDelete)
    {
      assert Held(w.rows, y, PendingApply);
      assert !Held(w.rows, y, PendingDelete);
    }
    forall id | id in order
      ensures id in w.rows && w.rows[id].status != Some(Synchronized)
    {
      PendingListed(w, order, id);
    }
    SentEffect(w, order, x);
    AllListed(w, order, x, PendingApply);
    AllListed(w, order, x, PendingDelete);
  }

  ghost predicate OrderIrrelevant(w: World) {
    forall p, q :: Listing(DbOf(w.rows), Excluded, w.host, p) && Listing(DbOf(w.rows), Excluded, w.host, q) ==>
      Sent(w, p) == Sent(w, q)
  }

  lemma ClashMatters(w: World)
    requires Aged(w) && Clash(w.rows)
    ensures !OrderIrrelevant(w)
  {
    var x :| Held(w.rows, x, PendingApply) && Held(w.rows, x, PendingDelete);
    var d :| Holds(w.rows, d, x, PendingDelete);
    var order := ById(w);
    PushEffect(w, x);
    PendingListed(w, order, d);
    MovedLastListing(DbOf(w.rows), Excluded, w.host, order, d);
    LastRemoves(w, MovedLast(order, d), d);
    assert x in Sent(w, order) && x !in Sent(w, MovedLast(order, d));
  }

  lemma LastRemoves(w: World, order: seq<nat>, d: nat)
    requires order != [] && order[|order| - 1] == d && d in w.rows && w.rows[d].status == Some(PendingDelete)
    ensures w.rows[d].fields !in Sent(w, order)
  {
    var items := Items(DbOf(w.rows), Excluded, order);
    assert items[|items| - 1] == Shown(DbOf(w.rows), Excluded, d);
  }

  /** Every synchronized range gets there: removed and added again before the next
      push, it is queued for both. */
  lemma RemovedAndAddedClash(w: World, id: nat)
    requires Aged(w) && id in w.rows && w.rows[id].status == Some(Synchronized)
    ensures var after := After(After(w, Delete(id)), Add(w.rows[id].fields));
      Aged(after) && Clash(after.rows) && !OrderIrrelevant(after)
  {
    var x, deleted := w.rows[id].fields, After(w, Delete(id));
    StepAged(w, Delete(id));
    StepAged(deleted, Add(x));
    var after := After(deleted, Add(x));
    assert Holds(after.rows, id, x, PendingDelete) && Holds(after.rows, deleted.nextId, x, PendingApply);
    assert Held(after.rows, x, PendingDelete) && Held(after.rows, x, PendingApply);
    ClashMatters(after);
  }

  /** A run from an empty table that does. */
  lemma ClashRun(host: string, x: Range)
    ensures var w := World(host, map[], 0, {});
      Aged(w) && !OrderIrrelevant(Run(w, [Add(x), Push, Delete(0), Add(x)]))
  {
    var w := World(host, map[], 0, {});
    var pushed := After(After(w, Add(x)), Push);
    StepAged(w, Add(x));
    PushedRows(After(w, Add(x)));
    StepAged(After(w, Add(x)), Push);
    RemovedAndAddedClash(pushed, 0);
    FourSteps(w, Add(x), Push, Delete(0), Add(x));
  }

  lemma FourSteps(w: World, a: Event, b: Event, c: Event, d: Event)
    ensures Run(w, [a, b, c, d]) == After(After(After(After(w, a), b), c), d)
  {
    assert [a, b, c, d][1..] == [b, c, d] && [b, c, d][1..] == [c, d] && [c, d][1..] == [d] && [d][1..] == [];
    assert Run(After(After(w, a), b), [c, d]) == After(After(After(After(w, a), b), c), d) by {
      assert Run(After(After(After(w, a), b), c), [d]) == Run(After(After(After(After(w, a), b), c), d), []);
    }
  }

  /** The collector that does not order its rows may configure something else
      exactly when some range is queued both for removal and for addition. */
  lemma OrderIrrelevantIff(w: World)
    requires Aged(w)
    ensures OrderIrrelevant(w) <==> !Clash(w.rows)
  {
    if Clash(w.rows) {
      ClashMatters(w);
    } else {
      forall p, q, x | Listing(DbOf(w.rows), Excluded, w.host, p) && Listing(DbOf(w.rows), Excluded, w.host, q)
        ensures x in Sent(w, p) <==> x in Sent(w, q)
      {
        NoClashEffect(w, p, x);
        NoClashEffect(w, q, x);
      }
    }
  }

  // ---------------------------------------------------------------------
  // The table as the user's edits change it
  // ---------------------------------------------------------------------

  class ExcludedAddresses {
    const host: string
    var rows: Table
    var nextId: nat

    constructor (host: string)
      ensures this.host == host && rows == map[] && nextId == 0
    {
      this.host, rows, nextId := host, map[], 0;
    }

    ghost function View(device: set<Range>): World
      reads this
    {
      World(host, rows, nextId, device)
    }

    method AddExcludedAddress(range: Range)
      modifies this
      ensures forall device :: View(device) == After(old(View(device)), Add(range))
    {
      rows := rows[nextId := Row(host, range, None, Some(PendingApply))];
      nextId := nextId + 1;
    }

    method DeleteExcludedAddress(id: nat) returns (deleted: bool)
      modifies `rows
      ensures deleted <==> id in old(rows)
      ensures forall device :: View(device) == After(old(View(device)), Delete(id))
    {
      if id !in rows {
        return false;
      }
      var status := rows[id].status;
      if status.None? || status.value == PendingApply {
        rows := rows - {id};
      } else {
        rows := rows[id := rows[id].(status := Some(PendingDelete))];
      }
      return true;
    }
  }
}
