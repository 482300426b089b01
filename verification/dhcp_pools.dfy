// Edits of DHCP pools, and what becomes of those made between collecting and
// marking a push.

module DhcpPools {
  import opened Common
  import opened DhcpTables

  /** A validated submission; a missing option is the empty text. */
  datatype PoolData = PoolData(name: string, network: string, subnetmask: string, gateway: string, dns: string, lease: string)

  function Identity(d: PoolData): seq<string> {
    [d.name, d.network, d.subnetmask]
  }

  /** In the order of the mask. */
  function Options(d: PoolData): seq<string> {
    [d.gateway, d.dns, d.lease]
  }

  function Fields(d: PoolData): (fields: seq<string>)
    ensures |fields| == 6 && fields[..3] == Identity(d) && fields[3..] == Options(d)
  {
    Identity(d) + Options(d)
  }

  predicate SameIdentity(fields: seq<string>, d: PoolData)
    requires |fields| == 6
  {
    fields[..3] == Identity(d)
  }

  function Bit(on: bool): string {
    if on then "1" else "0"
  }

  /** One bit per option that the submission changes. */
  function ChangedMask(fields: seq<string>, d: PoolData): string
    requires |fields| == 6
  {
    Bit(fields[3] != d.gateway) + Bit(fields[4] != d.dns) + Bit(fields[5] != d.lease)
  }

  /** For a new pool, one bit per option that has a value. */
  function PresenceMask(d: PoolData): string {
    Bit(d.gateway != "") + Bit(d.dns != "") + Bit(d.lease != "" && d.lease != "1")
  }

  /** The table and its AUTOINCREMENT sequence. */
  datatype Pools = Pools(rows: Table, next: nat)

  predicate Sound(p: Pools) {
    forall id :: id in p.rows ==> id < p.next && |p.rows[id].fields| == 6 && p.rows[id].status.Some?
  }

  datatype Edit = Create(host: string, data: PoolData) | Update(id: nat, data: PoolData) | Drop(id: nat)

  function Insert(p: Pools, host: string, d: PoolData): Pools {
    Pools(p.rows[p.next := Row(host, Fields(d), Some(PresenceMask(d)), Some(PendingApply))], p.next + 1)
  }

  function SoftDelete(p: Pools, id: nat): Pools {
    if id !in p.rows then p
    else if p.rows[id].status.None? || p.rows[id].status.value.PendingApply? then p.(rows := p.rows - {id})
    else p.(rows := p.rows[id := p.rows[id].(status := Some(PendingDelete))])
  }

  function After(p: Pools, e: Edit): Pools
    requires Sound(p)
  {
    match e
    case Create(host, d) => Insert(p, host, d)
    case Drop(id) => SoftDelete(p, id)
    case Update(id, d) =>
      if id !in p.rows || p.rows[id].status == Some(PendingDelete) then p
      else
        var row := p.rows[id];
        if !SameIdentity(row.fields, d) then Insert(SoftDelete(p, id), row.owner, d)
        else if ChangedMask(row.fields, d) == "000" then p
        else
          p.(rows := p.rows[id := row.(fields := row.fields[..3] + Options(d),
                                       mask := Some(ChangedMask(row.fields, d)), status := Some(PendingApply))])
  }

  function Run(p: Pools, edits: seq<Edit>): (q: Pools)
    requires Sound(p)
    ensures Sound(q) && p.next <= q.next
  {
    if edits == [] then p else After(Run(p, edits[..|edits| - 1]), edits[|edits| - 1])
  }

  // ---------------------------------------------------------------------
  // A draft through a run of edits
  // ---------------------------------------------------------------------

  /** The edit drops a draft: it deletes it, or replaces it under another identity. */
  predicate Drops(e: Edit, id: nat, identity: seq<string>) {
    match e
    case Create(_, _) => false
    case Drop(other) => other == id
    case Update(other, d) => other == id && identity != Identity(d)
  }

  /** The options last submitted for the row, or those it had. */
  function LastOptions(options: seq<string>, edits: seq<Edit>, id: nat): (r: seq<string>)
    requires |options| == 3
    ensures |r| == 3
  {
    if edits == [] then options
    else
      var last := edits[|edits| - 1];
      if last.Update? && last.id == id then Options(last.data) else LastOptions(options, edits[..|edits| - 1], id)
  }

  lemma SameMaskIff(fields: seq<string>, d: PoolData)
    requires |fields| == 6
    ensures ChangedMask(fields, d) == "000" <==> fields[3..] == Options(d)
  {
    var mask := ChangedMask(fields, d);
    assert mask[0] == Bit(fields[3] != d.gateway)[0] && mask[1] == Bit(fields[4] != d.dns)[0] && mask[2] == Bit(fields[5] != d.lease)[0];
    assert fields[3..] == [fields[3], fields[4], fields[5]];
    assert mask == "000" <==> mask[0] == '0' && mask[1] == '0' && mask[2] == '0';
  }

  /** A draft is gone exactly when some edit dropped it; otherwise it is still a draft
      with the identity it had and the options last submitted. */
  lemma {:induction false} DraftFate(p: Pools, edits: seq<Edit>, id: nat)
    requires Sound(p) && id in p.rows && p.rows[id].status == Some(PendingApply)
    ensures var row, q := p.rows[id], Run(p, edits);
      if exists e :: e in edits && Drops(e, id, row.fields[..3]) then id !in q.rows
      else
        && id in q.rows && q.rows[id].status == Some(PendingApply) && q.rows[id].owner == row.owner
        && q.rows[id].fields == row.fields[..3] + LastOptions(row.fields[3..], edits, id)
  {
    var row := p.rows[id];
    if edits == [] {
      assert row.fields == row.fields[..3] + row.fields[3..];
    } else {
      var n, e := |edits| - 1, edits[|edits| - 1];
      assert edits == edits[..n] + [e];
      DraftFate(p, edits[..n], id);
      DraftStep(Run(p, edits[..n]), row.fields[..3], e, id);
    }
  }

  lemma DraftStep(p: Pools, identity: seq<string>, e: Edit, id: nat)
    requires Sound(p) && id < p.next && |identity| == 3
    requires id in p.rows ==> p.rows[id].status == Some(PendingApply) && p.rows[id].fields[..3] == identity
    ensures var q := After(p, e);
      && (id in q.rows <==> id in p.rows && !Drops(e, id, identity))
      && (id in q.rows ==>
        && q.rows[id].status == Some(PendingApply) && q.rows[id].owner == p.rows[id].owner
        && q.rows[id].fields == identity + if e.Update? && e.id == id then Options(e.data) else p.rows[id].fields[3..])
  {
    if id in p.rows {
      assert p.rows[id].fields == p.rows[id].fields[..3] + p.rows[id].fields[3..];
      if e.Update? && e.id == id {
        SameMaskIff(p.rows[id].fields, e.data);
      }
    }
  }

  // ---------------------------------------------------------------------
  // Lost updates
  // ---------------------------------------------------------------------

  /** A pool row that claims to be synchronized with nothing left to push. */
  predicate Claims(db: Db, id: nat) {
    id in db.pools && db.pools[id].status == Some(Synchronized) && db.pools[id].mask == Some("000")
  }

  /** Edits between collecting a draft pool and marking its push: if one of them drops
      the draft, nothing is left of it in the tables although it was sent; otherwise
      it ends synchronized, collected by no later push, and says what was sent exactly
      when the options last submitted are those that were collected. */
  lemma LostUpdateIff(db: Db, next: nat, host: string, task: Task, id: nat, edits: seq<Edit>)
    requires Sound(Pools(db.pools, next)) && Collected(db, host, task)
    requires IsSelected(db, Pool, host, id) && !Removes(db, Pool, id)
    ensures
      var sent := db.pools[id].fields;
      var now := db.(pools := Run(Pools(db.pools, next), edits).rows);
      var after := Mark(now, task);
      if exists e :: e in edits && Drops(e, id, sent[..3]) then id !in after.pools
      else
        && Claims(after, id) && !IsSelected(after, Pool, host, id)
        && (after.pools[id].fields == sent <==> LastOptions(sent[3..], edits, id) == sent[3..])
  {
    var sent := db.pools[id].fields;
    var now := db.(pools := Run(Pools(db.pools, next), edits).rows);
    DraftFate(Pools(db.pools, next), edits, id);
    assert CollectedPart(db, host, Pool, task.Of(Pool));
    assert id in task.pools.add && id !in task.pools.del;
    assert Mark(now, task).pools == MarkTable(Pool, now.pools, task.pools);
    assert sent == sent[..3] + sent[3..];
    if !exists e :: e in edits && Drops(e, id, sent[..3]) {
      var options := LastOptions(sent[3..], edits, id);
      assert (sent[..3] + options)[3..] == options;
    }
  }

  // ---------------------------------------------------------------------
  // Several edits before one push
  // ---------------------------------------------------------------------

  /** What the template configures: the options whose bit is set. */
  function Configured(device: seq<string>, row: Row): seq<string>
    requires |device| == 3 && |row.fields| == 6
  {
    [if TextBit(row.mask, 2) then row.fields[3] else device[0],
     if TextBit(row.mask, 1) then row.fields[4] else device[1],
     if TextBit(row.mask, 0) then row.fields[5] else device[2]]
  }

  /** The options before the last edit that changed some. */
  function BeforeChange(options: seq<string>, edits: seq<Edit>, id: nat): (r: seq<string>)
    requires |options| == 3
    ensures |r| == 3
  {
    if edits == [] then options
    else
      var n, last := |edits| - 1, edits[|edits| - 1];
      var before := LastOptions(options, edits[..n], id);
      if last.Update? && last.id == id && Options(last.data) != before then before else BeforeChange(options, edits[..n], id)
  }

  predicate MaskOf(row: Row, before: seq<string>)
    requires |before| == 3 && |row.fields| == 6
  {
    && (TextBit(row.mask, 2) <==> before[0] != row.fields[3]) && (TextBit(row.mask, 1) <==> before[1] != row.fields[4])
    && (TextBit(row.mask, 0) <==> before[2] != row.fields[5])
  }

  /** A row after edits: its options, and the mask of the last change if there was one. */
  predicate Staged(row: Row, identity: seq<string>, device: seq<string>, before: seq<string>, now: seq<string>)
    requires |device| == 3 && |before| == 3
  {
    && |row.fields| == 6 && row.fields == identity + now && row.status != Some(PendingDelete)
    && (MaskOf(row, before) || now == device)
  }

  lemma MaskBits(fields: seq<string>, d: PoolData)
    requires |fields| == 6
    ensures var mask := Some(ChangedMask(fields, d));
      && (TextBit(mask, 2) <==> fields[3] != d.gateway) && (TextBit(mask, 1) <==> fields[4] != d.dns)
      && (TextBit(mask, 0) <==> fields[5] != d.lease)
  {
    var mask := ChangedMask(fields, d);
    assert mask[0] == Bit(fields[3] != d.gateway)[0] && mask[1] == Bit(fields[4] != d.dns)[0] && mask[2] == Bit(fields[5] != d.lease)[0];
  }

  lemma StagedStep(p: Pools, e: Edit, id: nat, identity: seq<string>, device: seq<string>, before: seq<string>, now: seq<string>)
    requires Sound(p) && id in p.rows && |identity| == 3 && |device| == 3 && |before| == 3
    requires Staged(p.rows[id], identity, device, before, now) && !Drops(e, id, identity)
    ensures var q, edited := After(p, e).rows, e.Update? && e.id == id;
      && id in q
      && Staged(q[id], identity, device, if edited && Options(e.data) != now then now else before, if edited then Options(e.data) else now)
  {
    if e.Update? && e.id == id {
      EditStaged(p, id, e.data, identity, device, before, now);
    } else {
      OtherEditKeeps(p, e, id);
    }
  }

  lemma OtherEditKeeps(p: Pools, e: Edit, id: nat)
    requires Sound(p) && id in p.rows && !(e.Update? && e.id == id) && e != Drop(id)
    ensures id in After(p, e).rows && After(p, e).rows[id] == p.rows[id]
  {
  }

  lemma EditStaged(p: Pools, id: nat, d: PoolData, identity: seq<string>, device: seq<string>, before: seq<string>, now: seq<string>)
    requires Sound(p) && id in p.rows && |identity| == 3 && |device| == 3 && |before| == 3
    requires Staged(p.rows[id], identity, device, before, now) && identity == Identity(d)
    ensures var q := After(p, Update(id, d)).rows;
      id in q && Staged(q[id], identity, device, if Options(d) != now then now else before, Options(d))
  {
    var row := p.rows[id];
    assert row.fields[..3] == identity && row.fields[3..] == now;
    SameMaskIff(row.fields, d);
    MaskBits(row.fields, d);
  }

  lemma {:induction false} EditsStaged(p: Pools, edits: seq<Edit>, id: nat)
    requires Sound(p) && id in p.rows && p.rows[id].status == Some(Synchronized)
    requires forall e :: e in edits ==> !Drops(e, id, p.rows[id].fields[..3])
    ensures var device, q := p.rows[id].fields[3..], Run(p, edits).rows;
      id in q && Staged(q[id], p.rows[id].fields[..3], device, BeforeChange(device, edits, id), LastOptions(device, edits, id))
  {
    var row := p.rows[id];
    var device := row.fields[3..];
    if edits == [] {
      assert row.fields == row.fields[..3] + device;
    } else {
      var rest, e := edits[..|edits| - 1], edits[|edits| - 1];
      EditsStaged(p, rest, id);
      StagedStep(Run(p, rest), e, id, row.fields[..3], device, BeforeChange(device, rest, id), LastOptions(device, rest, id));
    }
  }

  /** Every edit overwrites the mask of the one before: after the push the device has
      the options of the row exactly when the last change set each option anew or to
      what the device has. */
  lemma EditsPushIff(p: Pools, edits: seq<Edit>, id: nat)
    requires Sound(p) && id in p.rows && p.rows[id].status == Some(Synchronized)
    requires forall e :: e in edits ==> !Drops(e, id, p.rows[id].fields[..3])
    ensures
      var device, q := p.rows[id].fields[3..], Run(p, edits).rows;
      var before, now := BeforeChange(device, edits, id), LastOptions(device, edits, id);
      && id in q && q[id].fields[3..] == now
      && (Configured(device, q[id]) == now <==> forall i :: 0 <= i < 3 ==> before[i] != now[i] || now[i] == device[i])
  {
    EditsStaged(p, edits, id);
    var row, device := p.rows[id], p.rows[id].fields[3..];
    StagedConfigured(Run(p, edits).rows[id], row.fields[..3], device, BeforeChange(device, edits, id), LastOptions(device, edits, id));
  }

  lemma StagedConfigured(row: Row, identity: seq<string>, device: seq<string>, before: seq<string>, now: seq<string>)
    requires |identity| == 3 && |device| == 3 && |before| == 3 && |now| == 3
    requires Staged(row, identity, device, before, now)
    ensures row.fields[3..] == now
    ensures Configured(device, row) == now <==> forall i :: 0 <= i < 3 ==> before[i] != now[i] || now[i] == device[i]
  {
    assert row.fields[3..] == now && row.fields[3] == now[0] && row.fields[4] == now[1] && row.fields[5] == now[2];
    var sent := Configured(device, row);
    assert sent == now <==> sent[0] == now[0] && sent[1] == now[1] && sent[2] == now[2];
  }

  // ---------------------------------------------------------------------
  // What a task says of a pool
  // ---------------------------------------------------------------------

  /** The item pushes the options as submitted, those for which a flag is set. */
  predicate Pushes(item: Item, d: PoolData, gateway: bool, dns: bool, lease: bool) {
    && item.state.Setup? && item.fields == [d.name, d.network, d.subnetmask, d.gateway, d.dns, d.lease]
    && item.pushDefault == gateway && item.pushDns == dns && item.pushLease == lease
  }

  /** A new pool is collected with every option that has a value; a lease of one day
      is the default. */
  lemma CreatedItem(p: Pools, host: string, d: PoolData, db: Db, item: Item)
    requires Sound(p) && db.pools == After(p, Create(host, d)).rows && ItemSays(db, Pool, p.next, item)
    ensures Pushes(item, d, d.gateway != "", d.dns != "", d.lease != "" && d.lease != "1")
  {
    var mask := PresenceMask(d);
    assert mask[0] == Bit(d.gateway != "")[0] && mask[1] == Bit(d.dns != "")[0] && mask[2] == Bit(d.lease != "" && d.lease != "1")[0];
    assert Fields(d) == [d.name, d.network, d.subnetmask, d.gateway, d.dns, d.lease];
  }

  /** An edited pool is collected with exactly the options that the edit changed. */
  lemma EditedItem(p: Pools, id: nat, d: PoolData, db: Db, item: Item)
    requires Sound(p) && id in p.rows && p.rows[id].status == Some(Synchronized)
    requires SameIdentity(p.rows[id].fields, d) && p.rows[id].fields[3..] != Options(d)
    requires db.pools == After(p, Update(id, d)).rows && ItemSays(db, Pool, id, item)
    ensures var before := p.rows[id].fields;
      Pushes(item, d, before[3] != d.gateway, before[4] != d.dns, before[5] != d.lease)
  {
    var before := p.rows[id].fields;
    SameMaskIff(before, d);
    var mask := ChangedMask(before, d);
    assert mask[0] == Bit(before[3] != d.gateway)[0] && mask[1] == Bit(before[4] != d.dns)[0] && mask[2] == Bit(before[5] != d.lease)[0];
    assert before[..3] + Options(d) == [d.name, d.network, d.subnetmask, d.gateway, d.dns, d.lease];
  }

  // ---------------------------------------------------------------------
  // The table as the edits change it
  // ---------------------------------------------------------------------

  class DhcpPoolTable {
    var rows: Table
    var next: nat

    constructor ()
      ensures Valid() && View() == Pools(map[], 0)
    {
      rows, next := map[], 0;
    }

    ghost function View(): Pools
      reads this
    {
      Pools(rows, next)
    }

    ghost predicate Valid()
      reads this
    {
      Sound(View())
    }

    method InsertPool(host: string, d: PoolData)
      modifies this
      ensures View() == Insert(old(View()), host, d)
    {
      rows := rows[next := Row(host, Fields(d), Some(PresenceMask(d)), Some(PendingApply))];
      next := next + 1;
    }

    method DeleteDhcpPool(id: nat) returns (deleted: bool)
      requires Valid()
      modifies this
      ensures Valid() && View() == After(old(View()), Drop(id)) && (deleted <==> id in old(rows))
    {
      if id !in rows {
        return false;
      }
      if rows[id].status.None? || rows[id].status == Some(PendingApply) {
        rows := rows - {id};
      } else {
        rows := rows[id := rows[id].(status := Some(PendingDelete))];
      }
      return true;
    }

    /** A new identity replaces the row; changed options are updated in place. */
    method UpdateDhcpPool(id: nat, d: PoolData) returns (found: bool)
      requires Valid()
      modifies this
      ensures Valid() && View() == After(old(View()), Update(id, d))
      ensures found <==> id in old(rows) && old(rows)[id].status != Some(PendingDelete)
    {
      if id !in rows || rows[id].status == Some(PendingDelete) {
        return false;
      }
      var current := rows[id];
      if current.fields[..3] != [d.name, d.network, d.subnetmask] {
        var _ := DeleteDhcpPool(id);
        InsertPool(current.owner, d);
        return true;
      }
      var actionCfg := Bit(current.fields[3] != d.gateway) + Bit(current.fields[4] != d.dns) + Bit(current.fields[5] != d.lease);
      if actionCfg == "000" {
        return true;
      }
      rows := rows[id := Row(current.owner, current.fields[..3] + [d.gateway, d.dns, d.lease], Some(actionCfg), Some(PendingApply))];
      return true;
    }
  }
}
