// The two DHCP collectors and the two markers as they work on the tables. Each
// pair is proved against the same meaning, so they agree.

module DhcpStore {
  import opened Common
  import opened DhcpTables

  /** Ids with a row, one by one: the row count a marker reports. */
  function Touched(table: Table, ids: seq<nat>): nat {
    if ids == [] then 0
    else Touched(table, ids[..|ids| - 1]) + if ids[|ids| - 1] in table then 1 else 0
  }

  function TouchedBy(db: Db, task: Task): nat {
    Touched(db.excluded, task.excluded.add) + Touched(db.excluded, task.excluded.del)
    + Touched(db.pools, task.pools.add) + Touched(db.pools, task.pools.del)
    + Touched(db.helpers, task.helpers.add) + Touched(db.helpers, task.helpers.del)
  }

  /** The count is the number of ids that have a row, each counted as often as listed. */
  lemma {:induction false} TouchedRows(table: Table, ids: seq<nat>)
    ensures Touched(table, ids) == |set i: nat | i < |ids| && ids[i] in table|
  {
    if ids != [] {
      var n: nat := |ids| - 1;
      TouchedRows(table, ids[..n]);
      var rest := set i: nat | i < n && ids[..n][i] in table;
      var all := set i: nat | i < |ids| && ids[i] in table;
      assert all == if ids[n] in table then rest + {n} else rest;
    }
  }

  /** A task has an effect to report exactly when one of its ids has a row. */
  lemma TouchedByIff(db: Db, task: Task)
    ensures TouchedBy(db, task) > 0 <==>
      || (exists id :: (id in task.excluded.add || id in task.excluded.del) && id in db.excluded)
      || (exists id :: (id in task.pools.add || id in task.pools.del) && id in db.pools)
      || (exists id :: (id in task.helpers.add || id in task.helpers.del) && id in db.helpers)
  {
    TouchedIff(db.excluded, task.excluded.add);
    TouchedIff(db.excluded, task.excluded.del);
    TouchedIff(db.pools, task.pools.add);
    TouchedIff(db.pools, task.pools.del);
    TouchedIff(db.helpers, task.helpers.add);
    TouchedIff(db.helpers, task.helpers.del);
  }

  lemma {:induction false} TouchedIff(table: Table, ids: seq<nat>)
    ensures Touched(table, ids) > 0 <==> exists id :: id in ids && id in table
  {
    if ids != [] {
      TouchedIff(table, ids[..|ids| - 1]);
      assert ids == ids[..|ids| - 1] + [ids[|ids| - 1]];
    }
  }

  ghost predicate NoRowTwice(task: Task) {
    NoRepeats(task.excluded.del) && NoRepeats(task.pools.del) && NoRepeats(task.helpers.del)
  }

  /** The first `n` ids to settle are settled. */
  function SettleIds(kind: Kind, table: Table, ids: seq<nat>): Table {
    map id | id in table :: if id in ids then Settled(kind, table[id]) else table[id]
  }

  function DropIds(table: Table, ids: seq<nat>): Table {
    map id | id in table && id !in ids :: table[id]
  }

  class DhcpDatabase {
    var excluded: Table
    var pools: Table
    var helpers: Table
    var interfaces: map<string, Interface>

    ghost function View(): Db
      reads this
    {
      Db(excluded, pools, helpers, interfaces)
    }

    method Rows(kind: Kind) returns (table: Table)
      ensures table == View().Of(kind)
    {
      match kind
      case Excluded => table := excluded;
      case Pool => table := pools;
      case Helper => table := helpers;
    }

    // -------------------------------------------------------------------
    // The stand-alone collector: rows in any order, every host
    // -------------------------------------------------------------------

    method CollectPart(kind: Kind, rows: seq<nat>) returns (part: Part)
      requires forall id :: id in rows ==> id in View().Of(kind)
      ensures part == PartOf(View(), kind, rows) && ItemsSay(View(), kind, rows, part.items)
    {
      var table := Rows(kind);
      var items: seq<Item>, add: seq<nat>, del: seq<nat> := [], [], [];
      for i := 0 to |rows|
        invariant Part(items, add, del) == PartOf(View(), kind, rows[..i])
      {
        assert rows[..i + 1][..i] == rows[..i];
        var row := table[rows[i]];
        var state := StateOf(row.status);
        items := items + [Item(row.fields, NameOf(kind, row, interfaces),
                               kind.Pool? && TextBit(row.mask, 2), kind.Pool? && TextBit(row.mask, 1),
                               kind.Pool? && TextBit(row.mask, 0), state)];
        if state == Remove {
          del := del + [rows[i]];
        } else {
          add := add + [rows[i]];
        }
      }
      assert rows[..|rows|] == rows;
      part := Part(items, add, del);
      PartSays(View(), kind, rows);
    }

    /** Tasks for the given hosts; those without pending rows get none. */
    method Collect(hosts: seq<string>, listed: map<string, (seq<nat>, seq<nat>, seq<nat>)>) returns (tasks: seq<Task>)
      requires forall h :: h in hosts ==> h in listed && ListsHost(View(), h, listed[h])
      ensures forall t :: t in tasks ==> t.host in hosts && t == TaskOf(View(), t.host, listed[t.host])
      ensures forall h :: h in hosts ==> ((exists t :: t in tasks && t.host == h) <==> HasWork(View(), h))
    {
      tasks := [];
      for i := 0 to |hosts|
        invariant forall t :: t in tasks ==> t.host in hosts && t == TaskOf(View(), t.host, listed[t.host])
        invariant forall t :: t in tasks ==> HasWork(View(), t.host)
        invariant forall k :: 0 <= k < i && HasWork(View(), hosts[k]) ==> exists t :: t in tasks && t.host == hosts[k]
      {
        var host := hosts[i];
        assert host in hosts;
        var rows := listed[host];
        var first := CollectPart(Excluded, rows.0);
        var second := CollectPart(Pool, rows.1);
        var third := CollectPart(Helper, rows.2);
        WorkIff(View(), host, rows);
        if AnyIds(first) || AnyIds(second) || AnyIds(third) {
          var task := Task(host, first, second, third);
          tasks := tasks + [task];
          assert task in tasks && task.host == hosts[i];
        }
      }
    }

    // -------------------------------------------------------------------
    // The view's collector: ordered rows, one host
    // -------------------------------------------------------------------

    method CollectViewPart(kind: Kind, rows: seq<nat>) returns (part: Part)
      requires forall id :: id in rows ==> id in View().Of(kind)
      ensures part == PartOf(View(), kind, rows) && ItemsSay(View(), kind, rows, part.items)
    {
      var table := Rows(kind);
      var items: seq<Item>, add: seq<nat>, del: seq<nat> := [], [], [];
      for i := 0 to |rows|
        invariant Part(items, add, del) == PartOf(View(), kind, rows[..i])
      {
        assert rows[..i + 1][..i] == rows[..i];
        var row := table[rows[i]];
        var state := StateOf(row.status);
        BitsAgreeIff(0);
        BitsAgreeIff(1);
        BitsAgreeIff(2);
        items := items + [Item(row.fields, NameOf(kind, row, interfaces),
                               kind.Pool? && FilledBit(row.mask, 2), kind.Pool? && FilledBit(row.mask, 1),
                               kind.Pool? && FilledBit(row.mask, 0), state)];
        if state == Remove {
          del := del + [rows[i]];
        } else {
          add := add + [rows[i]];
        }
      }
      assert rows[..|rows|] == rows;
      part := Part(items, add, del);
      PartSays(View(), kind, rows);
    }

    method CollectView(host: string, rows: (seq<nat>, seq<nat>, seq<nat>)) returns (task: Option<Task>)
      requires ListsHost(View(), host, rows)
      ensures task == if HasWork(View(), host) then Some(TaskOf(View(), host, rows)) else None
    {
      var first := CollectViewPart(Excluded, rows.0);
      var second := CollectViewPart(Pool, rows.1);
      var third := CollectViewPart(Helper, rows.2);
      WorkIff(View(), host, rows);
      if AnyIds(first) || AnyIds(second) || AnyIds(third) {
        return Some(Task(host, first, second, third));
      }
      return None;
    }

    // -------------------------------------------------------------------
    // Marking
    // -------------------------------------------------------------------

    static method SettleRows(kind: Kind, table: Table, ids: seq<nat>) returns (after: Table, changes: nat)
      ensures after == SettleIds(kind, table, ids) && changes == Touched(table, ids)
    {
      after, changes := table, 0;
      for i := 0 to |ids|
        invariant after == SettleIds(kind, table, ids[..i]) && changes == Touched(table, ids[..i])
      {
        assert ids[..i + 1] == ids[..i] + [ids[i]];
        if ids[i] in after {
          after := after[ids[i] := Settled(kind, after[ids[i]])];
          changes := changes + 1;
        }
      }
      assert ids[..|ids|] == ids;
    }

    static method DropRows(table: Table, ids: seq<nat>) returns (after: Table, changes: nat)
      requires NoRepeats(ids)
      ensures after == DropIds(table, ids) && changes == Touched(table, ids)
    {
      after, changes := table, 0;
      for i := 0 to |ids|
        invariant after == DropIds(table, ids[..i]) && changes == Touched(table, ids[..i])
      {
        assert ids[..i + 1] == ids[..i] + [ids[i]];
        assert ids[i] !in ids[..i];
        if ids[i] in after {
          after := after - {ids[i]};
          changes := changes + 1;
        }
      }
      assert ids[..|ids|] == ids;
    }

    static method MarkRows(kind: Kind, table: Table, part: Part) returns (after: Table, changes: nat)
      requires NoRepeats(part.del)
      ensures after == MarkTable(kind, table, part)
      ensures changes == Touched(table, part.add) + Touched(table, part.del)
    {
      var settled, n := SettleRows(kind, table, part.add);
      after, changes := DropRows(settled, part.del);
      changes := changes + n;
      TouchedByKeys(settled, table, part.del);
    }

    /** The stand-alone marker: pools, exclusions, helpers. */
    method MarkSuccess(task: Task) returns (changes: nat)
      requires NoRowTwice(task)
      modifies this
      ensures View() == Mark(old(View()), task) && changes == TouchedBy(old(View()), task)
    {
      var n: nat;
      pools, changes := MarkRows(Pool, pools, task.pools);
      excluded, n := MarkRows(Excluded, excluded, task.excluded);
      changes := changes + n;
      helpers, n := MarkRows(Helper, helpers, task.helpers);
      changes := changes + n;
    }

    /** The view's marker: exclusions, pools, helpers. */
    method ApplyTaskMark(task: Task) returns (changes: nat)
      requires NoRowTwice(task)
      modifies this
      ensures View() == Mark(old(View()), task) && changes == TouchedBy(old(View()), task)
    {
      var n: nat;
      excluded, changes := MarkRows(Excluded, excluded, task.excluded);
      pools, n := MarkRows(Pool, pools, task.pools);
      changes := changes + n;
      helpers, n := MarkRows(Helper, helpers, task.helpers);
      changes := changes + n;
    }
  }

  lemma {:induction false} TouchedByKeys(a: Table, b: Table, ids: seq<nat>)
    requires a.Keys == b.Keys
    ensures Touched(a, ids) == Touched(b, ids)
  {
    if ids != [] {
      TouchedByKeys(a, b, ids[..|ids| - 1]);
    }
  }

  // ---------------------------------------------------------------------
  // Agreement of the collectors
  // ---------------------------------------------------------------------

  ghost predicate ListsHost(db: Db, host: string, rows: (seq<nat>, seq<nat>, seq<nat>)) {
    Listing(db, Excluded, host, rows.0) && Listing(db, Pool, host, rows.1) && Listing(db, Helper, host, rows.2)
  }

  function TaskOf(db: Db, host: string, rows: (seq<nat>, seq<nat>, seq<nat>)): Task
    requires ListsHost(db, host, rows)
  {
    Task(host, PartOf(db, Excluded, rows.0), PartOf(db, Pool, rows.1), PartOf(db, Helper, rows.2))
  }

  predicate AnyIds(part: Part) {
    part.add != [] || part.del != []
  }

  /** Some row of some table awaits a push to the host. */
  predicate HasWork(db: Db, host: string) {
    Selected(db, Excluded, host) != {} || Selected(db, Pool, host) != {} || Selected(db, Helper, host) != {}
  }

  lemma AnyIdsIff(db: Db, kind: Kind, host: string, order: seq<nat>)
    requires Listing(db, kind, host, order)
    ensures AnyIds(PartOf(db, kind, order)) <==> Selected(db, kind, host) != {}
  {
    ListingEmptyIff(db, kind, host, order);
    PartPartitions(db, kind, order);
    var part := PartOf(db, kind, order);
    if order != [] {
      assert order[0] in order;
      assert order[0] in part.add || order[0] in part.del;
    }
  }

  lemma WorkIff(db: Db, host: string, rows: (seq<nat>, seq<nat>, seq<nat>))
    requires ListsHost(db, host, rows)
    ensures var task := TaskOf(db, host, rows);
      HasWork(db, host) <==> AnyIds(task.excluded) || AnyIds(task.pools) || AnyIds(task.helpers)
  {
    AnyIdsIff(db, Excluded, host, rows.0);
    AnyIdsIff(db, Pool, host, rows.1);
    AnyIdsIff(db, Helper, host, rows.2);
  }

  lemma PartsAgree(db: Db, kind: Kind, host: string, p: seq<nat>, q: seq<nat>)
    requires Listing(db, kind, host, p) && Listing(db, kind, host, q)
    ensures SameRows(PartOf(db, kind, p), PartOf(db, kind, q)) && NoRepeats(PartOf(db, kind, p).del)
    ensures MarkTable(kind, db.Of(kind), PartOf(db, kind, p)) == MarkTable(kind, db.Of(kind), PartOf(db, kind, q))
  {
    CollectorsAgree(db, kind, host, p, q);
    PartPartitions(db, kind, p);
    SameMarks(kind, db.Of(kind), PartOf(db, kind, p), PartOf(db, kind, q));
  }

  /** Tasks that differ in row order only. */
  predicate SameTask(p: Task, q: Task) {
    p.host == q.host && SameRows(p.excluded, q.excluded) && SameRows(p.pools, q.pools) && SameRows(p.helpers, q.helpers)
  }

  /** A collector's task holds exactly the host's pending rows. */
  lemma TasksCollect(db: Db, host: string, rows: (seq<nat>, seq<nat>, seq<nat>))
    requires ListsHost(db, host, rows)
    ensures Collected(db, host, TaskOf(db, host, rows))
  {
    PartCollects(db, Excluded, host, rows.0);
    PartCollects(db, Pool, host, rows.1);
    PartCollects(db, Helper, host, rows.2);
  }

  /** Whatever row orders the two collectors see, their tasks for a host are the
      same up to row order, and marking either has the same effect. */
  lemma TasksAgree(db: Db, host: string, p: (seq<nat>, seq<nat>, seq<nat>), q: (seq<nat>, seq<nat>, seq<nat>))
    requires ListsHost(db, host, p) && ListsHost(db, host, q)
    ensures SameTask(TaskOf(db, host, p), TaskOf(db, host, q)) && NoRowTwice(TaskOf(db, host, p))
    ensures Mark(db, TaskOf(db, host, p)) == Mark(db, TaskOf(db, host, q))
  {
    PartsAgree(db, Excluded, host, p.0, q.0);
    PartsAgree(db, Pool, host, p.1, q.1);
    PartsAgree(db, Helper, host, p.2, q.2);
  }

  lemma SameMarks(kind: Kind, table: Table, p: Part, q: Part)
    requires SameRows(p, q)
    ensures MarkTable(kind, table, p) == MarkTable(kind, table, q)
  {
    assert forall id :: id in p.add <==> id in multiset(p.add);
    assert forall id :: id in p.del <==> id in multiset(p.del);
    assert forall id :: id in q.add <==> id in multiset(q.add);
    assert forall id :: id in q.del <==> id in multiset(q.del);
  }
}
