// Vocabulary shared by the staging components: optional values, the sync
// status column, and the contract of an ORDER BY query.

module Common {

  datatype Option<+T> = None | Some(value: T)

  /** The values admitted by the sync_status CHECK constraints. */
  datatype SyncStatus = PendingApply | PendingDelete | Synchronized | Skipped {
    predicate Pending() {
      PendingApply? || PendingDelete?
    }
  }

  /** All elements of a sequence, as a set. */
  function Elements<T>(s: seq<T>): set<T> {
    set x | x in s
  }

  ghost predicate NoRepeats<T>(s: seq<T>) {
    forall i, j :: 0 <= i < j < |s| ==> s[i] != s[j]
  }

  // ---------------------------------------------------------------------
  // ORDER BY key ASC, id ASC
  // ---------------------------------------------------------------------

  predicate Before(key: map<nat, nat>, a: nat, b: nat) {
    a in key && b in key && (key[a] < key[b] || (key[a] == key[b] && a < b))
  }

  predicate Least(key: map<nat, nat>, rows: set<nat>, m: nat) {
    m in rows && forall x :: x in rows && x != m ==> Before(key, m, x)
  }

  /** `ids` lists exactly the rows of `rows`, each once, by key and then by id. */
  ghost predicate InOrder(key: map<nat, nat>, rows: set<nat>, ids: seq<nat>)
    requires rows <= key.Keys
  {
    && (forall x :: x in ids <==> x in rows)
    && (forall i, j :: 0 <= i < j < |ids| ==> Before(key, ids[i], ids[j]))
  }

  lemma LeastExists(key: map<nat, nat>, rows: set<nat>)
    requires rows <= key.Keys && rows != {}
    ensures exists m :: Least(key, rows, m)
  {
    var m :| m in rows;
    if rows == {m} {
      assert Least(key, rows, m);
    } else {
      LeastExists(key, rows - {m});
      var n :| Least(key, rows - {m}, n);
      assert forall x :: x in rows && x != m ==> x in rows - {m};
      if Before(key, m, n) {
        assert Least(key, rows, m);
      } else {
        assert Least(key, rows, n);
      }
    }
  }

  /** The row ids a query returns when it orders by `key` and then by id. */
  ghost function Ordered(key: map<nat, nat>, rows: set<nat>): (ids: seq<nat>)
    requires rows <= key.Keys
    ensures InOrder(key, rows, ids)
    ensures NoRepeats(ids)
  {
    if rows == {} then []
    else
      LeastExists(key, rows);
      var m :| Least(key, rows, m);
      [m] + Ordered(key, rows - {m})
  }
}
