// One access list: what the collector renders for its pending rules, and what
// the rendered commands do to the list on the device.

module AclLists {
  import opened Common

  datatype Kind = Standard | Extended | Dynamic | Reflexive | Mac

  /** A row of a rule table. `text` is everything rendered after the sequence. */
  datatype RuleRow = RuleRow(aclId: nat, sequence: Option<nat>, text: string, status: SyncStatus)

  /** The rule rows of one list, by primary key. */
  type Rows = map<nat, RuleRow>

  /** A rule without a sequence is numbered ten times its row id. */
  function Effective(id: nat, row: RuleRow): nat {
    if row.sequence.Some? && row.sequence.value != 0 then row.sequence.value else id * 10
  }

  function Keys(rows: Rows): map<nat, nat> {
    map id | id in rows :: Effective(id, rows[id])
  }

  function PendingIds(rows: Rows): set<nat> {
    set id | id in rows && rows[id].status.Pending()
  }

  function VisibleIds(rows: Rows): set<nat> {
    set id | id in rows && !rows[id].status.PendingDelete?
  }

  /** Pending rules ordered by effective sequence and then by id. */
  ghost function PendingQuery(rows: Rows): seq<nat> {
    Ordered(Keys(rows), PendingIds(rows))
  }

  // ---------------------------------------------------------------------
  // Collecting
  // ---------------------------------------------------------------------

  datatype Line = Line(sequence: nat, text: string)

  datatype Collected = Collected(add: seq<Line>, del: seq<Line>, trackAdd: seq<nat>, trackDel: seq<nat>)

  predicate IsSetup(rows: Rows, parentRemove: bool, id: nat) {
    id in rows && !parentRemove && !rows[id].status.PendingDelete?
  }

  /** The rows tracked for setup, or those tracked for removal, in query order. */
  function Select(rows: Rows, parentRemove: bool, setup: bool, ids: seq<nat>): seq<nat> {
    if ids == [] then []
    else
      var rest := Select(rows, parentRemove, setup, ids[..|ids| - 1]);
      var last := ids[|ids| - 1];
      if IsSetup(rows, parentRemove, last) == setup then rest + [last] else rest
  }

  lemma {:induction false} SelectKeepsExactly(rows: Rows, parentRemove: bool, setup: bool, ids: seq<nat>)
    ensures forall x :: x in Select(rows, parentRemove, setup, ids) <==> x in ids && IsSetup(rows, parentRemove, x) == setup
    ensures NoRepeats(ids) ==> NoRepeats(Select(rows, parentRemove, setup, ids))
  {
    if ids != [] {
      SelectKeepsExactly(rows, parentRemove, setup, ids[..|ids| - 1]);
      assert ids == ids[..|ids| - 1] + [ids[|ids| - 1]];
    }
  }

  function LineOf(rows: Rows, id: nat): Line {
    if id in rows then Line(Effective(id, rows[id]), rows[id].text) else Line(0, "")
  }

  function SequenceOf(rows: Rows, id: nat): nat {
    LineOf(rows, id).sequence
  }

  function Lines(rows: Rows, ids: seq<nat>): (r: seq<Line>)
    ensures |r| == |ids|
    ensures forall i :: 0 <= i < |ids| ==> r[i] == LineOf(rows, ids[i])
  {
    seq(|ids|, i requires 0 <= i < |ids| => LineOf(rows, ids[i]))
  }

  ghost predicate HasSequence(rows: Rows, ids: seq<nat>, s: nat) {
    exists y :: y in ids && SequenceOf(rows, y) == s
  }

  /** Of the rows that share a sequence, only the first one listed. */
  ghost function FirstOfSequence(rows: Rows, ids: seq<nat>): seq<nat> {
    if ids == [] then []
    else
      var rest := FirstOfSequence(rows, ids[..|ids| - 1]);
      var last := ids[|ids| - 1];
      if HasSequence(rows, rest, SequenceOf(rows, last)) then rest else rest + [last]
  }

  lemma {:induction false} FirstOfSequenceCovers(rows: Rows, ids: seq<nat>)
    ensures forall x :: x in FirstOfSequence(rows, ids) ==> x in ids
    ensures forall s :: HasSequence(rows, ids, s) <==> HasSequence(rows, FirstOfSequence(rows, ids), s)
    ensures forall i, j :: 0 <= i < j < |FirstOfSequence(rows, ids)| ==>
      SequenceOf(rows, FirstOfSequence(rows, ids)[i]) != SequenceOf(rows, FirstOfSequence(rows, ids)[j])
  {
    if ids != [] {
      var n := |ids| - 1;
      FirstOfSequenceCovers(rows, ids[..n]);
      HasSequenceAppend(rows, ids[..n], ids[n]);
      assert ids == ids[..n] + [ids[n]];
      var rest := FirstOfSequence(rows, ids[..n]);
      HasSequenceAppend(rows, rest, ids[n]);
    }
  }

  lemma HasSequenceAppend(rows: Rows, ids: seq<nat>, id: nat)
    ensures forall s :: HasSequence(rows, ids + [id], s) <==> HasSequence(rows, ids, s) || s == SequenceOf(rows, id)
  {
    forall s
      ensures HasSequence(rows, ids + [id], s) <==> HasSequence(rows, ids, s) || s == SequenceOf(rows, id)
    {
      assert id in ids + [id];
      if HasSequence(rows, ids, s) {
        var y :| y in ids && SequenceOf(rows, y) == s;
        assert y in ids + [id];
      }
    }
  }

  /** The collector's pass over the query result. */
  ghost function Collect(rows: Rows, parentRemove: bool, ids: seq<nat>): Collected {
    var adds := Select(rows, parentRemove, true, ids);
    var dels := Select(rows, parentRemove, false, ids);
    Collected(Lines(rows, adds), Lines(rows, FirstOfSequence(rows, dels)), adds, dels)
  }

  lemma LinesAppend(rows: Rows, ids: seq<nat>, id: nat)
    ensures Lines(rows, ids + [id]) == Lines(rows, ids) + [LineOf(rows, id)]
  {
  }

  lemma SelectStep(rows: Rows, parentRemove: bool, setup: bool, ids: seq<nat>, i: nat)
    requires i < |ids|
    ensures Select(rows, parentRemove, setup, ids[..i + 1]) ==
            Select(rows, parentRemove, setup, ids[..i]) + if IsSetup(rows, parentRemove, ids[i]) == setup then [ids[i]] else []
  {
    assert ids[..i + 1][..i] == ids[..i];
  }

  lemma FirstAppend(rows: Rows, ids: seq<nat>, id: nat)
    ensures var firsts := FirstOfSequence(rows, ids);
      FirstOfSequence(rows, ids + [id]) == if HasSequence(rows, firsts, SequenceOf(rows, id)) then firsts else firsts + [id]
  {
    assert (ids + [id])[..|ids|] == ids;
  }

  method CollectRules(rows: Rows, parentRemove: bool, ids: seq<nat>) returns (c: Collected)
    requires forall id :: id in ids ==> id in rows
    ensures c == Collect(rows, parentRemove, ids)
  {
    var add, del, trackAdd, trackDel := [], [], [], [];
    var rendered: set<nat> := {};
    ghost var firsts := [];
    for i := 0 to |ids|
      invariant trackAdd == Select(rows, parentRemove, true, ids[..i])
      invariant trackDel == Select(rows, parentRemove, false, ids[..i])
      invariant add == Lines(rows, trackAdd)
      invariant firsts == FirstOfSequence(rows, trackDel) && del == Lines(rows, firsts)
      invariant forall s :: s in rendered <==> HasSequence(rows, firsts, s)
    {
      var id := ids[i];
      SelectStep(rows, parentRemove, true, ids, i);
      SelectStep(rows, parentRemove, false, ids, i);
      var payload := LineOf(rows, id);
      if !parentRemove && !rows[id].status.PendingDelete? {
        LinesAppend(rows, trackAdd, id);
        add := add + [payload];
        trackAdd := trackAdd + [id];
      } else {
        FirstAppend(rows, trackDel, id);
        if payload.sequence !in rendered {
          del := del + [payload];
          rendered := rendered + {payload.sequence};
          HasSequenceAppend(rows, firsts, id);
          LinesAppend(rows, firsts, id);
          firsts := firsts + [id];
        }
        trackDel := trackDel + [id];
      }
    }
    assert ids[..|ids|] == ids;
    c := Collected(add, del, trackAdd, trackDel);
  }

  lemma TrackedIds(rows: Rows, parentRemove: bool)
    ensures var c := Collect(rows, parentRemove, PendingQuery(rows));
      && (forall id :: id in c.trackAdd <==> id in PendingIds(rows) && IsSetup(rows, parentRemove, id))
      && (forall id :: id in c.trackDel <==> id in PendingIds(rows) && !IsSetup(rows, parentRemove, id))
      && NoRepeats(c.trackAdd) && NoRepeats(c.trackDel)
  {
    SelectKeepsExactly(rows, parentRemove, true, PendingQuery(rows));
    SelectKeepsExactly(rows, parentRemove, false, PendingQuery(rows));
  }

  lemma DeletedOnce(rows: Rows, parentRemove: bool)
    ensures var c := Collect(rows, parentRemove, PendingQuery(rows));
      forall i, j :: 0 <= i < j < |c.del| ==> c.del[i].sequence != c.del[j].sequence
  {
    FirstOfSequenceCovers(rows, Collect(rows, parentRemove, PendingQuery(rows)).trackDel);
  }

  ghost predicate Numbers(lines: seq<Line>, s: nat) {
    exists l :: l in lines && l.sequence == s
  }

  lemma DeletedCovered(rows: Rows, parentRemove: bool, id: nat)
    requires id in Collect(rows, parentRemove, PendingQuery(rows)).trackDel
    ensures Numbers(Collect(rows, parentRemove, PendingQuery(rows)).del, SequenceOf(rows, id))
  {
    var dels := Collect(rows, parentRemove, PendingQuery(rows)).trackDel;
    FirstOfSequenceCovers(rows, dels);
    assert HasSequence(rows, FirstOfSequence(rows, dels), SequenceOf(rows, id));
    var y :| y in FirstOfSequence(rows, dels) && SequenceOf(rows, y) == SequenceOf(rows, id);
    LineListed(rows, FirstOfSequence(rows, dels), y);
  }

  /** Tracking splits the pending rows in two without missing or repeating one,
      and the rendered deletions name each deleted sequence exactly once. */
  lemma TrackingPartitions(rows: Rows, parentRemove: bool)
    ensures var c := Collect(rows, parentRemove, PendingQuery(rows));
      && Elements(c.trackAdd) + Elements(c.trackDel) == PendingIds(rows)
      && Elements(c.trackAdd) !! Elements(c.trackDel)
      && NoRepeats(c.trackAdd) && NoRepeats(c.trackDel)
      && (forall id :: id in c.trackDel <==>
        id in PendingIds(rows) && (parentRemove || rows[id].status.PendingDelete?))
      && (forall i, j :: 0 <= i < j < |c.del| ==> c.del[i].sequence != c.del[j].sequence)
      && (forall id :: id in c.trackDel ==> Numbers(c.del, SequenceOf(rows, id)))
  {
    TrackedIds(rows, parentRemove);
    DeletedOnce(rows, parentRemove);
    forall id | id in Collect(rows, parentRemove, PendingQuery(rows)).trackDel
      ensures Numbers(Collect(rows, parentRemove, PendingQuery(rows)).del, SequenceOf(rows, id))
    {
      DeletedCovered(rows, parentRemove, id);
    }
  }

  lemma LineListed(rows: Rows, ids: seq<nat>, id: nat)
    requires id in ids
    ensures LineOf(rows, id) in Lines(rows, ids)
  {
    var k :| 0 <= k < |ids| && ids[k] == id;
    assert Lines(rows, ids)[k] == LineOf(rows, id);
  }

  // ---------------------------------------------------------------------
  // The list on the device
  // ---------------------------------------------------------------------

  /** Numbered lists map a sequence to a rule; a MAC list is rendered without
      sequences and is a set of entries. */
  datatype ListState = ListState(lines: map<nat, string>, entries: set<string>)

  const ABSENT := ListState(map[], {})

  datatype Op =
    | RemoveLine(sequence: nat)
    | AddLine(sequence: nat, text: string)
    | RemoveEntry(text: string)
    | AddEntry(text: string)
    | RemoveList

  function Step(st: ListState, op: Op): ListState {
    match op
    case RemoveLine(s) => st.(lines := st.lines - {s})
    case AddLine(s, t) => st.(lines := st.lines[s := t])
    case RemoveEntry(t) => st.(entries := st.entries - {t})
    case AddEntry(t) => st.(entries := st.entries + {t})
    case RemoveList => ABSENT
  }

  function Run(st: ListState, ops: seq<Op>): ListState {
    if ops == [] then st else Step(Run(st, ops[..|ops| - 1]), ops[|ops| - 1])
  }

  lemma {:induction false} RunAppend(st: ListState, a: seq<Op>, b: seq<Op>)
    ensures Run(st, a + b) == Run(Run(st, a), b)
  {
    if b == [] {
      assert a + b == a;
    } else {
      RunAppend(st, a, b[..|b| - 1]);
      assert (a + b)[..|a + b| - 1] == a + b[..|b| - 1];
    }
  }

  function RemoveOp(kind: Kind, line: Line): Op {
    if kind.Mac? then RemoveEntry(line.text) else RemoveLine(line.sequence)
  }

  function AddOp(kind: Kind, line: Line): Op {
    if kind.Mac? then AddEntry(line.text) else AddLine(line.sequence, line.text)
  }

  function RemoveOps(kind: Kind, lines: seq<Line>): (r: seq<Op>)
    ensures |r| == |lines| && forall i :: 0 <= i < |r| ==> r[i] == RemoveOp(kind, lines[i])
  {
    seq(|lines|, i requires 0 <= i < |lines| => RemoveOp(kind, lines[i]))
  }

  function AddOps(kind: Kind, lines: seq<Line>): (r: seq<Op>)
    ensures |r| == |lines| && forall i :: 0 <= i < |r| ==> r[i] == AddOp(kind, lines[i])
  {
    seq(|lines|, i requires 0 <= i < |lines| => AddOp(kind, lines[i]))
  }

  /** The rule part of the templates: removals first, then additions. */
  function Render(kind: Kind, parentRemove: bool, c: Collected): seq<Op> {
    if parentRemove then [RemoveList] else RemoveOps(kind, c.del) + AddOps(kind, c.add)
  }

  ghost function Commands(kind: Kind, parentRemove: bool, rows: Rows): seq<Op> {
    Render(kind, parentRemove, Collect(rows, parentRemove, PendingQuery(rows)))
  }

  ghost function Pushed(kind: Kind, rows: Rows, st: ListState): ListState {
    Run(st, Commands(kind, false, rows))
  }

  // ---------------------------------------------------------------------
  // Invariants of a list between pushes
  // ---------------------------------------------------------------------

  ghost predicate RowAt(rows: Rows, id: nat, s: nat, text: string) {
    id in rows && Effective(id, rows[id]) == s && rows[id].text == text
  }

  ghost predicate RowText(rows: Rows, id: nat, text: string) {
    id in rows && rows[id].text == text
  }

  /** Everything on the device comes from one of the rows `ids`. */
  ghost predicate Accounted(kind: Kind, rows: Rows, ids: set<nat>, st: ListState) {
    if kind.Mac? then
      st.lines == map[] && forall t :: t in st.entries ==> exists id :: id in ids && RowText(rows, id, t)
    else
      st.entries == {} && forall s :: s in st.lines ==> exists id :: id in ids && RowAt(rows, id, s, st.lines[s])
  }

  /** Everything on the device is represented by some row of the list. */
  ghost predicate Backed(kind: Kind, rows: Rows, st: ListState) {
    Accounted(kind, rows, rows.Keys, st)
  }

  ghost predicate OnDevice(kind: Kind, id: nat, row: RuleRow, st: ListState) {
    if kind.Mac? then row.text in st.entries
    else Effective(id, row) in st.lines && st.lines[Effective(id, row)] == row.text
  }

  /** A list is either wholly synchronized, and then on the device, or no row is. */
  ghost predicate Settled(kind: Kind, rows: Rows, st: ListState) {
    && (forall id :: id in rows ==> !rows[id].status.Skipped?)
    && (forall i, j :: i in rows && j in rows && rows[i].status.Synchronized? ==> rows[j].status.Synchronized?)
    && (forall id :: id in rows && rows[id].status.Synchronized? ==> OnDevice(kind, id, rows[id], st))
  }

  /** The device shows exactly the visible rules. */
  ghost predicate Shows(kind: Kind, rows: Rows, st: ListState) {
    && (forall id :: id in VisibleIds(rows) ==> OnDevice(kind, id, rows[id], st))
    && Accounted(kind, rows, VisibleIds(rows), st)
  }

  predicate SameRule(id: nat, a: RuleRow, b: RuleRow) {
    Effective(id, a) == Effective(id, b) && a.text == b.text
  }

  /** Statuses do not matter to what the rows account for. */
  lemma AccountedCarries(kind: Kind, rows: Rows, ids: set<nat>, st: ListState, later: Rows, laterIds: set<nat>)
    requires Accounted(kind, rows, ids, st)
    requires forall id :: id in ids && id in rows ==> id in later && id in laterIds && SameRule(id, rows[id], later[id])
    ensures Accounted(kind, later, laterIds, st)
  {
    if kind.Mac? {
      forall t | t in st.entries
        ensures exists id :: id in laterIds && RowText(later, id, t)
      {
        var id :| id in ids && RowText(rows, id, t);
        assert id in laterIds && RowText(later, id, t);
      }
    } else {
      forall s | s in st.lines
        ensures exists id :: id in laterIds && RowAt(later, id, s, st.lines[s])
      {
        var id :| id in ids && RowAt(rows, id, s, st.lines[s]);
        assert id in laterIds && RowAt(later, id, s, st.lines[s]);
      }
    }
  }

  /** Of the rows awaiting deletion under one sequence, the oldest. */
  predicate FirstDeleted(rows: Rows, id: nat) {
    && id in rows && rows[id].status.PendingDelete?
    && forall other :: other in rows && rows[other].status.PendingDelete? && SequenceOf(rows, other) == SequenceOf(rows, id) ==>
      id <= other
  }

  ghost predicate FirstDeletedText(rows: Rows, text: string) {
    exists id :: FirstDeleted(rows, id) && rows[id].text == text
  }

  /** What decides, before a push, whether it can show the visible rules: for
      a numbered list no two different visible rules share an effective
      sequence; for a MAC list every rule awaiting deletion is visible again
      or has the text of the oldest one awaiting deletion under some sequence. */
  ghost predicate Renderable(kind: Kind, rows: Rows) {
    if kind.Mac? then
      forall id :: id in rows && rows[id].status.PendingDelete? ==>
        (exists v :: v in VisibleIds(rows) && RowText(rows, v, rows[id].text)) || FirstDeletedText(rows, rows[id].text)
    else
      forall i, j :: i in VisibleIds(rows) && j in VisibleIds(rows) && SequenceOf(rows, i) == SequenceOf(rows, j) ==>
        rows[i].text == rows[j].text
  }

  // ---------------------------------------------------------------------
  // Effect of removals and additions
  // ---------------------------------------------------------------------

  lemma {:induction false} RemovalsEffect(kind: Kind, st: ListState, del: seq<Line>)
    ensures var r := Run(st, RemoveOps(kind, del));
      if kind.Mac? then
        r.lines == st.lines && forall t :: t in r.entries <==> t in st.entries && !HasText(del, t)
      else
        && r.entries == st.entries
        && (forall s :: s in r.lines <==> s in st.lines && !Numbers(del, s))
        && (forall s :: s in r.lines ==> r.lines[s] == st.lines[s])
  {
    if del != [] {
      var n := |del| - 1;
      RemovalsEffect(kind, st, del[..n]);
      assert RemoveOps(kind, del)[..n] == RemoveOps(kind, del[..n]);
      assert forall l :: l in del <==> l in del[..n] || l == del[n];
    }
  }

  ghost predicate HasText(lines: seq<Line>, t: string) {
    exists l :: l in lines && l.text == t
  }

  lemma {:induction false} AdditionsEffect(kind: Kind, st: ListState, add: seq<Line>)
    ensures var r := Run(st, AddOps(kind, add));
      if kind.Mac? then
        r.lines == st.lines && forall t :: t in r.entries <==> t in st.entries || HasText(add, t)
      else
        && r.entries == st.entries
        && (forall s :: s in r.lines <==> s in st.lines || Numbers(add, s))
        && (forall s :: s in r.lines ==> if Numbers(add, s) then Line(s, r.lines[s]) in add else r.lines[s] == st.lines[s])
  {
    if add != [] {
      var n := |add| - 1;
      AdditionsEffect(kind, st, add[..n]);
      assert AddOps(kind, add)[..n] == AddOps(kind, add[..n]);
      assert forall l :: l in add <==> l in add[..n] || l == add[n];
    }
  }

  ghost predicate LineFrom(rows: Rows, status: SyncStatus, l: Line) {
    exists id :: id in rows && rows[id].status == status && LineOf(rows, id) == l
  }

  /** The two halves of a push, by the rows they come from. */
  lemma CollectedLines(rows: Rows)
    ensures var c := Collect(rows, false, PendingQuery(rows));
      && (forall l :: l in c.add <==> LineFrom(rows, PendingApply, l))
      && (forall l :: l in c.del ==> LineFrom(rows, PendingDelete, l))
  {
    TrackedIds(rows, false);
    var c := Collect(rows, false, PendingQuery(rows));
    FirstOfSequenceCovers(rows, c.trackDel);
    forall l | LineFrom(rows, PendingApply, l)
      ensures l in c.add
    {
      var id :| id in rows && rows[id].status == PendingApply && LineOf(rows, id) == l;
      assert id in PendingIds(rows);
      LineListed(rows, c.trackAdd, id);
    }
    forall l | l in c.add
      ensures LineFrom(rows, PendingApply, l)
    {
      var k :| 0 <= k < |c.add| && c.add[k] == l;
      assert c.trackAdd[k] in c.trackAdd;
    }
    forall l | l in c.del
      ensures LineFrom(rows, PendingDelete, l)
    {
      var k :| 0 <= k < |c.del| && c.del[k] == l;
      assert FirstOfSequence(rows, c.trackDel)[k] in c.trackDel;
    }
  }

  lemma DeletionNumbered(rows: Rows, id: nat)
    requires id in rows && rows[id].status.PendingDelete?
    ensures Numbers(Collect(rows, false, PendingQuery(rows)).del, SequenceOf(rows, id))
  {
    TrackedIds(rows, false);
    assert id in PendingIds(rows);
    DeletedCovered(rows, false, id);
  }

  predicate InKeyOrder(rows: Rows, ids: seq<nat>) {
    forall i, j :: 0 <= i < j < |ids| ==> Before(Keys(rows), ids[i], ids[j])
  }

  lemma {:induction false} SelectKeepsOrder(rows: Rows, parentRemove: bool, setup: bool, ids: seq<nat>)
    requires InKeyOrder(rows, ids)
    ensures InKeyOrder(rows, Select(rows, parentRemove, setup, ids))
  {
    if ids != [] {
      var n := |ids| - 1;
      SelectKeepsOrder(rows, parentRemove, setup, ids[..n]);
      SelectKeepsExactly(rows, parentRemove, setup, ids[..n]);
      assert forall x :: x in ids[..n] ==> Before(Keys(rows), x, ids[n]);
    }
  }

  /** In query order the first row of a sequence is the one with the least id. */
  lemma {:induction false} FirstIsLeast(rows: Rows, ids: seq<nat>)
    requires InKeyOrder(rows, ids) && forall x :: x in ids ==> x in rows
    ensures forall y :: y in FirstOfSequence(rows, ids) <==>
      y in ids && forall z :: z in ids && SequenceOf(rows, z) == SequenceOf(rows, y) ==> y <= z
  {
    if ids != [] {
      var n, last := |ids| - 1, ids[|ids| - 1];
      assert ids == ids[..n] + [last];
      FirstIsLeast(rows, ids[..n]);
      FirstOfSequenceCovers(rows, ids[..n]);
      forall z | z in ids[..n]
        ensures Before(Keys(rows), z, last)
        ensures SequenceOf(rows, z) == SequenceOf(rows, last) ==> z < last
      {
      }
      if HasSequence(rows, ids[..n], SequenceOf(rows, last)) {
        var z :| z in ids[..n] && SequenceOf(rows, z) == SequenceOf(rows, last);
        assert z in ids && z < last;
      }
    }
  }

  /** The texts rendered for removal are those of the oldest deleted rows. */
  lemma DeletedTexts(rows: Rows, text: string)
    ensures HasText(Collect(rows, false, PendingQuery(rows)).del, text) <==> FirstDeletedText(rows, text)
  {
    var c := Collect(rows, false, PendingQuery(rows));
    TrackedIds(rows, false);
    SelectKeepsOrder(rows, false, false, PendingQuery(rows));
    FirstIsLeast(rows, c.trackDel);
    var firsts := FirstOfSequence(rows, c.trackDel);
    forall y
      ensures y in firsts <==> FirstDeleted(rows, y)
    {
      assert forall z :: z in c.trackDel <==> z in rows && rows[z].status.PendingDelete?;
    }
    if HasText(c.del, text) {
      var k :| 0 <= k < |c.del| && c.del[k].text == text;
      assert firsts[k] in firsts && FirstDeleted(rows, firsts[k]);
    }
    if FirstDeletedText(rows, text) {
      var y :| FirstDeleted(rows, y) && rows[y].text == text;
      LineListed(rows, firsts, y);
    }
  }

  /** The device after a whole push, line by line and entry by entry. */
  lemma PushEffect(kind: Kind, rows: Rows, st: ListState)
    ensures var c := Collect(rows, false, PendingQuery(rows));
      var r := Pushed(kind, rows, st);
      if kind.Mac? then
        r.lines == st.lines
        && forall t :: t in r.entries <==> (t in st.entries && !HasText(c.del, t)) || HasText(c.add, t)
      else
        && r.entries == st.entries
        && (forall s :: s in r.lines <==> (s in st.lines && !Numbers(c.del, s)) || Numbers(c.add, s))
        && (forall s :: s in r.lines ==> if Numbers(c.add, s) then Line(s, r.lines[s]) in c.add else r.lines[s] == st.lines[s])
  {
    var c := Collect(rows, false, PendingQuery(rows));
    RunAppend(st, RemoveOps(kind, c.del), AddOps(kind, c.add));
    RemovalsEffect(kind, st, c.del);
    AdditionsEffect(kind, Run(st, RemoveOps(kind, c.del)), c.add);
  }

  lemma PendingLine(rows: Rows, id: nat)
    requires id in rows
    ensures rows[id].status.PendingApply? ==>
      var c := Collect(rows, false, PendingQuery(rows));
      LineOf(rows, id) in c.add && Numbers(c.add, SequenceOf(rows, id)) && HasText(c.add, rows[id].text)
  {
    CollectedLines(rows);
    if rows[id].status.PendingApply? {
      assert LineFrom(rows, PendingApply, LineOf(rows, id));
    }
  }

  /** A push of a renderable list leaves the device showing exactly the visible rules. */
  lemma PushShows(kind: Kind, rows: Rows, st: ListState)
    requires Backed(kind, rows, st) && Settled(kind, rows, st) && Renderable(kind, rows)
    ensures Shows(kind, rows, Pushed(kind, rows, st))
  {
    var c := Collect(rows, false, PendingQuery(rows));
    var r := Pushed(kind, rows, st);
    PushEffect(kind, rows, st);
    CollectedLines(rows);
    forall id | id in VisibleIds(rows)
      ensures OnDevice(kind, id, rows[id], r)
    {
      PendingLine(rows, id);
      if rows[id].status.Synchronized? {
        assert forall j :: j in rows ==> rows[j].status.Synchronized?;
      } else if !kind.Mac? {
        AddedLineText(rows, SequenceOf(rows, id), r.lines[SequenceOf(rows, id)]);
      }
    }
    if kind.Mac? {
      forall t | t in r.entries
        ensures exists id :: id in VisibleIds(rows) && RowText(rows, id, t)
      {
        PushedEntryIsVisible(rows, st, t);
      }
    } else {
      forall s | s in r.lines
        ensures exists id :: id in VisibleIds(rows) && RowAt(rows, id, s, r.lines[s])
      {
        if Numbers(c.add, s) {
          AddedLineText(rows, s, r.lines[s]);
        } else {
          var id :| id in rows.Keys && RowAt(rows, id, s, st.lines[s]);
          if rows[id].status.PendingDelete? { DeletionNumbered(rows, id); }
          assert id in VisibleIds(rows);
        }
      }
    }
  }

  lemma AddedLineText(rows: Rows, s: nat, text: string)
    requires Line(s, text) in Collect(rows, false, PendingQuery(rows)).add
    ensures exists id :: id in VisibleIds(rows) && RowAt(rows, id, s, text)
  {
    CollectedLines(rows);
    assert LineFrom(rows, PendingApply, Line(s, text));
    var id :| id in rows && rows[id].status == PendingApply && LineOf(rows, id) == Line(s, text);
    assert id in VisibleIds(rows) && RowAt(rows, id, s, text);
  }

  lemma PushedEntryIsVisible(rows: Rows, st: ListState, t: string)
    requires Backed(Mac, rows, st) && Renderable(Mac, rows)
    requires t in Pushed(Mac, rows, st).entries
    ensures exists id :: id in VisibleIds(rows) && RowText(rows, id, t)
  {
    var c := Collect(rows, false, PendingQuery(rows));
    PushEffect(Mac, rows, st);
    CollectedLines(rows);
    if HasText(c.add, t) {
      var l :| l in c.add && l.text == t;
      AddedLineText(rows, l.sequence, l.text);
      var id :| id in VisibleIds(rows) && RowAt(rows, id, l.sequence, l.text);
      assert RowText(rows, id, t);
    } else {
      var id :| id in rows.Keys && RowText(rows, id, t);
      DeletedTexts(rows, t);
      if !rows[id].status.PendingDelete? {
        assert id in VisibleIds(rows);
      }
    }
  }

  ghost predicate AllPending(rows: Rows) {
    forall id :: id in rows ==> rows[id].status.Pending()
  }

  /** For a list whose rules were all just replaced, being renderable is not
      only enough but needed: otherwise some device that the rows account for
      is left showing something else. */
  lemma PushShowsIff(kind: Kind, rows: Rows)
    requires AllPending(rows)
    ensures Renderable(kind, rows)
        <==> forall st :: Backed(kind, rows, st) ==> Shows(kind, rows, Pushed(kind, rows, st))
  {
    if Renderable(kind, rows) {
      forall st | Backed(kind, rows, st)
        ensures Shows(kind, rows, Pushed(kind, rows, st))
      {
        PushShows(kind, rows, st);
      }
    } else if kind.Mac? {
      var id :| id in rows && rows[id].status.PendingDelete?
        && !(exists v :: v in VisibleIds(rows) && RowText(rows, v, rows[id].text))
        && !FirstDeletedText(rows, rows[id].text);
      var st := ListState(map[], {rows[id].text});
      assert RowText(rows, id, rows[id].text);
      assert Backed(kind, rows, st);
      PushEffect(kind, rows, st);
      DeletedTexts(rows, rows[id].text);
      assert rows[id].text in Pushed(kind, rows, st).entries;
      assert !Shows(kind, rows, Pushed(kind, rows, st));
    } else {
      var i, j :| i in VisibleIds(rows) && j in VisibleIds(rows)
        && SequenceOf(rows, i) == SequenceOf(rows, j) && rows[i].text != rows[j].text;
      assert Backed(kind, rows, ABSENT);
      var r := Pushed(kind, rows, ABSENT);
      assert !(OnDevice(kind, i, rows[i], r) && OnDevice(kind, j, rows[j], r));
      assert !Shows(kind, rows, r);
    }
  }

  /** A numbered addition never lands on a different rule, so a device that
      refuses duplicate sequence numbers accepts the whole push. */
  lemma AdditionsNeverOverwrite(kind: Kind, rows: Rows, st: ListState, k: nat)
    requires !kind.Mac? && Backed(kind, rows, st) && Renderable(kind, rows)
    requires forall id :: id in rows ==> !rows[id].status.Skipped?
    requires k < |Commands(kind, false, rows)| && Commands(kind, false, rows)[k].AddLine?
    ensures var op := Commands(kind, false, rows)[k];
      var before := Run(st, Commands(kind, false, rows)[..k]);
      op.sequence in before.lines ==> before.lines[op.sequence] == op.text
  {
    var c := Collect(rows, false, PendingQuery(rows));
    var ops := Commands(kind, false, rows);
    var n := |c.del|;
    assert n <= k;
    var s, t := ops[k].sequence, ops[k].text;
    assert c.add[k - n] == Line(s, t);
    var done := c.add[..k - n];
    assert ops[..k] == RemoveOps(kind, c.del) + AddOps(kind, done);
    RunAppend(st, RemoveOps(kind, c.del), AddOps(kind, done));
    RemovalsEffect(kind, st, c.del);
    AdditionsEffect(kind, Run(st, RemoveOps(kind, c.del)), done);
    CollectedLines(rows);
    AddedLineText(rows, s, t);
    var v :| v in VisibleIds(rows) && RowAt(rows, v, s, t);
    var before := Run(st, ops[..k]);
    if s in before.lines {
      if Numbers(done, s) {
        assert Line(s, before.lines[s]) in c.add;
        AddedLineText(rows, s, before.lines[s]);
      } else {
        var id :| id in rows.Keys && RowAt(rows, id, s, st.lines[s]);
        if rows[id].status.PendingDelete? { DeletionNumbered(rows, id); }
        assert id in VisibleIds(rows);
      }
    }
  }

  /** The commands a list may receive: none while it holds a synchronized
      rule, and additions only for rules it has. */
  ghost predicate Legitimate(kind: Kind, rows: Rows, op: Op) {
    && (forall id :: id in rows ==> !rows[id].status.Synchronized?)
    && match op {
      case RemoveLine(_) => !kind.Mac?
      case RemoveEntry(_) => kind.Mac?
      case AddLine(s, t) => !kind.Mac? && exists id :: id in rows && RowAt(rows, id, s, t)
      case AddEntry(t) => kind.Mac? && exists id :: id in rows && RowText(rows, id, t)
      case RemoveList => true
    }
  }

  lemma LegitimateKeeps(kind: Kind, rows: Rows, st: ListState, op: Op)
    requires Backed(kind, rows, st) && Settled(kind, rows, st) && Legitimate(kind, rows, op)
    ensures Backed(kind, rows, Step(st, op)) && Settled(kind, rows, Step(st, op))
  {
  }

  ghost predicate Rendered(kind: Kind, c: Collected, op: Op) {
    (exists l :: l in c.del && op == RemoveOp(kind, l)) || (exists l :: l in c.add && op == AddOp(kind, l))
  }

  lemma RenderedFrom(kind: Kind, c: Collected, op: Op)
    requires op in Render(kind, false, c)
    ensures Rendered(kind, c, op)
  {
    var ops := Render(kind, false, c);
    var k :| 0 <= k < |ops| && ops[k] == op;
    if k < |c.del| {
      assert c.del[k] in c.del && op == RemoveOp(kind, c.del[k]);
    } else {
      assert c.add[k - |c.del|] in c.add && op == AddOp(kind, c.add[k - |c.del|]);
    }
  }

  lemma CommandsLegitimate(kind: Kind, parentRemove: bool, rows: Rows, st: ListState)
    requires Settled(kind, rows, st)
    requires parentRemove ==> forall id :: id in rows ==> rows[id].status.PendingDelete?
    ensures forall op :: op in Commands(kind, parentRemove, rows) ==> Legitimate(kind, rows, op)
  {
    if !parentRemove {
      forall op | op in Commands(kind, false, rows)
        ensures Legitimate(kind, rows, op)
      {
        CommandLegitimate(kind, rows, st, Collect(rows, false, PendingQuery(rows)), op);
      }
    }
  }

  lemma CommandLegitimate(kind: Kind, rows: Rows, st: ListState, c: Collected, op: Op)
    requires Settled(kind, rows, st) && c == Collect(rows, false, PendingQuery(rows)) && op in Render(kind, false, c)
    ensures Legitimate(kind, rows, op)
  {
    RenderedFrom(kind, c, op);
    if l :| l in c.del && op == RemoveOp(kind, l) {
      RemovalLegitimate(kind, rows, st, l);
    } else {
      var l :| l in c.add && op == AddOp(kind, l);
      AdditionLegitimate(kind, rows, st, l);
    }
  }

  lemma RemovalLegitimate(kind: Kind, rows: Rows, st: ListState, l: Line)
    requires Settled(kind, rows, st) && l in Collect(rows, false, PendingQuery(rows)).del
    ensures Legitimate(kind, rows, RemoveOp(kind, l))
  {
    CollectedLines(rows);
    assert LineFrom(rows, PendingDelete, l);
  }

  lemma AdditionLegitimate(kind: Kind, rows: Rows, st: ListState, l: Line)
    requires Settled(kind, rows, st) && l in Collect(rows, false, PendingQuery(rows)).add
    ensures Legitimate(kind, rows, AddOp(kind, l))
  {
    CollectedLines(rows);
    assert LineFrom(rows, PendingApply, l);
    var id :| id in rows && rows[id].status == PendingApply && LineOf(rows, id) == l;
    assert RowAt(rows, id, l.sequence, l.text) && RowText(rows, id, l.text);
  }

  /** Any of a push's commands leave nothing on the device that the rows do not
      account for, and disturb no synchronized rule. */
  lemma {:induction false} PartialPushKeeps(kind: Kind, rows: Rows, st: ListState, ops: seq<Op>)
    requires Backed(kind, rows, st) && Settled(kind, rows, st)
    requires forall op :: op in ops ==> Legitimate(kind, rows, op)
    ensures Backed(kind, rows, Run(st, ops)) && Settled(kind, rows, Run(st, ops))
  {
    if ops != [] {
      PartialPushKeeps(kind, rows, st, ops[..|ops| - 1]);
      LegitimateKeeps(kind, rows, Run(st, ops[..|ops| - 1]), ops[|ops| - 1]);
    }
  }

  /** What a successful push leaves of the rows. */
  function Advanced(rows: Rows): (r: Rows)
    ensures r.Keys == VisibleIds(rows)
    ensures forall id :: id in r ==> SameRule(id, rows[id], r[id]) && !r[id].status.Pending()
    ensures forall id :: id in r && r[id].status.Skipped? ==> rows[id].status.Skipped?
  {
    map id | id in rows && !rows[id].status.PendingDelete? ::
      if rows[id].status.PendingApply? then rows[id].(status := Synchronized) else rows[id]
  }

  /** Showing the visible rules is exactly what the next push relies on. */
  lemma AdvanceSettles(kind: Kind, rows: Rows, st: ListState)
    requires Shows(kind, rows, st)
    requires forall id :: id in rows ==> !rows[id].status.Skipped?
    ensures Shows(kind, Advanced(rows), st)
    ensures Backed(kind, Advanced(rows), st) && Settled(kind, Advanced(rows), st)
    ensures PendingIds(Advanced(rows)) == {}
  {
    var after := Advanced(rows);
    assert VisibleIds(after) == VisibleIds(rows) == after.Keys;
    AccountedCarries(kind, rows, VisibleIds(rows), st, after, after.Keys);
    forall id | id in after
      ensures OnDevice(kind, id, after[id], st) && after[id].status.Synchronized?
    {
      assert id in VisibleIds(rows) && SameRule(id, rows[id], after[id]);
    }
  }

  /** What a push leaves on a MAC list's device: an entry stays unless it is the
      oldest deleted text of its sequence, and is there if a rule adds it. */
  lemma MacEntryAfterPush(rows: Rows, st: ListState, text: string)
    ensures text in Pushed(Mac, rows, st).entries <==>
            || (text in st.entries && !FirstDeletedText(rows, text))
            || (exists id :: RowText(rows, id, text) && rows[id].status.PendingApply?)
  {
    var c := Collect(rows, false, PendingQuery(rows));
    PushEffect(Mac, rows, st);
    DeletedTexts(rows, text);
    CollectedLines(rows);
    if HasText(c.add, text) {
      var l :| l in c.add && l.text == text;
      assert LineFrom(rows, PendingApply, l);
      var id :| id in rows && rows[id].status == PendingApply && LineOf(rows, id) == l;
      assert RowText(rows, id, text);
    }
    if id :| RowText(rows, id, text) && rows[id].status.PendingApply? {
      PendingLine(rows, id);
    }
  }

  /** The rows of one rule that was edited again and again: `last` is the version to
      apply, every other one awaits deletion, and `first` is the oldest. */
  predicate Versions(rows: Rows, s: nat, first: nat, last: nat) {
    && s != 0 && first < last && first in rows && last in rows
    && forall id :: id in rows ==>
      && rows[id].sequence == Some(s) && first <= id
      && rows[id].status == if id == last then PendingApply else PendingDelete
  }

  /** A push of such a MAC rule takes the oldest text off the device and no other. */
  lemma VersionsPushed(rows: Rows, s: nat, first: nat, last: nat, st: ListState)
    requires Versions(rows, s, first, last)
    ensures Pushed(Mac, rows, st) == ListState(st.lines, st.entries - {rows[first].text} + {rows[last].text})
  {
    var r := Pushed(Mac, rows, st);
    PushEffect(Mac, rows, st);
    assert FirstDeleted(rows, first);
    assert forall id :: FirstDeleted(rows, id) ==> id == first;
    forall t
      ensures t in r.entries <==> (t in st.entries && t != rows[first].text) || t == rows[last].text
    {
      MacEntryAfterPush(rows, st, t);
      assert RowText(rows, last, rows[last].text);
    }
  }

  /** A version that a failed push put on the device, while it was to replace the
      one before, is left there by the push of the next version. */
  lemma SecondMacVersionStays(two: Rows, three: Rows, s: nat, i: nat, st: ListState)
    requires Versions(two, s, i, i + 1) && Versions(three, s, i, i + 2) && st == ListState(map[], {two[i].text})
    requires three.Keys == {i, i + 1, i + 2} && three[i].text == two[i].text && three[i + 1].text == two[i + 1].text
    requires two[i].text != two[i + 1].text && two[i + 1].text != three[i + 2].text
    ensures var failed := Pushed(Mac, two, st);
      && failed.entries == {two[i + 1].text}
      && Pushed(Mac, three, failed).entries == {two[i + 1].text, three[i + 2].text}
      && !Shows(Mac, three, Pushed(Mac, three, failed))
  {
    VersionsPushed(two, s, i, i + 1, st);
    VersionsPushed(three, s, i, i + 2, Pushed(Mac, two, st));
    assert forall v :: v in VisibleIds(three) ==> v == i + 2;
  }
}
