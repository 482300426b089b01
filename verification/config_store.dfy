// Configuration backups as stored: commit objects that point to their parents, a
// head, and a working file. The object refines the append-only list of
// snapshots in ConfigHistory.

module ConfigStore {
  import opened Common
  import opened ConfigHistory

  datatype Commit = Commit(tree: string, parents: seq<CommitId>, time: int, message: Message)

  function Hash(c: Commit): CommitId {
    CommitId(c.tree, c.parents, c.time, c.message)
  }

  /** A commit is stored under the id that it hashes to. */
  ghost predicate Holds(objects: map<CommitId, Commit>, id: CommitId) {
    id in objects && objects[id] == Commit(id.content, id.parents, id.time, id.message)
  }

  /** What callers are told about a commit; its id carries time and message. */
  datatype Payload = Payload(id: CommitId, changed: bool)

  datatype Result<T> = Ok(value: T) | Err(error: Error)

  /** `content` belongs to the commit with id `id`. */
  datatype Version = Version(id: CommitId, content: string)

  datatype Comparison = Comparison(changed: bool, versionSpan: nat)

  /** At least one and at most 500 entries are listed. */
  function Bounded(limit: int): nat {
    if limit < 1 then 1 else if limit > 500 then 500 else limit
  }

  function Distance(i: nat, j: nat): nat {
    if i >= j then i - j else j - i
  }

  class ConfigRepository {
    var initialized: bool
    var objects: map<CommitId, Commit>
    var head: Option<CommitId>
    var latest: Option<string>
    ghost var history: seq<Snapshot>

    constructor ()
      ensures Valid() && history == []
    {
      initialized, objects, head, latest, history := false, map[], None, None, [];
    }

    /** Every snapshot is stored under its id; the head is the newest one. */
    ghost predicate Valid()
      reads this
    {
      && head == HeadOf(history)
      && (!initialized ==> history == [])
      && (forall n :: 1 <= n <= |history| ==> Holds(objects, IdAt(history, n)))
    }

    /** The repository's directory is removed. */
    method Erase()
      modifies this
      ensures Valid() && history == [] && !initialized && latest == None
    {
      initialized, objects, head, latest, history := false, map[], None, None, [];
    }

    method HasCommits() returns (some: bool)
      requires Valid()
      ensures some <==> history != []
    {
      some := initialized && head.Some?;
    }

    /** New content against the head; a first snapshot counts as changed. */
    method IsChanged(content: string) returns (changed: bool)
      requires Valid()
      ensures changed <==> history == [] || history[|history| - 1].content != content
    {
      if head.None? {
        return true;
      }
      assert Holds(objects, IdAt(history, |history|));
      changed := objects[head.value].tree != content;
    }

    /** Append a snapshot. The process may end after `writes` of the three writes:
        the working file, the commit object, the head. The history is then the old
        one, unless the head was written. */
    method CommitSnapshot(text: string, message: Message, time: int, writes: nat) returns (result: Result<Payload>)
      requires Valid()
      modifies this
      ensures Valid()
      ensures Blank(text) ==> result == Err(EmptyOutput) && latest == old(latest) && history == old(history)
      ensures !Blank(text) && writes < 3 ==> history == old(history)
      ensures !Blank(text) && writes >= 3 ==>
        && history == old(history) + [Snapshot(Normalized(text), time, message)] && latest == Some(Normalized(text))
        && result == Ok(Payload(IdAt(history, |history|), ChangedAt(history, |history|)))
    {
      if Blank(text) {
        return Err(EmptyOutput);
      }
      var content := Normalized(text);
      initialized := true;
      var changed := IsChanged(content);
      var commit := Commit(content, if head.Some? then [head.value] else [], time, message);
      result := Ok(Payload(Hash(commit), changed));
      if writes >= 1 {
        latest := Some(content);
      }
      ghost var longer := history + [Snapshot(content, time, message)];
      AppendedStored(history, Snapshot(content, time, message), commit, objects);
      if writes >= 2 {
        objects := objects[Hash(commit) := commit];
      }
      if writes >= 3 {
        head := Some(Hash(commit));
        history := longer;
      }
    }

    /** Ids from the head backwards, at most as many as asked for. */
    method Walk(limit: Option<nat>) returns (ids: seq<CommitId>)
      requires Valid()
      ensures |ids| == if limit.None? || |history| <= limit.value then |history| else limit.value
      ensures forall i :: 0 <= i < |ids| ==> ids[i] == IdAt(history, |history| - i)
      ensures forall i :: 0 <= i < |ids| ==> ids[i] in objects
    {
      ids := [];
      var next := head;
      while next.Some? && (limit.Some? ==> |ids| < limit.value)
        invariant |ids| <= |history| && (limit.Some? ==> |ids| <= limit.value)
        invariant next == if |ids| == |history| then None else Some(IdAt(history, |history| - |ids|))
        invariant forall i :: 0 <= i < |ids| ==> ids[i] == IdAt(history, |history| - i) && ids[i] in objects
        decreases |history| - |ids|
      {
        assert Holds(objects, IdAt(history, |history| - |ids|));
        var commit := objects[next.value];
        ids := ids + [next.value];
        next := if commit.parents == [] then None else Some(commit.parents[0]);
      }
    }

    /** A commit against its parent, as shown in the history. */
    method CommitChanged(id: CommitId, ghost n: nat) returns (changed: bool)
      requires Valid() && 1 <= n <= |history| && id == IdAt(history, n)
      ensures changed <==> ChangedAt(history, n)
      ensures changed <==> n == 1 || history[n - 1].content != history[n - 2].content
    {
      assert Holds(objects, IdAt(history, n));
      if objects[id].parents == [] {
        return true;
      }
      assert Holds(objects, IdAt(history, n - 1));
      var parent := objects[id].parents[0];
      changed := objects[id].tree != objects[parent].tree;
    }

    /** The newest snapshots, newest first, with the flags they were stored with. */
    method ListCommits(limit: int) returns (payloads: seq<Payload>)
      requires Valid()
      ensures var most: nat := if limit < 1 then 1 else if limit > 500 then 500 else limit;
        |payloads| == if |history| <= most then |history| else most
      ensures forall i :: 0 <= i < |payloads| ==>
        var n := |history| - i;
        payloads[i] == Payload(IdAt(history, n), ChangedAt(history, n))
    {
      payloads := [];
      if !initialized {
        return;
      }
      var ids := Walk(Some(Bounded(limit)));
      for i := 0 to |ids|
        invariant |payloads| == i
        invariant forall k :: 0 <= k < i ==>
          payloads[k] == Payload(IdAt(history, |history| - k), ChangedAt(history, |history| - k))
      {
        var changed := CommitChanged(ids[i], |history| - i);
        payloads := payloads + [Payload(ids[i], changed)];
      }
    }

    /** Only a full id that names a commit of this history is resolved; `None`
        stands for text that is not a full id. */
    method ReachableCommit(wanted: Option<CommitId>) returns (found: Result<CommitId>)
      requires Valid()
      ensures found == Resolved(history, wanted)
    {
      if wanted.None? {
        return Err(BadId);
      }
      if head.None? {
        return Err(NoCommits);
      }
      var ids := Walk(None);
      for i := 0 to |ids|
        invariant forall k :: 0 <= k < i ==> ids[k] != wanted.value
      {
        if ids[i] == wanted.value {
          assert At(history, |history| - i, wanted);
          return Ok(ids[i]);
        }
      }
      assert forall n :: 1 <= n <= |history| ==> IdAt(history, n) == ids[|history| - n];
      return Err(NotInHistory);
    }

    method ReadCommit(wanted: Option<CommitId>) returns (version: Result<Version>)
      requires Valid()
      ensures !initialized ==> version == Err(NoRepository)
      ensures initialized ==> version == Read(history, wanted)
    {
      if !initialized {
        return Err(NoRepository);
      }
      var found := ReachableCommit(wanted);
      if found.Err? {
        return Err(found.error);
      }
      ghost var n: nat :| At(history, n, wanted);
      ReadsBack(history, history, n);
      assert Holds(objects, IdAt(history, n));
      version := Ok(Version(found.value, objects[found.value].tree));
    }

    method ReadLatest() returns (version: Result<Version>)
      requires Valid()
      ensures !initialized ==> version == Err(NoRepository)
      ensures initialized && history == [] ==> version == Err(NoCommits)
      ensures initialized && history != [] ==>
        version == Ok(Version(IdAt(history, |history|), history[|history| - 1].content))
    {
      if !initialized {
        return Err(NoRepository);
      }
      if head.None? {
        return Err(NoCommits);
      }
      ReadsBack(history, history, |history|);
      version := ReadCommit(head);
    }

    /** How many snapshots lie from one to the other, both ends included. */
    method VersionSpan(base: CommitId, target: CommitId, ghost m: nat, ghost n: nat) returns (span: nat)
      requires Valid() && At(history, m, Some(base)) && At(history, n, Some(target))
      ensures span == Distance(m, n) + 1
    {
      var ids := Walk(None);
      assert ids[|history| - m] == base && ids[|history| - n] == target;
      var i := IndexOf(ids, base);
      var j := IndexOf(ids, target);
      IdsDiffer(history, m, |history| - i);
      IdsDiffer(history, n, |history| - j);
      span := Distance(i, j) + 1;
    }

    /** Two snapshots compared; each is looked up in turn. */
    method DiffCommits(base: Option<CommitId>, target: Option<CommitId>) returns (diff: Result<Comparison>)
      requires Valid()
      ensures !initialized ==> diff == Err(NoRepository)
      ensures initialized ==> diff == Compared(history, base, target)
    {
      if !initialized {
        return Err(NoRepository);
      }
      var first := ReadCommit(base);
      if first.Err? {
        return Err(first.error);
      }
      var second := ReadCommit(target);
      if second.Err? {
        return Err(second.error);
      }
      ghost var m: nat :| At(history, m, base);
      ghost var n: nat :| At(history, n, target);
      ComparedAt(history, base, m, target, n);
      var span := VersionSpan(first.value.id, second.value.id, m, n);
      ReadsBack(history, history, m);
      ReadsBack(history, history, n);
      diff := Ok(Comparison(first.value.content != second.value.content, span));
    }

    static method IndexOf(ids: seq<CommitId>, id: CommitId) returns (i: nat)
      requires id in ids
      ensures i < |ids| && ids[i] == id && forall k :: 0 <= k < i ==> ids[k] != id
    {
      i := 0;
      while ids[i] != id
        invariant i < |ids| && forall k :: 0 <= k < i ==> ids[k] != id
        decreases |ids| - i
      {
        i := i + 1;
      }
    }
  }

  /** `wanted` is the id of the `n`-th snapshot. */
  ghost predicate At(history: seq<Snapshot>, n: nat, wanted: Option<CommitId>) {
    1 <= n <= |history| && wanted == Some(IdAt(history, n))
  }

  ghost function Resolved(history: seq<Snapshot>, wanted: Option<CommitId>): Result<CommitId> {
    if wanted.None? then Err(BadId)
    else if history == [] then Err(NoCommits)
    else if exists n: nat :: At(history, n, wanted) then Ok(wanted.value)
    else Err(NotInHistory)
  }

  ghost function Read(history: seq<Snapshot>, wanted: Option<CommitId>): Result<Version> {
    if Resolved(history, wanted).Err? then Err(Resolved(history, wanted).error)
    else
      var n: nat :| At(history, n, wanted);
      Ok(Version(wanted.value, history[n - 1].content))
  }

  ghost function Compared(history: seq<Snapshot>, base: Option<CommitId>, target: Option<CommitId>): Result<Comparison> {
    if Read(history, base).Err? then Err(Read(history, base).error)
    else if Read(history, target).Err? then Err(Read(history, target).error)
    else
      var m: nat, n: nat :| At(history, m, base) && At(history, n, target);
      Ok(Comparison(history[m - 1].content != history[n - 1].content, Distance(m, n) + 1))
  }

  /** The span is the distance of the two places in the history plus one. */
  lemma ComparedAt(history: seq<Snapshot>, base: Option<CommitId>, m: nat, target: Option<CommitId>, n: nat)
    requires At(history, m, base) && At(history, n, target)
    ensures Compared(history, base, target) ==
            Ok(Comparison(history[m - 1].content != history[n - 1].content, Distance(m, n) + 1))
  {
    forall k: nat, l: nat | At(history, k, base) && At(history, l, target)
      ensures k == m && l == n
    {
      IdsDiffer(history, k, m);
      IdsDiffer(history, l, n);
    }
  }

  /** A snapshot reads back as stored, whatever was appended to its history. */
  lemma ReadsBack(history: seq<Snapshot>, later: seq<Snapshot>, n: nat)
    requires 1 <= n <= |history| && history <= later
    ensures Read(later, Some(IdAt(history, n))) == Ok(Version(IdAt(history, n), history[n - 1].content))
  {
    var id := IdAt(history, n);
    EarlierKept(history, later, n);
    assert At(later, n, Some(id));
    forall k: nat | At(later, k, Some(id))
      ensures k == n
    {
      IdsDiffer(later, k, n);
    }
  }

  lemma AppendedId(h: seq<Snapshot>, s: Snapshot)
    ensures var longer := h + [s];
      && IdAt(longer, |longer|) == CommitId(s.content, if h == [] then [] else [IdAt(h, |h|)], s.time, s.message)
      && (forall n :: 1 <= n <= |h| ==> IdAt(longer, n) == IdAt(h, n) && IdAt(longer, n) != IdAt(longer, |longer|))
  {
    var longer := h + [s];
    forall n | 1 <= n <= |h|
      ensures IdAt(longer, n) == IdAt(h, n) && IdAt(longer, n) != IdAt(longer, |longer|)
    {
      EarlierKept(h, longer, n);
      IdsDiffer(longer, n, |longer|);
    }
  }

  /** Storing the next commit keeps all earlier ones. */
  lemma AppendedStored(h: seq<Snapshot>, s: Snapshot, commit: Commit, objects: map<CommitId, Commit>)
    requires forall n :: 1 <= n <= |h| ==> Holds(objects, IdAt(h, n))
    requires commit == Commit(s.content, if h == [] then [] else [IdAt(h, |h|)], s.time, s.message)
    ensures var longer, more := h + [s], objects[Hash(commit) := commit];
      && IdAt(longer, |longer|) == Hash(commit)
      && (forall n :: 1 <= n <= |h| ==> Holds(more, IdAt(h, n)))
      && (forall n :: 1 <= n <= |longer| ==> Holds(more, IdAt(longer, n)))
  {
    AppendedId(h, s);
    var longer, more := h + [s], objects[Hash(commit) := commit];
    forall n | 1 <= n <= |longer|
      ensures Holds(more, IdAt(longer, n))
    {
      if n < |longer| {
        assert Holds(objects, IdAt(h, n)) && IdAt(longer, n) == IdAt(h, n);
      }
    }
  }

  /** The backups of one host directory: its repository, and old files beside it. */
  class ConfigBackupService {
    const repository: ConfigRepository
    var legacy: map<string, Legacy>
    var migrated: set<string>

    constructor (legacy: map<string, Legacy>)
      ensures Valid() && fresh(repository) && View() == Archive([], legacy, {})
    {
      repository := new ConfigRepository();
      this.legacy, migrated := legacy, {};
    }

    ghost predicate Valid()
      reads this, repository
    {
      repository.Valid()
    }

    ghost function View(): Archive
      reads this, repository
    {
      Archive(repository.history, legacy, migrated)
    }

    method FindLegacy(host: string) returns (name: Option<string>)
      ensures name == FirstPresent(Candidates(host), legacy)
    {
      var names := Candidates(host);
      for i := 0 to |names|
        invariant FirstPresent(names, legacy) == FirstPresent(names[i..], legacy)
      {
        if names[i] in legacy {
          return Some(names[i]);
        }
      }
      return None;
    }

    /** Import one old file into an empty history and keep it under a new name. */
    method MigrateLegacy(host: string) returns (failure: Option<Error>)
      requires Valid()
      modifies this, repository
      ensures Valid() && (View(), failure) == Migrate(old(View()), host)
    {
      var some := repository.HasCommits();
      if some {
        return None;
      }
      var name := FindLegacy(host);
      if name.None? {
        return None;
      }
      var file := legacy[name.value];
      var result := repository.CommitSnapshot(file.text, Imported, file.time, 3);
      if result.Err? {
        return Some(result.error);
      }
      assert repository.history == [Snapshot(Normalized(file.text), file.time, Imported)];
      if name.value !in migrated {
        legacy, migrated := legacy - {name.value}, migrated + {name.value};
      }
      return None;
    }

    method SaveSnapshot(host: string, content: string, time: int) returns (result: Result<Payload>)
      requires Valid()
      modifies this, repository
      ensures Valid() && View() == Save(old(View()), host, content, time).0 == After(old(View()), Store(host, content, time))
      ensures result.Ok? <==> Save(old(View()), host, content, time).1.None?
      ensures result.Ok? ==>
        var h := repository.history;
        h != [] && result.value == Payload(IdAt(h, |h|), ChangedAt(h, |h|))
    {
      var failure := MigrateLegacy(host);
      if failure.Some? {
        return Err(failure.value);
      }
      result := repository.CommitSnapshot(content, Dated, time, 3);
    }

    method ListHistory(host: string, limit: int) returns (result: Result<seq<Payload>>)
      requires Valid()
      modifies this, repository
      ensures Valid() && View() == Migrate(old(View()), host).0 == After(old(View()), Look(host))
      ensures result.Ok? <==> Migrate(old(View()), host).1.None?
      ensures result.Ok? ==>
        var h, listed, most := repository.history, result.value, if limit < 1 then 1 else if limit > 500 then 500 else limit;
        && |listed| == (if |h| <= most then |h| else most)
        && forall i :: 0 <= i < |listed| ==> listed[i] == Payload(IdAt(h, |h| - i), ChangedAt(h, |h| - i))
    {
      var failure := MigrateLegacy(host);
      if failure.Some? {
        return Err(failure.value);
      }
      var listed := repository.ListCommits(limit);
      result := Ok(listed);
    }

    method ReadHistory(host: string, wanted: Option<CommitId>) returns (result: Result<Version>)
      requires Valid()
      modifies this, repository
      ensures Valid() && View() == Migrate(old(View()), host).0
      ensures Migrate(old(View()), host).1.None? && repository.initialized ==>
        result == Read(repository.history, wanted)
    {
      var failure := MigrateLegacy(host);
      if failure.Some? {
        return Err(failure.value);
      }
      result := repository.ReadCommit(wanted);
    }

    /** Everything the host owns is removed, old files included. */
    method DeleteHostData()
      modifies this, repository
      ensures Valid() && View() == EMPTY == After(old(View()), Remove)
    {
      repository.Erase();
      legacy, migrated := map[], {};
    }
  }
}
