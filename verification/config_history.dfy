// Configuration backups of one device: what its history is, independent of how
// commits are stored, and the one-time import of a backup from before histories.

module ConfigHistory {
  import opened Common

  // ---------------------------------------------------------------------
  // Content
  // ---------------------------------------------------------------------

  /** Characters that Python counts as white space. */
  predicate Space(c: char) {
    var n := c as int;
    || 9 <= n <= 13 || 28 <= n <= 32 || n == 0x85 || n == 0xA0 || n == 0x1680 || 0x2000 <= n <= 0x200A
    || n == 0x2028 || n == 0x2029 || n == 0x202F || n == 0x205F || n == 0x3000
  }

  predicate Blank(text: string) {
    forall i :: 0 <= i < |text| ==> Space(text[i])
  }

  const SPACES := "\t\n\U{000B}\U{000C}\r \U{001C}\U{001D}\U{001E}\U{001F}\U{0085}\U{00A0}\U{1680}" +
                  "\U{2000}\U{2001}\U{2002}\U{2003}\U{2004}\U{2005}\U{2006}\U{2007}\U{2008}\U{2009}\U{200A}\U{2028}\U{2029}\U{202F}\U{205F}\U{3000}"

  /** A text is blank if it has tabs, line breaks, separators and spaces only. */
  lemma BlankText(text: string)
    ensures Blank(text) <==> forall c :: c in text ==> c in SPACES
  {
    forall c: char
      ensures Space(c) <==> c in SPACES
    {
    }
    forall i | 0 <= i < |text|
      ensures text[i] in text
    {
    }
    if Blank(text) {
      forall c | c in text
        ensures Space(c)
      {
        var i :| 0 <= i < |text| && text[i] == c;
      }
    }
  }

  /** Stored content: never blank, always ending in a line break. */
  predicate Storable(content: string) {
    !Blank(content) && content[|content| - 1] == '\n'
  }

  function Normalized(text: string): (content: string)
    requires !Blank(text)
    ensures Storable(content)
    ensures content == text <==> Storable(text)
    ensures text <= content && |content| <= |text| + 1
  {
    if text[|text| - 1] == '\n' then text
    else
      var content := text + "\n";
      var i :| 0 <= i < |text| && !Space(text[i]);
      assert content[i] == text[i];
      content
  }

  // ---------------------------------------------------------------------
  // Histories and commit ids
  // ---------------------------------------------------------------------

  /** A commit message is the date of the commit, with a prefix for an import. */
  datatype Message = Dated | Imported

  datatype Snapshot = Snapshot(content: string, time: int, message: Message)

  /** A commit id depends on everything in the commit, its parents included. */
  datatype CommitId = CommitId(content: string, parents: seq<CommitId>, time: int, message: Message)

  /** Id of the `n`-th oldest snapshot of a history. */
  function IdAt(history: seq<Snapshot>, n: nat): CommitId
    requires 1 <= n <= |history|
  {
    var s := history[n - 1];
    CommitId(s.content, if n == 1 then [] else [IdAt(history, n - 1)], s.time, s.message)
  }

  function HeadOf(history: seq<Snapshot>): Option<CommitId> {
    if history == [] then None else Some(IdAt(history, |history|))
  }

  /** Whether the `n`-th snapshot differs from the one before it. */
  predicate ChangedAt(history: seq<Snapshot>, n: nat)
    requires 1 <= n <= |history|
  {
    n == 1 || history[n - 1].content != history[n - 2].content
  }

  lemma SamePrefixIff<T>(h: seq<T>, m: nat, g: seq<T>, n: nat)
    requires 1 <= m <= |h| && 1 <= n <= |g|
    ensures h[..m] == g[..n] <==> h[m - 1] == g[n - 1] && h[..m - 1] == g[..n - 1]
  {
    assert h[..m] == h[..m - 1] + [h[m - 1]] && g[..n] == g[..n - 1] + [g[n - 1]];
    if h[..m] == g[..n] {
      assert h[..m - 1] == h[..m][..m - 1] && g[..n - 1] == g[..n][..n - 1];
      assert h[..m][m - 1] == h[m - 1] && g[..n][n - 1] == g[n - 1];
    }
  }

  /** Two commits have the same id exactly when everything up to them agrees. */
  lemma {:induction false} IdsDetermineHistory(h: seq<Snapshot>, m: nat, g: seq<Snapshot>, n: nat)
    requires 1 <= m <= |h| && 1 <= n <= |g|
    ensures IdAt(h, m) == IdAt(g, n) <==> h[..m] == g[..n]
  {
    SamePrefixIff(h, m, g, n);
    if m > 1 && n > 1 {
      IdsDetermineHistory(h, m - 1, g, n - 1);
    } else {
      assert h[..m - 1] == g[..n - 1] <==> m == n;
    }
  }

  lemma IdsDiffer(h: seq<Snapshot>, m: nat, n: nat)
    requires 1 <= m <= |h| && 1 <= n <= |h|
    ensures IdAt(h, m) == IdAt(h, n) <==> m == n
  {
    IdsDetermineHistory(h, m, h, n);
  }

  /** Later snapshots do not disturb the ids, contents or flags of earlier ones. */
  lemma EarlierKept(h: seq<Snapshot>, g: seq<Snapshot>, n: nat)
    requires h <= g && 1 <= n <= |h|
    ensures IdAt(h, n) == IdAt(g, n) && (ChangedAt(h, n) <==> ChangedAt(g, n)) && h[n - 1] == g[n - 1]
  {
    assert h[..n] == g[..n];
    IdsDetermineHistory(h, n, g, n);
  }

  // ---------------------------------------------------------------------
  // One host directory: a history and files from before it
  // ---------------------------------------------------------------------

  datatype Legacy = Legacy(text: string, time: int)

  /** `legacy` holds the files still under their old names, `migrated` the names
      whose renamed copy exists. */
  datatype Archive = Archive(history: seq<Snapshot>, legacy: map<string, Legacy>, migrated: set<string>)

  const EMPTY := Archive([], map[], {})

  datatype Error = EmptyOutput | BadId | NoRepository | NoCommits | NotInHistory

  const SUFFIX := "_running-config.txt"

  function DirectoryName(host: string): string {
    seq(|host|, i requires 0 <= i < |host| => if host[i] == ':' then '_' else host[i])
  }

  /** Old file names to look for, in order. */
  function Candidates(host: string): seq<string> {
    var safe, raw := DirectoryName(host) + SUFFIX, host + SUFFIX;
    if raw != safe then [safe, raw] else [safe]
  }

  function FirstPresent(names: seq<string>, legacy: map<string, Legacy>): (name: Option<string>)
    ensures name.Some? ==> name.value in legacy && name.value in names
    ensures name.None? ==> forall n :: n in names ==> n !in legacy
  {
    if names == [] then None else if names[0] in legacy then Some(names[0]) else FirstPresent(names[1..], legacy)
  }

  /** Import the first old file, once, into an empty history. */
  function Migrate(a: Archive, host: string): (Archive, Option<Error>) {
    var name := FirstPresent(Candidates(host), a.legacy);
    if a.history != [] || name.None? then (a, None)
    else
      var file := a.legacy[name.value];
      if Blank(file.text) then (a, Some(EmptyOutput))
      else
        var renamed := if name.value in a.migrated then a
                       else a.(legacy := a.legacy - {name.value}, migrated := a.migrated + {name.value});
        (renamed.(history := [Snapshot(Normalized(file.text), file.time, Imported)]), None)
  }

  /** Append collected output after a migration that did not fail. */
  function Save(a: Archive, host: string, content: string, time: int): (Archive, Option<Error>) {
    var (ready, failure) := Migrate(a, host);
    if failure.Some? then (ready, failure)
    else if Blank(content) then (ready, Some(EmptyOutput))
    else (ready.(history := ready.history + [Snapshot(Normalized(content), time, Dated)]), None)
  }

  /** Every reader migrates first; deletion removes the whole directory. */
  datatype Event = Store(host: string, content: string, time: int) | Look(host: string) | Remove

  function After(a: Archive, e: Event): Archive {
    match e
    case Store(host, content, time) => Save(a, host, content, time).0
    case Look(host) => Migrate(a, host).0
    case Remove => EMPTY
  }

  function Run(a: Archive, events: seq<Event>): Archive
    decreases |events|
  {
    if events == [] then a else Run(After(a, events[0]), events[1..])
  }

  predicate Keeps(events: seq<Event>) {
    forall e :: e in events ==> !e.Remove?
  }

  lemma StepAppends(a: Archive, e: Event)
    requires !e.Remove?
    ensures a.history <= After(a, e).history
  {
  }

  /** A history is append-only until it is deleted. */
  lemma {:induction false} AppendOnly(a: Archive, events: seq<Event>)
    requires Keeps(events)
    ensures a.history <= Run(a, events).history
    decreases |events|
  {
    if events != [] {
      StepAppends(a, events[0]);
      AppendOnly(After(a, events[0]), events[1..]);
    }
  }

  /** Every commit id handed out keeps naming the same content and flag. */
  lemma OldCommitsKept(a: Archive, events: seq<Event>, n: nat)
    requires Keeps(events) && 1 <= n <= |a.history|
    ensures var later := Run(a, events).history;
      && n <= |later| && IdAt(later, n) == IdAt(a.history, n) && later[n - 1] == a.history[n - 1]
      && (ChangedAt(later, n) <==> ChangedAt(a.history, n))
  {
    AppendOnly(a, events);
    EarlierKept(a.history, Run(a, events).history, n);
  }

  /** Only the oldest snapshot is an import, and every content is storable. */
  predicate WellKept(history: seq<Snapshot>) {
    && (forall i :: 0 < i < |history| ==> history[i].message.Dated?)
    && (forall i :: 0 <= i < |history| ==> Storable(history[i].content))
  }

  /** In every run an old backup is imported at most once, as the oldest commit. */
  lemma {:induction false} ImportedAtMostOnce(a: Archive, events: seq<Event>)
    requires WellKept(a.history)
    ensures WellKept(Run(a, events).history)
    decreases |events|
  {
    if events != [] {
      ImportedAtMostOnce(After(a, events[0]), events[1..]);
    }
  }

  /** The old file that an operation for `host` would import. */
  function Pending(a: Archive, host: string): Option<Legacy> {
    var name := FirstPresent(Candidates(host), a.legacy);
    if a.history == [] && name.Some? then Some(a.legacy[name.value]) else None
  }

  /** It looks for the safe name first and for the host's own name next. */
  lemma PendingFile(a: Archive, host: string)
    ensures var safe, raw := DirectoryName(host) + "_running-config.txt", host + "_running-config.txt";
      Pending(a, host) ==
        if a.history != [] then None
        else if safe in a.legacy then Some(a.legacy[safe])
        else if raw in a.legacy then Some(a.legacy[raw])
        else None
  {
    var safe, raw := DirectoryName(host) + SUFFIX, host + SUFFIX;
    assert Candidates(host) == [safe] || (Candidates(host) == [safe, raw] && Candidates(host)[1..] == [raw]);
  }

  /** An import puts the file aside under its new name, or leaves it where such a copy
      exists; other files stay. */
  lemma ImportedFile(a: Archive, host: string)
    requires Pending(a, host).Some? && !Blank(Pending(a, host).value.text)
    ensures var after := Migrate(a, host).0;
      exists name :: name in a.legacy && a.legacy[name] == Pending(a, host).value && name in after.migrated
        && after.legacy == (if name in a.migrated then a.legacy else a.legacy - {name})
        && after.migrated == a.migrated + {name}
  {
    var name := FirstPresent(Candidates(host), a.legacy).value;
    assert a.legacy[name] == Pending(a, host).value;
  }

  /** An old file present before the first operation is the oldest commit for
      good, whatever follows. */
  lemma LegacyIsOldest(a: Archive, e: Event, events: seq<Event>)
    requires !e.Remove? && Keeps(events)
    requires Pending(a, e.host).Some? && !Blank(Pending(a, e.host).value.text)
    ensures
      var file, later := Pending(a, e.host).value, Run(a, [e] + events).history;
      && later != [] && later[0] == Snapshot(Normalized(file.text), file.time, Imported)
      && later[0].content[..|file.text|] == file.text
  {
    assert ([e] + events)[1..] == events;
    AppendOnly(After(a, e), events);
    assert After(a, e).history[0].message.Imported?;
  }

  /** A blank old file stands in the way of every operation. */
  predicate Blocked(a: Archive, host: string) {
    Pending(a, host).Some? && Blank(Pending(a, host).value.text)
  }

  /** A save succeeds exactly when there is output and nothing blocks it; a failed
      save changes nothing except that it may have imported the old file. */
  lemma SaveSucceedsIff(a: Archive, host: string, content: string, time: int)
    ensures var (after, failure) := Save(a, host, content, time);
      && (failure.None? <==> !Blank(content) && !Blocked(a, host))
      && (failure.None? ==> after.history == Migrate(a, host).0.history + [Snapshot(Normalized(content), time, Dated)])
      && (failure.Some? ==> after == if Blocked(a, host) then a else Migrate(a, host).0)
  {
  }

  predicate AllFor(events: seq<Event>, host: string) {
    forall e :: e in events ==> !e.Remove? && e.host == host
  }

  /** While the blank file stays, no run stores anything for that host. */
  lemma {:induction false} BlockedForever(a: Archive, host: string, events: seq<Event>)
    requires Blocked(a, host) && AllFor(events, host)
    ensures Run(a, events) == a
  {
    if events != [] {
      assert events[0] in events;
      BlockedForever(a, host, events[1..]);
    }
  }

  // ---------------------------------------------------------------------
  // Hosts
  // ---------------------------------------------------------------------

  /** All backups, by directory name. */
  function SaveFor(all: map<string, Archive>, host: string, content: string, time: int): map<string, Archive> {
    all[DirectoryName(host) := Save(Find(all, host), host, content, time).0]
  }

  function Find(all: map<string, Archive>, host: string): Archive {
    var name := DirectoryName(host);
    if name in all then all[name] else EMPTY
  }

  /** Safe on every file system: no ':', and nothing else changed. */
  lemma DirectoryNameSafe(host: string)
    ensures |DirectoryName(host)| == |host| && ':' !in DirectoryName(host)
    ensures forall i :: 0 <= i < |host| ==> DirectoryName(host)[i] == host[i] || (host[i] == ':' && DirectoryName(host)[i] == '_')
  {
  }

  predicate SameButSeparators(g: string, h: string) {
    |g| == |h| && forall i :: 0 <= i < |g| ==> g[i] == h[i] || (g[i] in ":_" && h[i] in ":_")
  }

  /** Two hosts share a directory exactly when their names differ only in which of
      ':' and '_' they use. */
  lemma SharedDirectoryIff(g: string, h: string)
    ensures DirectoryName(g) == DirectoryName(h) <==> SameButSeparators(g, h)
  {
    if DirectoryName(g) == DirectoryName(h) {
      forall i | 0 <= i < |g|
        ensures g[i] == h[i] || (g[i] in ":_" && h[i] in ":_")
      {
        assert DirectoryName(g)[i] == DirectoryName(h)[i];
      }
    }
  }

  /** A successful save for `h` shows up in the history of `g` exactly when they
      share a directory. */
  lemma SavesAreIsolatedIff(all: map<string, Archive>, g: string, h: string, content: string, time: int)
    requires !Blank(content) && !Blocked(Find(all, h), h)
    ensures Find(SaveFor(all, h, content, time), g) == Find(all, g) <==> !SameButSeparators(g, h)
  {
    SharedDirectoryIff(g, h);
    SaveSucceedsIff(Find(all, h), h, content, time);
    assert |Save(Find(all, h), h, content, time).0.history| > |Find(all, h).history|;
  }
}
