/** The `files_user_cleanup:cleanup` command: the confirmation gate, backend
    resolution, and the ordered destructive steps on the user's home storage. */
module Cleanup {
  import opened Backends
  import opened Storage

  /** Lines the command writes to its output. */
  datatype Line =
    | MultipleBackends(requested: string)   // "Multiple user backend matching '...' found, ..."
    | BackendNotFound(requested: string)    // "User backend '...' not found."
    | ChooseBackend                         // "More than one user backend is configured, ..."
    | ListedBackend(name: string)           // "    <backend name>"
    | NoFiles                               // "user doesn't seem to have any files to delete"
    | DeletingFiles                         // "Deleting all files from the users home directory..."
    | CleaningCache                         // "Cleaning up filecache..."
    | Done                                  // "Done"

  /** Everything the command does that can be observed, in the order it happens:
      calls into its collaborators and the lines it writes. */
  datatype Event =
    | UserExists(uid: string)
    | AskConfirmation(uid: string)
    | GetBackends
    | GetHomeMount(uid: string, backend: Backend)
    | IsDir(path: string)
    | Rmdir(path: string)
    | GetCache
    | ClearCache
    | Write(line: Line)
  {
    predicate IsStorageOp() {
      IsDir? || Rmdir? || GetCache? || ClearCache?
    }

    predicate Destructive() {
      Rmdir? || ClearCache?
    }
  }

  /** Why the command dies with an exception instead of an exit code. */
  datatype Fault =
    | NoBackendObject   // `new User($uid, false, ...)` when no backend is registered: a TypeError
    | InvalidCache      // "Home storage has invalid cache"

  datatype Outcome = Exit(code: int) | Raised(fault: Fault)

  /** One run of the command: what the environment answers. `reply` is what was typed
      at the confirmation prompt (None when nothing could be asked); `home` below is the
      storage of the home mount, which the mount lookup returns. */
  datatype Invocation = Invocation(
    uid: string,
    userExists: bool,
    reply: Option<string>,
    backends: seq<Backend>,
    option: Option<string>)

  /** What a run produced: its outcome, its trace and the home storage afterwards. */
  datatype Effects = Effects(outcome: Outcome, trace: seq<Event>, home: Home)

  /** The answer to "[y/N]": the default is no, and only a reply starting with y or Y
      is a yes. */
  predicate Confirmed(reply: Option<string>): (r: bool)
    ensures r ==> reply.Some? && reply.value != ""
    ensures reply == Some("y") ==> r
  {
    reply.Some? && |reply.value| > 0 && (reply.value[0] == 'y' || reply.value[0] == 'Y')
  }

  /** The command gets past the existence gate. */
  predicate Proceeds(inv: Invocation): (p: bool)
    ensures !inv.userExists ==> p
    ensures inv.userExists && (inv.reply.None? || inv.reply == Some("")) ==> !p
    ensures inv.userExists && inv.reply == Some("y") ==> p
  {
    !inv.userExists || Confirmed(inv.reply)
  }

  /** The events of the existence gate. */
  function GateTrace(inv: Invocation): (t: seq<Event>)
    ensures |t| == (if inv.userExists then 2 else 1)
    ensures t[0] == UserExists(inv.uid)
    ensures inv.userExists ==> t[1] == AskConfirmation(inv.uid)
    ensures forall k :: 0 <= k < |t| ==> !t[k].IsStorageOp() && !t[k].GetBackends?
  {
    [UserExists(inv.uid)] + (if inv.userExists then [AskConfirmation(inv.uid)] else [])
  }

  /** The line per backend written after "More than one user backend is configured". */
  function Listing(bs: seq<Backend>): (r: seq<Event>)
    ensures |r| == |bs|
    ensures forall i :: 0 <= i < |bs| ==> r[i] == Write(ListedBackend(BackendName(bs[i])))
  {
    if bs == [] then []
    else Listing(bs[..|bs| - 1]) + [Write(ListedBackend(BackendName(bs[|bs| - 1])))]
  }

  /** From the `files` check on: the storage part of the run. */
  function Purge(home: Home): (e: Effects)
    requires home.Valid()
    ensures e.home.Valid()
    ensures e.home.cache == home.cache && e.home.rmdirWorks == home.rmdirWorks
    ensures |e.trace| > 0 && e.trace[0] == IsDir("files")
    ensures e.home != home ==> Rmdir("") in e.trace
    ensures ClearCache in e.trace ==> e.home.cacheCleared
  {
    if !home.hasFilesDir then
      Effects(Exit(0), [IsDir("files"), Write(NoFiles)], home)
    else
      var removed := home.AfterRmdir();
      var deleting := [IsDir("files"), Write(DeletingFiles), Rmdir(""), Write(CleaningCache), GetCache];
      if home.cache == FileCache then
        Effects(Exit(0), deleting + [ClearCache, Write(Done)], removed.AfterClear())
      else
        Effects(Raised(InvalidCache), deleting, removed)
  }

  /** The events up to and including reading the backends. */
  function Asked(inv: Invocation): seq<Event> {
    GateTrace(inv) + [GetBackends]
  }

  /** The whole run of `execute`, on values, with the backend rule as the code has it
      (`ResolveAsWritten`): a multi-match takes the "not found" branch. */
  function Execution(inv: Invocation, home: Home): (r: Effects)
    requires home.Valid()
    ensures r.home.Valid()
    ensures r.home.cache == home.cache && r.home.rmdirWorks == home.rmdirWorks
  {
    var gate := GateTrace(inv);
    if !Proceeds(inv) then
      Effects(Exit(0), gate, home)
    else
      var asked := Asked(inv);
      match ResolveAsWritten(inv.backends, inv.option)
      case NoneRegistered =>
        Effects(Raised(NoBackendObject), asked, home)
      case Unspecified =>
        Effects(Exit(1), asked + [Write(ChooseBackend)] + Listing(inv.backends), home)
      case NotFound(sel) =>
        Effects(Exit(1), asked + [Write(BackendNotFound(sel))], home)
      case Ambiguous(sel) =>   // lines 83-84, which the repeated test at line 82 never reaches
        Effects(Exit(1), asked + [Write(MultipleBackends(sel))], home)
      case Selected(b) =>
        var p := Purge(home);
        Effects(p.outcome, asked + [GetHomeMount(inv.uid, b)] + p.trace, p.home)
  }

  /** The `foreach` loop writing one line per backend name. */
  method ListBackends(bs: seq<Backend>) returns (lines: seq<Event>)
    ensures lines == Listing(bs)
  {
    lines := [];
    var i := 0;
    while i < |bs|
      invariant 0 <= i <= |bs|
      invariant lines == Listing(bs[..i])
    {
      assert bs[..i + 1][..i] == bs[..i];
      lines := lines + [Write(ListedBackend(BackendName(bs[i])))];
      i := i + 1;
    }
    assert bs[..i] == bs;
  }

  /** Lines 103-122 on the home storage object. */
  method PurgeStorage(storage: HomeStorage) returns (outcome: Outcome, trace: seq<Event>)
    requires storage.Valid()
    modifies storage
    ensures storage.Valid()
    ensures Effects(outcome, trace, storage.State()) == Purge(old(storage.State()))
  {
    var hasFiles := storage.IsFilesDir();
    trace := [IsDir("files")];
    if !hasFiles {
      return Exit(0), trace + [Write(NoFiles)];
    }

    trace := trace + [Write(DeletingFiles)];
    var _ := storage.RemoveRoot();   // the result of rmdir is ignored
    trace := trace + [Rmdir(""), Write(CleaningCache)];

    var kind := storage.GetCache();
    trace := trace + [GetCache];
    if kind != FileCache {
      return Raised(InvalidCache), trace;
    }
    storage.ClearCache();
    trace := trace + [ClearCache, Write(Done)];
    outcome := Exit(0);
  }

  /** `execute`, step by step on the home storage object. */
  method Execute(inv: Invocation, storage: HomeStorage) returns (outcome: Outcome, trace: seq<Event>)
    requires storage.Valid()
    modifies storage
    ensures storage.Valid()
    ensures Effects(outcome, trace, storage.State()) == Execution(inv, old(storage.State()))
  {
    ghost var before := storage.State();
    trace := [UserExists(inv.uid)];
    if inv.userExists {
      trace := trace + [AskConfirmation(inv.uid)];
      if !Confirmed(inv.reply) {
        return Exit(0), trace;
      }
    }
    trace := trace + [GetBackends];
    assert Proceeds(inv) && trace == Asked(inv);
    var selection := ResolveAsWritten(inv.backends, inv.option);
    match selection {
      case NoneRegistered =>
        outcome := Raised(NoBackendObject);
      case Unspecified =>
        var names := ListBackends(inv.backends);
        outcome, trace := Exit(1), trace + [Write(ChooseBackend)] + names;
      case NotFound(sel) =>
        outcome, trace := Exit(1), trace + [Write(BackendNotFound(sel))];
      case Ambiguous(sel) =>   // never reached, as in the source
        outcome, trace := Exit(1), trace + [Write(MultipleBackends(sel))];
      case Selected(backend) =>
        trace := trace + [GetHomeMount(inv.uid, backend)];
        var steps;
        outcome, steps := PurgeStorage(storage);
        assert Effects(outcome, steps, storage.State()) == Purge(before);
        trace := trace + steps;
    }
  }

  /** `a` happens before `b` in trace `t`. */
  ghost predicate Before(t: seq<Event>, a: Event, b: Event) {
    exists i, j :: 0 <= i < j < |t| && t[i] == a && t[j] == b
  }

  // ---------------------------------------------------------------------------
  // The existence gate

  /** A user that still exists and a prompt not answered yes: exit 0 before the
      backends are read, and nothing else happens; a second run does the same. */
  lemma DeclinedStopsEverything(inv: Invocation, home: Home)
    requires home.Valid()
    requires inv.userExists && !Confirmed(inv.reply)
    ensures Execution(inv, home) == Effects(Exit(0), [UserExists(inv.uid), AskConfirmation(inv.uid)], home)
  {
  }

  /** Past the gate, every run begins with the gate's events and GetBackends. */
  lemma AskedPrefix(inv: Invocation, home: Home)
    requires home.Valid() && Proceeds(inv)
    ensures |Asked(inv)| <= |Execution(inv, home).trace|
    ensures Execution(inv, home).trace[..|Asked(inv)|] == Asked(inv)
  {
    var r := Execution(inv, home);
    var asked := Asked(inv);
    match ResolveAsWritten(inv.backends, inv.option)
    case NoneRegistered =>
    case Unspecified =>
      assert r.trace == asked + ([Write(ChooseBackend)] + Listing(inv.backends));
    case NotFound(sel) =>
    case Ambiguous(sel) =>
    case Selected(b) =>
      assert r.trace == asked + ([GetHomeMount(inv.uid, b)] + Purge(home).trace);
  }

  /** The existence check comes first, the prompt second, and the backends are read
      only once the gate is passed. */
  lemma GateBeforeBackends(inv: Invocation, home: Home)
    requires home.Valid()
    ensures Execution(inv, home).trace[0] == UserExists(inv.uid)
    ensures inv.userExists ==>
              |Execution(inv, home).trace| >= 2 && Execution(inv, home).trace[1] == AskConfirmation(inv.uid)
    ensures GetBackends in Execution(inv, home).trace <==> Proceeds(inv)
    ensures Proceeds(inv) ==> Execution(inv, home).trace[|GateTrace(inv)|] == GetBackends
  {
    var r := Execution(inv, home);
    if Proceeds(inv) {
      AskedPrefix(inv, home);
      var n := |Asked(inv)|;
      assert r.trace[..n][0] == r.trace[0] && r.trace[..n][n - 1] == r.trace[n - 1];
      if inv.userExists {
        assert r.trace[..n][1] == r.trace[1];
      }
    }
  }

  // ---------------------------------------------------------------------------
  // Backend selection inside the run

  /** Once a backend is selected, the home mount is looked up for it right after the
      backends are read, and the rest of the run is the storage part. */
  lemma SelectedRun(inv: Invocation, home: Home)
    requires home.Valid() && Proceeds(inv)
    requires ResolveAsWritten(inv.backends, inv.option).Selected?
    ensures Execution(inv, home).outcome == Purge(home).outcome
    ensures Execution(inv, home).home == Purge(home).home
    ensures Execution(inv, home).trace ==
              Asked(inv) + [GetHomeMount(inv.uid, ResolveAsWritten(inv.backends, inv.option).backend)] + Purge(home).trace
  {
  }

  /** With a single backend, it is the one the home mount is looked up for, and the
      option makes no difference at all. */
  lemma SingleBackendIgnoresOption(inv: Invocation, home: Home, other: Option<string>)
    requires home.Valid()
    requires |inv.backends| == 1 && Proceeds(inv)
    ensures Execution(inv, home).trace[|Asked(inv)|] == GetHomeMount(inv.uid, inv.backends[0])
    ensures Execution(inv, home) == Execution(inv.(option := other), home)
  {
    SelectedRun(inv, home);
    SelectedRun(inv.(option := other), home);
  }

  /** Several backends and no usable option: exit 1, one line per backend name in
      registration order after the hint, and the storage is not touched. */
  lemma MissingOptionListsBackends(inv: Invocation, home: Home)
    requires home.Valid()
    requires |inv.backends| > 1 && !Truthy(inv.option) && Proceeds(inv)
    ensures Execution(inv, home).outcome == Exit(1)
    ensures Execution(inv, home).home == home
    ensures Execution(inv, home).trace == Asked(inv) + [Write(ChooseBackend)] + Listing(inv.backends)
    ensures forall e :: e in Execution(inv, home).trace ==> !e.IsStorageOp()
  {
    var t := Asked(inv) + [Write(ChooseBackend)] + Listing(inv.backends);
    assert Execution(inv, home).trace == t;
    forall e | e in t
      ensures !e.IsStorageOp()
    {
      assert e in GateTrace(inv) || e in [GetBackends] || e in [Write(ChooseBackend)] || e in Listing(inv.backends);
    }
  }

  /** Several backends and an option naming exactly one of them (in any case): the
      home mount is looked up for that backend right after the backends are read. */
  lemma UniqueMatchProceeds(inv: Invocation, home: Home, i: int)
    requires home.Valid()
    requires |inv.backends| > 1 && Truthy(inv.option) && Proceeds(inv)
    requires OnlyMatch(LoweredNames(inv.backends), ToLower(inv.option.value), i)
    ensures Execution(inv, home).trace[|Asked(inv)|] == GetHomeMount(inv.uid, inv.backends[i])
    ensures Execution(inv, home).outcome == Purge(home).outcome
    ensures Execution(inv, home).home == Purge(home).home
  {
    OnlyMatchIsSelected(inv.backends, inv.option, i);
    SelectedRun(inv, home);
  }

  /** Several backends and an option that names none of them, or more than one:
      exit 1, the "not found" line for the lowered option (the code as written reports
      a multi-match this way too), and the storage is not touched. */
  lemma NoUniqueMatchStops(inv: Invocation, home: Home)
    requires home.Valid()
    requires |inv.backends| > 1 && Truthy(inv.option) && Proceeds(inv)
    requires NoMatch(LoweredNames(inv.backends), ToLower(inv.option.value))
             || SeveralMatch(LoweredNames(inv.backends), ToLower(inv.option.value))
    ensures Execution(inv, home).outcome == Exit(1)
    ensures Execution(inv, home).home == home
    ensures Execution(inv, home).trace ==
              Asked(inv) + [Write(BackendNotFound(ToLower(inv.option.value)))]
    ensures forall e :: e in Execution(inv, home).trace ==> !e.IsStorageOp()
  {
    NoUniqueMatchFails(inv.backends, inv.option);
    var line := BackendNotFound(ToLower(inv.option.value));
    var t := Asked(inv) + [Write(line)];
    assert Execution(inv, home).trace == t;
    forall e | e in t
      ensures !e.IsStorageOp()
    {
      assert e in GateTrace(inv) || e in [GetBackends] || e in [Write(line)];
    }
  }

  // ---------------------------------------------------------------------------
  // The storage steps (lines 103-122)

  /** No `files` directory: exit 0, "no files" is written, and neither rmdir nor
      clear is called. */
  lemma NoFilesDirectoryIsSuccess(home: Home)
    requires home.Valid() && !home.hasFilesDir
    ensures Purge(home).outcome == Exit(0)
    ensures Purge(home).home == home
    ensures forall e :: e in Purge(home).trace ==> !e.Destructive()
    ensures Write(NoFiles) in Purge(home).trace
  {
    assert Purge(home).trace[1] == Write(NoFiles);
  }

  /** With a `files` directory, `rmdir('')` of the whole root is the first mutation,
      the cache is only looked at after it, and an invalid cache is reported when the
      deletion has already been done. */
  lemma DeleteThenClear(home: Home)
    requires home.Valid() && home.hasFilesDir
    ensures Before(Purge(home).trace, Rmdir(""), GetCache)
    ensures forall e :: e in Purge(home).trace && e.Destructive() ==>
              e == Rmdir("") || Before(Purge(home).trace, Rmdir(""), e)
    ensures home.cache == FileCache ==>
              && Purge(home).outcome == Exit(0)
              && Purge(home).home == home.AfterRmdir().AfterClear()
              && Before(Purge(home).trace, GetCache, ClearCache)
    ensures home.cache != FileCache ==>
              && Purge(home).outcome == Raised(InvalidCache)
              && Purge(home).home == home.AfterRmdir()
              && ClearCache !in Purge(home).trace
  {
    var t := Purge(home).trace;
    assert t[2] == Rmdir("") && t[4] == GetCache;
    if home.cache == FileCache {
      assert t[5] == ClearCache;
    }
    forall e | e in t && e.Destructive()
      ensures e == Rmdir("") || Before(t, Rmdir(""), e)
    {
      var k :| 0 <= k < |t| && t[k] == e;
      assert k == 2 || k == 5;
    }
  }

  /** Whether rmdir is called, and what it leaves behind, does not depend on the
      cache: deletion is not contingent on the cache check. */
  lemma DeletionIgnoresCache(home: Home, kind: CacheKind)
    requires home.Valid()
    ensures Rmdir("") in Purge(home).trace <==> Rmdir("") in Purge(home.(cache := kind)).trace
    ensures Purge(home).home.contentPresent == Purge(home.(cache := kind)).home.contentPresent
    ensures Purge(home).home.hasFilesDir == Purge(home.(cache := kind)).home.hasFilesDir
  {
    if home.hasFilesDir {
      assert Purge(home).trace[2] == Rmdir("");
      assert Purge(home.(cache := kind)).trace[2] == Rmdir("");
    }
  }

  /** The boolean rmdir returns is ignored: the outcome and the trace are the same
      whether the driver managed to delete or not. */
  lemma RmdirResultIgnored(inv: Invocation, home: Home, works: bool)
    requires home.Valid()
    ensures Execution(inv, home).outcome == Execution(inv, home.(rmdirWorks := works)).outcome
    ensures Execution(inv, home).trace == Execution(inv, home.(rmdirWorks := works)).trace
  {
    var other := home.(rmdirWorks := works);
    assert Purge(home).outcome == Purge(other).outcome && Purge(home).trace == Purge(other).trace;
    if Proceeds(inv) && ResolveAsWritten(inv.backends, inv.option).Selected? {
      SelectedRun(inv, home);
      SelectedRun(inv, other);
    }
  }

  /** A run that deleted the files and cleared the cache leaves a home that a second
      run with the same answers finds empty: exit 0, "no files", nothing changed. */
  lemma RerunFindsNoFiles(inv: Invocation, home: Home)
    requires home.Valid() && home.rmdirWorks
    requires Execution(inv, home).outcome == Exit(0)
    requires Rmdir("") in Execution(inv, home).trace
    ensures Execution(inv, Execution(inv, home).home).outcome == Exit(0)
    ensures Execution(inv, Execution(inv, home).home).home == Execution(inv, home).home
    ensures Write(NoFiles) in Execution(inv, Execution(inv, home).home).trace
    ensures Rmdir("") !in Execution(inv, Execution(inv, home).home).trace
  {
    var first := Execution(inv, home);
    assert Proceeds(inv) && ResolveAsWritten(inv.backends, inv.option).Selected?;
    SelectedRun(inv, home);
    assert home.hasFilesDir && home.cache == FileCache;
    assert !first.home.hasFilesDir;
    SelectedRun(inv, first.home);
    NoFilesDirectoryIsSuccess(first.home);
    assert Rmdir("") !in Purge(first.home).trace;
  }

  /** What holds of every run: the exit code is 0 or 1, and the home storage changes
      only through rmdir and clear. */
  lemma EveryRun(inv: Invocation, home: Home)
    requires home.Valid()
    ensures Execution(inv, home).outcome.Exit? ==>
              Execution(inv, home).outcome.code == 0 || Execution(inv, home).outcome.code == 1
    ensures Execution(inv, home).home != home ==> Rmdir("") in Execution(inv, home).trace
    ensures ClearCache in Execution(inv, home).trace ==> Execution(inv, home).home.cacheCleared
  {
    if Proceeds(inv) {
      var s := ResolveAsWritten(inv.backends, inv.option);
      if s.Selected? {
        SelectedRun(inv, home);
        var p := Purge(home);
        var r := Execution(inv, home);
        assert Rmdir("") in p.trace ==> Rmdir("") in r.trace;
        assert ClearCache in r.trace ==> ClearCache in p.trace;
      } else if s.Unspecified? {
        assert ClearCache !in Listing(inv.backends);
      }
    }
  }
}
