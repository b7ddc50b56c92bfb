# files_user_cleanup: the `cleanup` command, modelled in Dafny

The Nextcloud app `files_user_cleanup` has a single console command,
`files_user_cleanup:cleanup <user_id> [--user-backend NAME]`. It deletes the home
storage of a user that is gone, and clears that storage's file cache.
Its `execute` method runs in a fixed order:

1. If the user still exists, it asks `[y/N]`. Anything but a yes ends the run with exit 0.
2. It reads the registered user backends. With one backend, that backend is taken whatever
   the option says. With several, the lowered `--user-backend` value must equal the lowered
   name of exactly one backend. An absent, empty or `"0"` option instead writes the list of
   backend names and exits 1. A name that matches no backend exits 1. A name that matches
   several backends also exits 1.
3. It looks up the home mount for that user and backend.
4. It checks for a `files` directory. If there is none it writes "no files" and exits 0.
5. It calls `rmdir('')` on the whole storage root and ignores the result.
6. It checks that the cache is an `OC\Files\Cache\Cache`. If so it calls `clear()` and
   exits 0. If not it throws "Home storage has invalid cache".

The model has three modules:

- `Backends` (`backends.dfy`, pure): backend names (`getBackendName`), ASCII `strtolower`,
  PHP truthiness of the option, the key-preserving `array_filter` (`MatchingKeys`), and the
  selection rule. The rule comes twice: `ResolveAsWritten` is the code as written, and
  `Resolve` is the corrected three-way rule (see Findings).
- `Storage` (`storage.dfy`): the home storage as a value (`Home`) and as the class
  `HomeStorage`, which the command changes in place. Its fields say whether there is a
  `files` directory, whether there is any content, the cache kind, and whether the cache
  was cleared. It also records whether the driver's `rmdir` succeeds.
- `Cleanup` (`cleanup.dfy`): the run's trace, the function `Execution` that specifies a run
  with the backend rule as written,
  the imperative `Execute` (with its helpers `ListBackends` and `PurgeStorage`) proved
  against `Execution`, and the lemmas about it.

The trace records the collaborator calls and the output lines in one sequence, in the order
they happen. The collaborator calls are user lookup, prompt, backend list, home mount,
`is_dir`, `rmdir`, `getCache` and `clear`.

These inputs are parameters of a run (`Invocation`):

- whether the user exists;
- what was typed at the prompt;
- the registered backends;
- the option value.

The home storage that the mount lookup returns is passed in as the `HomeStorage` object.

In these places the code does something a reader might not expect, and the model follows the code:

- The existence check runs before the backends are read.
- "One backend" means at most one (`count($backends) > 1` is the test). Zero backends lead
  to a `TypeError`, not to a resolution failure.
- `rmdir` runs before the cache type is checked.
- A failed `rmdir` is not an error: its result is ignored.
- An invalid cache is an uncaught exception (`Raised(InvalidCache)`), not exit code 1.

## Model

| member | source | states |
|---|---|---|
| `Backends.BackendName` | lib/Command/Cleanup.php:125-131 | a backend implementing IUserBackend is shown and matched by its own name, any other backend by its class name |
| `Backends.UnnamedSameClassNeverSelected` | lib/Command/Cleanup.php:125-131 | two registered instances of one class without IUserBackend get the same name, so with several backends neither is ever selected, under either rule |
| `Backends.Truthy` | lib/Command/Cleanup.php:75 | PHP truthiness of the option: absent, `""` and `"0"` are false; every value of two or more characters is true, and a one-character value is true unless it is `0` |
| `Backends.LowerChar` | lib/Command/Cleanup.php:76 | the result is never an upper-case ASCII letter; `A`-`Z` move up by 32, everything else is kept |
| `Backends.ToLower` | lib/Command/Cleanup.php:76-78 | `strtolower` keeps the length and leaves no upper-case ASCII letter |
| `Backends.ToLowerAt` | lib/Command/Cleanup.php:76-78 | each character of the result is the lowered character at that position |
| `Backends.MatchingKeys` | lib/Command/Cleanup.php:77-79 | the kept keys are exactly the positions whose lowered name equals the lowered option, in increasing order |
| `Backends.MatchCountCases` | lib/Command/Cleanup.php:80-88 | zero kept keys iff no name matches; two or more iff two distinct positions match; one iff that position is the only match |
| `Backends.ResolveAsWritten` | lib/Command/Cleanup.php:72-98 | as written: never "ambiguous"; one backend is always selected; zero backends give no backend object; several backends without a truthy option give "unspecified"; no match or several matches give "not found"; a selection is the only matching position |
| `Backends.Resolve` | lib/Command/Cleanup.php:72-98 | corrected: the same, except that several matches give "ambiguous"; each failure holds the lowered request; every case is stated as an if-and-only-if |
| `Backends.OnlyMatchIsSelected` | lib/Command/Cleanup.php:76-81 | with several backends, the position holding the only case-insensitive match is what both rules select |
| `Backends.AsWrittenAgreesWithResolve` | lib/Command/Cleanup.php:80-88 | the two rules agree on every input except a multi-match, where the code says "not found" for the same request |
| `Backends.MultipleMatchesReportNotFound` | lib/Command/Cleanup.php:82 | several matches: the code as written reports "not found", while the intended rule reports "ambiguous" |
| `Backends.NoUniqueMatchFails` | lib/Command/Cleanup.php:80-88 | no match or several matches select nothing under either rule |
| `Backends.DuplicateNamesExample` | lib/Command/Cleanup.php:82 | backends named `LDAP` and `ldap` with option `LDAP`: "not found" as written, "ambiguous" when corrected |
| `Backends.CollidingNamesNeverSelected` | lib/Command/Cleanup.php:125-131 | two backends whose names are equal up to case are never selected, for instance two backends of one class without a display name |
| `Storage.Home.AfterRmdir` | lib/Command/Cleanup.php:109 | a successful `rmdir('')` leaves no `files` directory and no content; a failed one changes nothing; the cache is untouched either way |
| `Storage.Home.AfterClear` | lib/Command/Cleanup.php:115 | `clear()` marks the cache cleared and changes nothing else |
| `Storage.HomeStorage.constructor` | lib/Command/Cleanup.php:101-102 | the storage object holds the given home state |
| `Storage.HomeStorage.IsFilesDir` | lib/Command/Cleanup.php:103 | `is_dir('files')` reports the `files` directory, which implies content is present |
| `Storage.HomeStorage.RemoveRoot` | lib/Command/Cleanup.php:109 | the new state is `AfterRmdir` of the old one, and the returned flag says whether the driver managed it |
| `Storage.HomeStorage.GetCache` | lib/Command/Cleanup.php:113 | returns the kind of the storage's cache |
| `Storage.HomeStorage.ClearCache` | lib/Command/Cleanup.php:114-115 | only called on an `OC\Files\Cache\Cache`; the new state is `AfterClear` of the old one |
| `Cleanup.Confirmed` | lib/Command/Cleanup.php:66-67 | the `[y/N]` default is no: no reply and an empty reply never confirm, and `y` does |
| `Cleanup.Proceeds` | lib/Command/Cleanup.php:63-70 | a user that no longer exists always gets past the gate, without a prompt; an existing user with no reply or an empty reply is stopped; `y` lets the run go on |
| `Cleanup.GateTrace` | lib/Command/Cleanup.php:63-70 | the gate's events: the existence check, then the prompt when the user exists; no storage access and no backend read |
| `Cleanup.Listing` | lib/Command/Cleanup.php:91-93 | one line per backend, holding that backend's name, in registration order |
| `Cleanup.ListBackends` | lib/Command/Cleanup.php:91-93 | the `foreach` loop writes exactly `Listing` of the backends |
| `Cleanup.Purge` | lib/Command/Cleanup.php:103-122 | the storage steps start with `is_dir('files')`; they keep the storage valid and the cache kind; the storage changes only if `rmdir('')` was called; a `clear` in the trace means the cache is cleared |
| `Cleanup.PurgeStorage` | lib/Command/Cleanup.php:103-122 | the step-by-step storage part yields `Purge` of the old state: outcome, trace and new storage state |
| `Cleanup.Execution` | lib/Command/Cleanup.php:61-122 | a run, with the backend rule as written, keeps the storage valid and never changes its cache kind or its driver |
| `Cleanup.Execute` | lib/Command/Cleanup.php:61-122 | the step-by-step command yields `Execution` of the old storage state: outcome, full trace and new storage state |
| `Cleanup.DeclinedStopsEverything` | lib/Command/Cleanup.php:63-69 | an existing user and no yes: exit 0 and the trace is only the existence check and the prompt; no backend read, no storage access, storage unchanged, so a rerun gives the same |
| `Cleanup.AskedPrefix` | lib/Command/Cleanup.php:62-72 | past the gate, every trace begins with the gate's events and then the backend list |
| `Cleanup.GateBeforeBackends` | lib/Command/Cleanup.php:63-72 | the existence check is the first event; the prompt is the second when the user exists; the backends are read iff the gate is passed, right after it |
| `Cleanup.SelectedRun` | lib/Command/Cleanup.php:96-101 | once a backend is selected, the home mount is looked up for it right after the backends are read, and the rest of the run is the storage part |
| `Cleanup.SingleBackendIgnoresOption` | lib/Command/Cleanup.php:73-98 | with one backend the home mount is looked up for it, and any other option value gives the identical run |
| `Cleanup.MissingOptionListsBackends` | lib/Command/Cleanup.php:89-95 | several backends and no truthy option: exit 1; the trace is the hint followed by each backend name once in order; no storage access; storage unchanged |
| `Cleanup.UniqueMatchProceeds` | lib/Command/Cleanup.php:76-81 | an option matching exactly one of several backends: the home mount is looked up for that backend, and the run continues with the storage part |
| `Cleanup.NoUniqueMatchStops` | lib/Command/Cleanup.php:80-88 | an option matching none or several backends: exit 1; the trace ends with the "not found" line for the lowered option, as the code writes it for a multi-match too; no storage access; storage unchanged |
| `Cleanup.NoFilesDirectoryIsSuccess` | lib/Command/Cleanup.php:103-106 | no `files` directory: exit 0, "no files" is written, no `rmdir` or `clear`, storage unchanged |
| `Cleanup.DeleteThenClear` | lib/Command/Cleanup.php:108-122 | `rmdir('')` is the first mutation and comes before `getCache`; a valid cache is then cleared and the run exits 0; an invalid cache raises after the deletion, without `clear` |
| `Cleanup.DeletionIgnoresCache` | lib/Command/Cleanup.php:108-118 | whether `rmdir` runs, and what content remains, is the same for every cache kind |
| `Cleanup.RmdirResultIgnored` | lib/Command/Cleanup.php:109 | the outcome and the trace are the same whether `rmdir` succeeds or fails |
| `Cleanup.RerunFindsNoFiles` | lib/Command/Cleanup.php:103-122 | after a completed cleanup whose `rmdir` worked, a second run with the same answers exits 0 with "no files", calls no `rmdir` and changes nothing |
| `Cleanup.EveryRun` | lib/Command/Cleanup.php:61-122 | every exit code is 0 or 1; the storage changes only in runs that call `rmdir('')`; a `clear` in the trace means the cache is cleared |

## Findings

| source | as written | input that shows it | evidently intended | confidence | as-written member | corrected member |
|---|---|---|---|---|---|---|
| lib/Command/Cleanup.php:82 | the `else if` repeats line 80's exactly-one-match test, so the "Multiple user backend matching" branch can never run and a multi-match prints "User backend '…' not found." | two backends with display names `LDAP` and `ldap`, option `--user-backend LDAP` | the second test should be "more than one match" and report the ambiguity | high (not executed) | `Backends.ResolveAsWritten`, shown by `Backends.DuplicateNamesExample` and `Backends.MultipleMatchesReportNotFound` | `Backends.Resolve`, proved three-way in its contract and by `Backends.AsWrittenAgreesWithResolve` |

`Cleanup.Execution` and `Cleanup.Execute` follow the code as written and branch on
`ResolveAsWritten`, so on a multi-match they write the "not found" line
(`Cleanup.NoUniqueMatchStops`). `Backends.Resolve` is the fix. By
`Backends.AsWrittenAgreesWithResolve`, a run under the fix would differ only on a multi-match,
and only in which line it writes: the exit code (1) and the untouched storage stay the same.

## Left out

- Console plumbing is not modelled: `configure`, argument and option parsing, the question
  helper and the wording of `writeln`. Output lines are tags (`Line`), and the prompt is
  the event `AskConfirmation`.
- The answer to the prompt is the typed reply, or none when nothing could be asked. A yes is
  a non-empty reply that starts with `y` or `Y`, as Symfony's `ConfirmationQuestion` does
  with default `false`. Symfony's trimming of the reply is not modelled.
- `userExists`, `getBackends`, `getHomeMountForUser` and the construction of `User` and
  `EventDispatcher` are services the model cannot see. Their answers are inputs. The model
  records only that they were called.
- An exception thrown by one of these services, or by the storage driver during
  `is_dir`/`rmdir`/`clear`, is not modelled. The only exceptions modelled are the
  invalid-cache exception and the `TypeError` for zero backends.
- Zero registered backends: `current([])` is `false`, and passing `false` as the `User`
  constructor's backend parameter throws a `TypeError`. The model turns this into
  `Raised(NoBackendObject)` right after the backend list is read, before any storage access.
  This relies on the `User` constructor's typed parameter. That constructor is not part of
  this model.
- The recursive deletion inside `rmdir` and the internals of `Cache::clear` are out of
  scope. Each is one abstract state change. A failed `rmdir` is modelled as removing
  nothing, so partial deletion is not modelled.
- `strtolower` is ASCII lower-casing. This matches PHP 8.2 and later. Locale-dependent
  lower-casing in older PHP versions is not modelled.
- Concurrency is not modelled, and neither are two runs on the same user at once.
- Constructor dependency injection and the inheritance from `Base` are not modelled.
