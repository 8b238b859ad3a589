# Arieo package gatherer, modelled in Dafny

This project models the core of `gather_packages.py`, the ArieoEngine package
gatherer. The gatherer reads the package entries of a loaded manifest in order.
For each entry with a `local` key it substitutes `${CUR_MANIFEST_FILE_DIR}` in the
path, then checks the package folder and its `ArieoPackage.yaml`. It validates the
descriptor with `verify_yaml` and copies it into `<cache>/<name>/ArieoPackage.yaml`,
where `name` is the descriptor's own `name` field. Entries with only a `git` key
are skipped and reported under a display name derived from the URL. Every other
entry is an error, unless the loop cannot even inspect it: then it raises, and
the run ends there. The run tallies copied, skipped and errored entries. The
process exits with 0 exactly when at least one package was copied and nothing
raised.

Files:

- `options.dfy`: the `Option` datatype.
- `pystrings.dfy`: the Python `str` operations the core uses.
  - `isspace`, as used by `strip()` to detect blank text
  - `split(c)[0]`, `rstrip(c)`, `split(c)[-1]`
  - `replace`: left to right, non-overlapping
- `yaml.dfy`: the values the YAML loader produces, Python truthiness (`not v`)
  and `type(v).__name__`.
- `verify_yaml.dfy`: `verify_yaml` as a function. A second, independent definition
  lists the same checks as ordered guards, and a lemma shows the two agree.
- `gather.dfy`: the pieces of `gather_packages_from_manifest`.
  - entry classification and per-entry outcomes
  - the cache directory as a class with `rmtree`/`mkdir`/copy methods
  - the gathering loop as a method with invariants
  - lemmas about the counters and the final cache contents
- `cli.dfy`: the cache-directory rule and the exit status of `main`, plus a `Run`
  method that ties them to the gathering.

What the source does that a reader might not expect:

- The git display name removes every `.git` in the last URL segment, not only
  a trailing suffix. So `user.github.io.git` shows as `userhub.io` and
  `repo.gitlab` as `repolab`.
- The URL is cut at its first `@` before anything else. So an scp-style URL
  `git@github.com:org/repo.git` is shown as `git` (`GitRepoNameOfScpStyleUrl`).
- `verify_yaml` also rejects a file that exists but cannot be read
  (`Error reading file`). `Unreadable` models it.
- An entry the loop cannot handle does not count as an error: it raises out of
  the loop, which ends the whole run and exits with status 1. Examples are a null
  entry (`'local' in None`, `TypeError`), a bare URL string that contains `git`
  (`entry['git']` on a string, `TypeError`), and a `local` or `git` value that is not
  a string (`.replace`/`.split` on it, `AttributeError`). The outcome `Raised`
  models this: it is the last outcome of the run (`IsRun`,
  `FirstMalformedEntryStopsTheRun`).
- A `packages` value that is truthy but not a list is not rejected up front.
  A string is walked character by character, and every character is an unknown
  format (`StringPackagesAreUnknownFormats`). A number or `True` raises at
  `len(packages_list)`, after the cache has been cleaned and created
  (`PackageList` gives `None`).

## Model

| member | source | states |
|---|---|---|
| `PyStrings.IsSpace` | gather_packages.py:76 | the characters `str.isspace` accepts: tab to carriage return, the separators U+001C–U+001F, space, and the Unicode spaces (U+0085, U+00A0, U+1680, U+2000–U+200A, U+2028, U+2029, U+202F, U+205F, U+3000) |
| `PyStrings.IsBlank` | gather_packages.py:76 | every character is whitespace; `StripEmptyIffBlank` ties it to `not content.strip()` |
| `PyStrings.LeadingSpaces` | gather_packages.py:76 | the length of the whitespace run at the start of the text: everything before it is whitespace and the next character is not |
| `PyStrings.TrimStart` | gather_packages.py:76 | `lstrip()` drops exactly the leading whitespace run and leaves text that does not start with whitespace |
| `PyStrings.TrimEnd` | gather_packages.py:76 | `rstrip()` is a prefix of its input, only whitespace was removed, and the result does not end with whitespace |
| `PyStrings.Strip` | gather_packages.py:76 | `strip()` is no longer than its input and neither starts nor ends with whitespace |
| `PyStrings.StripEmptyIffBlank` | gather_packages.py:76 | `not content.strip()` holds exactly when the content is all whitespace (or empty) |
| `PyStrings.SplitFirst` | gather_packages.py:151 | `url.split('@')[0]` is a prefix of the URL that holds no separator, and it ends where the first separator is |
| `PyStrings.SplitFirstWithoutSeparator` | gather_packages.py:151 | a URL without `@` is kept whole |
| `PyStrings.SplitFirstAt` | gather_packages.py:151 | the piece is exactly the text before the first separator |
| `PyStrings.RStrip` | gather_packages.py:152 | `rstrip('/')` is a prefix that does not end in `/`, and only `/` characters were removed |
| `PyStrings.RStripWithoutTrailing` | gather_packages.py:152 | text that does not end in `/` is unchanged |
| `PyStrings.LastSegment` | gather_packages.py:152 | `split('/')[-1]` holds no `/` and only characters of its input, and a `/` comes just before it |
| `PyStrings.LastSegmentIsSuffix` | gather_packages.py:152 | `split('/')[-1]` is a suffix of its input |
| `PyStrings.LastSegmentAfterSeparator` | gather_packages.py:152 | after a `/` (or at the start), a segment without `/` is the last piece |
| `PyStrings.Replace` | gather_packages.py:145 | `str.replace`: a left-to-right scan that swaps each occurrence of the pattern and resumes after it; its meaning is stated by `ReplaceAtFirstOccurrence`, `ReplaceWithoutOccurrence` and `ReplaceKeepsCharacters` |
| `PyStrings.ReplaceKeepsCharacters` | gather_packages.py:145 | `str.replace` output contains only characters from the text or the replacement |
| `PyStrings.ReplaceAtFirstOccurrence` | gather_packages.py:145 | at the first occurrence of the pattern, the text before it is kept, the occurrence becomes the replacement, and replacement continues after it (left to right, non-overlapping) |
| `PyStrings.OccursAtTail` | gather_packages.py:145 | an occurrence in the text after its first character is an occurrence one position later in the whole text |
| `PyStrings.ReplaceStepPastMismatch` | gather_packages.py:145 | where the pattern does not start, `replace` keeps the character and moves on |
| `PyStrings.ReplaceWithoutOccurrence` | gather_packages.py:145 | `replace` leaves text without the pattern unchanged |
| `PyStrings.ReplaceLeadingOccurrence` | gather_packages.py:145 | a leading occurrence is replaced, and replacement continues after it |
| `PyStrings.ReplaceSoleTrailingOccurrence` | gather_packages.py:152 | when the pattern occurs only at the end, `replace` swaps just that occurrence |
| `Yaml.Falsy` | gather_packages.py:122 | Python's `not v` (also used on the descriptor's `name`): null, `False`, zero, and the empty string, list and mapping |
| `Yaml.TypeName` | gather_packages.py:86 | `type(v).__name__` for each kind of loaded value |
| `Descriptor.IsNonEmptyString` | gather_packages.py:92 | the value is a string with at least one character (the negation of the `name` test) |
| `Descriptor.VerifyYaml` | gather_packages.py:68-103 | valid exactly when data is returned and exactly when no error is returned; valid data is the loaded mapping, and it has a non-empty string `name` |
| `Descriptor.VerifyYamlRejectsAtFirstFailingGuard` | gather_packages.py:68-103 | valid exactly when all eight guards hold in source order; otherwise the reason is the first failing guard's message |
| `Descriptor.ValidExactlyWhenNamedMapping` | gather_packages.py:76-98 | for a loader that makes no mapping from blank text, valid exactly when the document is a mapping with a non-empty string `name` |
| `Descriptor.VerifyYamlOnSampleDescriptors` | gather_packages.py:82-93 | a comment-only file, a mapping without `name`, `name: 123` and `name: ""` each get the reason the source gives it |
| `Gather.SubstituteManifestDir` | gather_packages.py:145 | the substituted path (here and for the cache folder) is made only of the characters of the text and of the manifest directory |
| `Gather.SubstituteFirstToken` | gather_packages.py:145 | the first `${CUR_MANIFEST_FILE_DIR}` becomes the manifest directory, the text before it is kept, and the rest is substituted in turn |
| `Gather.SubstituteLeadingToken` | gather_packages.py:145 | a `local` path starting with `${CUR_MANIFEST_FILE_DIR}` is rooted at the manifest directory |
| `Gather.SubstituteWithoutToken` | gather_packages.py:145 | a `local` path without the variable is used as written (a direct use of `ReplaceWithoutOccurrence`) |
| `Gather.GitRepoName` | gather_packages.py:151-152 | the git display name contains no `/` and no `@` |
| `Gather.GitRepoNameIsLastSegment` | gather_packages.py:151-152 | when the last segment holds no `.git`, the display name is that segment |
| `Gather.GitRepoNameStripsTrailingSuffix` | gather_packages.py:151-152 | `…/<n>.git`, with no `@` and no other `.git`, displays as `<n>` |
| `Gather.GitUrlLastSegment` | gather_packages.py:151-152 | a URL without `@` or a trailing `/` yields the segment after its last `/` |
| `Gather.GitRepoNameOfScpStyleUrl` | gather_packages.py:151-152 | `git@github.com:org/repo.git` displays as `git` |
| `Gather.HasKey` | gather_packages.py:142-148 | Python's `key in entry`: a key of a mapping, a substring of a string, an element of a list, and false for other values, on which `Classify` raises first |
| `Gather.WellFormedEntry` | gather_packages.py:142-152 | the entries the loop handles without raising: `in` applies to them, and the `local` (or else `git`) field read is a string field of a mapping; `ClassifyFollowsKeys` proves an entry raises exactly when it is not well formed |
| `Gather.Characters` | gather_packages.py:140 | iterating over a string gives one one-character string per character, in order |
| `Gather.PackageList` | gather_packages.py:120-140 | no entries exactly when `packages` is absent or falsy; a raise (`None`) exactly for a truthy number or `True`; a list gives its items and a string its characters |
| `Gather.LocalOutcome` | gather_packages.py:162-195 | a local entry is copied exactly when its folder exists and its descriptor is valid; the copy carries the descriptor's text under its non-empty `name` |
| `Gather.Classify` | gather_packages.py:142-160 | the `if 'local' … elif 'git' … else` branch an entry takes, or the exception it raises on the way |
| `Gather.ClassifyFollowsKeys` | gather_packages.py:142-160 | an entry raises exactly when it is not well formed (`AttributeError` exactly for a mapping); otherwise `local` branch exactly when the key is in the entry, `git` branch exactly when `git` is in it and `local` is not; the path is the substituted `local` value and the URL the `git` value |
| `Gather.EntryOutcome` | gather_packages.py:140-195 | the outcome of one loop iteration for the branch the entry takes |
| `Gather.EntryOutcomeFollowsBranch` | gather_packages.py:140-195 | local outcomes exactly for `local` entries, a skip exactly for git-only ones, an unknown format exactly for neither, a raise exactly for an entry that is not well formed; a copy exactly through a local entry whose outcome is a copy |
| `Gather.LocalKeyTakesPrecedence` | gather_packages.py:142-148 | an entry with both `local` and `git` is processed as local, never skipped |
| `Gather.GitOnlyEntryIsSkipped` | gather_packages.py:148-156 | a git-only entry counts as skipped and leaves the cache unchanged |
| `Gather.UnrecognisedEntryIsError` | gather_packages.py:157-160 | a mapping, string or list with neither key counts as an error and leaves the cache unchanged |
| `Gather.StringPackagesAreUnknownFormats` | gather_packages.py:120-160 | a `packages` string is walked character by character and each character is an unknown format |
| `Gather.Count` | gather_packages.py:136-138 | a counter never exceeds the number of entries processed (a bound only) |
| `Gather.TallyOf` | gather_packages.py:155-195 | the counter each outcome bumps: copies the copied counter (:195), git skips the skipped one (:155), unknown formats and the three local failures the error one (:159, :165, :173, :181), and a raise none |
| `Gather.TalliesPartitionEntries` | gather_packages.py:136-209 | copied + skipped + errors, plus the entry that raised if any, equals the number of entries processed |
| `Gather.CountPositiveIffPresent` | gather_packages.py:136-209 | a counter is positive exactly when some entry falls under it |
| `Gather.ApplyOutcome` | gather_packages.py:185-194 | a copied descriptor lands at `cache[name]`; any other outcome leaves the cache alone |
| `Gather.ApplyAll` | gather_packages.py:140-195 | the cache after the outcomes, applied in entry order |
| `Gather.AppendOutcome` | gather_packages.py:140-195 | one more entry raises its own counter by one and applies its copy last |
| `Gather.ApplyAllOverlays` | gather_packages.py:132-194 | without `clean`, the cache is the old cache with this run's copies laid over it |
| `Gather.CleanRunHoldsExactlyCopiedNames` | gather_packages.py:127-194 | after a `clean` run the cache holds exactly the names copied in this run |
| `Gather.UncopiedNameKeepsEntry` | gather_packages.py:132-194 | a name not copied in this run keeps its old cache entry, or stays absent |
| `Gather.LastCopyWins` | gather_packages.py:185-194 | when several descriptors share a name, the last one copied is kept |
| `Gather.RerunIsIdempotent` | gather_packages.py:132-194 | applying the same outcomes a second time leaves the cache as the first application left it |
| `Gather.CacheDirectory.constructor` | gather_packages.py:127-132 | a cache directory with the given presence and contents; a missing one holds nothing |
| `Gather.CacheDirectory.Remove` | gather_packages.py:127-130 | `rmtree` leaves no directory and no packages |
| `Gather.CacheDirectory.Create` | gather_packages.py:132 | `mkdir(exist_ok=True)` makes the directory present and keeps its contents |
| `Gather.CacheDirectory.Store` | gather_packages.py:188-194 | copying a descriptor sets `cache[name]` to its text, replacing an earlier copy, and changes nothing else |
| `Gather.CopyLocalPackage` | gather_packages.py:162-195 | returns the local outcome of the path and applies it to the cache |
| `Gather.ProcessEntry` | gather_packages.py:140-195 | returns the entry's outcome, a raise included, and applies it to the cache |
| `Gather.IsRun` | gather_packages.py:140-160 | one outcome per entry in order; no entry before the last raised; the run ends early only right after an entry that raised |
| `Gather.WellFormedEntriesRunToTheEnd` | gather_packages.py:140-160 | when every entry is well formed, every entry is processed and none raises |
| `Gather.FirstMalformedEntryStopsTheRun` | gather_packages.py:140-160 | the first entry that is not well formed raises and is the last one processed; a null entry raises `TypeError` |
| `Gather.FirstRaise` | gather_packages.py:140-160 | the index of the first entry from a position on that raises, or the end of the entries |
| `Gather.FirstRaiseIs` | gather_packages.py:140-160 | an index before which nothing raises, and at which an entry raises or the entries end, is the first raising entry |
| `Gather.RunLength` | gather_packages.py:140-160 | a run processes the entries up to and including the first that raises, or all of them when none does |
| `Gather.IsRunIsDeterministic` | gather_packages.py:140-195 | the entries, manifest directory and file system fix the outcomes of a run |
| `Gather.SecondRunLeavesCacheUnchanged` | gather_packages.py:132-194 | gathering the same entries a second time without `clean` leaves the cache as the first run left it |
| `Gather.GatherEntries` | gather_packages.py:136-209 | one outcome per entry in order, up to and including the first that raises; the three counters count them; the cache is the start cache with all outcomes applied in order |
| `Gather.GatherEntry` | gather_packages.py:140-195 | one loop iteration: the entry's outcome is appended, its counter goes up, and its copy is applied to the cache |
| `Gather.GatherPackagesFromManifest` | gather_packages.py:106-209 | with no entries nothing is touched; otherwise the cache is created (emptied first under `clean`) and ends as the outcomes applied in order; it raises exactly when `len` fails or an entry raises; counters as above |
| `Cli.IsAbsolute` | gather_packages.py:255 | `Path.is_absolute()` on POSIX: the path starts with `/` |
| `Cli.JoinPath` | gather_packages.py:254-256 | `manifest_dir / path` ends with the path, right after one `/`, and what comes before is the directory, with a `/` added unless it already ends in one; absolute when the directory is |
| `Cli.CacheDirectoryPath` | gather_packages.py:249-257 | default `./.cache` joined onto the manifest directory when the key is absent; the substituted folder as is when absolute, joined onto the manifest directory when relative; no path when the folder is not a string |
| `Cli.DefaultCacheBesideManifest` | gather_packages.py:249-256 | without the key, the cache is `<manifest dir>/./.cache` |
| `Cli.CacheFolderFromManifestDirToken` | gather_packages.py:249-257 | a folder `${CUR_MANIFEST_FILE_DIR}<rest>` with an absolute manifest directory names `<manifest dir><rest>` |
| `Cli.RelativeCacheFolderJoined` | gather_packages.py:254-256 | a relative folder without the variable is `<manifest dir>/<folder>` |
| `Cli.ExitStatus` | gather_packages.py:272 | the status is 0 or 1, and 0 exactly when something was copied |
| `Cli.ExitStatusReportsAnyCopy` | gather_packages.py:266-272 | exit status 0 exactly when some entry was copied, else 1 |
| `Cli.Run` | gather_packages.py:245-272 | a non-string cache folder stops the run with status 1 and the cache untouched; otherwise the outcomes are a run of the package list and the cache ends as in `GatherPackagesFromManifest`; status 0 exactly when some entry was copied and none raised |

## Left out

- `load_manifest`, argument parsing, `get_script_dir` and the default manifest
  search are not modelled. `Run` starts from a manifest that is already loaded,
  plus its directory.
- YAML parsing (`yaml.safe_load`) is abstract. A descriptor file carries its text
  and the loader's result, a value or a syntax error. Mapping keys are strings.
  `LoaderConsistent` states the one fact about the loader that is used.
- `os.path.expandvars` is treated as the identity. Only `${CUR_MANIFEST_FILE_DIR}`
  is substituted.
- `Path.resolve()` and path normalisation are not modelled. The file system is a
  map from the substituted `local` path to the descriptor file in that folder, so
  two spellings of one folder are two keys. `IsAbsolute` is the POSIX rule
  (a leading `/`).
- The cache directory and the package folders are assumed not to overlap: the
  file system `fs` stays fixed for the whole run, apart from the cache. In the
  source they can overlap, and then the run's own changes matter. A cache folder
  `${CUR_MANIFEST_FILE_DIR}` or `.` run with `clean` makes `rmtree` delete the
  manifest directory, so every local entry under it is then "Package folder not
  found", where the model still copies it. A local entry whose folder is
  `<cache>/<name>`, with a descriptor named `<name>`, makes `shutil.copy2` copy
  the file onto itself and raise `SameFileError`, ending the run with status 1,
  where the model reports `Copied` and status 0.
- Package names are cache keys. A `name` holding `/` or `..`, or an absolute
  `name`, writes outside `<cache>/<name>` in the source. The model does not
  capture that.
- A `packages` value that is a non-empty mapping is excluded by
  `WellFormedManifest`. The source walks its keys in insertion order, and a
  Dafny `map` keeps no order. A key that contains `local` or `git` would also
  raise there.
- `yaml.safe_load` can also produce dates, timestamps, bytes and sets. `Value`
  has no case for them, so `TypeName` cannot name them and they are not
  modelled. Mapping keys other than strings are not modelled either.
- Which statement raises, and the traceback, are not modelled. `Raised` keeps
  only the exception class.
- A cache folder that is not a string raises in the source. The model gives no
  path (`None`) and exit status 1.
- `shutil.copy2` metadata, `mkdir` and permission failures, concurrent changes
  to the file system and partial copies are not modelled. The descriptor text
  is what lands in the cache.
- Printed progress, the verbose messages and the result summary are not
  modelled. The per-entry `Outcome` list stands in for them, and the git
  display name is kept in `SkippedGit`.
- `build_packages_v2.py` (the CMake build driver) is not part of this model.
