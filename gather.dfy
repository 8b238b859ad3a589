/**
 * `gather_packages_from_manifest`: walk the manifest's package entries in
 * order, copy each valid local package's descriptor into the cache under the
 * descriptor's own `name`, skip git entries, and count every entry as
 * copied, skipped or errored.
 */
module Gather {

  import opened Options
  import opened PyStrings
  import opened Yaml
  import opened Descriptor

  /** The variable a manifest may use for the directory that holds it. */
  const ManifestDirToken := "${CUR_MANIFEST_FILE_DIR}"

  /** `text.replace('${CUR_MANIFEST_FILE_DIR}', manifest_dir)`: made of the text's and the directory's characters. */
  function SubstituteManifestDir(text: string, manifestDir: string): (r: string)
    ensures forall c :: c in r ==> c in text || c in manifestDir
  {
    ReplaceKeepsCharacters(text, ManifestDirToken, manifestDir);
    Replace(text, ManifestDirToken, manifestDir)
  }

  /**
   * Wherever the variable first appears, it becomes the manifest's directory;
   * what comes before is kept and the rest is substituted in turn.
   */
  lemma SubstituteFirstToken(before: string, rest: string, manifestDir: string)
    requires forall i :: 0 <= i < |before| ==> !OccursAt(before + ManifestDirToken + rest, ManifestDirToken, i)
    ensures SubstituteManifestDir(before + ManifestDirToken + rest, manifestDir)
         == before + manifestDir + SubstituteManifestDir(rest, manifestDir)
  {
    ReplaceAtFirstOccurrence(before, ManifestDirToken, rest, manifestDir);
  }

  /** A path that starts with the variable is rooted at the manifest's directory. */
  lemma SubstituteLeadingToken(rest: string, manifestDir: string)
    ensures SubstituteManifestDir(ManifestDirToken + rest, manifestDir)
         == manifestDir + SubstituteManifestDir(rest, manifestDir)
  {
    ReplaceLeadingOccurrence(ManifestDirToken, rest, manifestDir);
  }

  /** A path that does not mention the variable is left as written. */
  lemma SubstituteWithoutToken(text: string, manifestDir: string)
    requires !Occurs(text, ManifestDirToken)
    ensures SubstituteManifestDir(text, manifestDir) == text
  {
    ReplaceWithoutOccurrence(text, ManifestDirToken, manifestDir);
  }

  /**
   * The name shown for a git entry: the URL before its first `@`, without
   * trailing `/`, its last `/`-separated segment, with every `.git` removed.
   */
  function GitRepoName(url: string): (r: string)
    ensures '/' !in r && '@' !in r
  {
    var segment := LastSegment(RStrip(SplitFirst(url, '@'), '/'), '/');
    ReplaceKeepsCharacters(segment, ".git", "");
    Replace(segment, ".git", "")
  }

  /** When the last segment holds no `.git`, the name is that segment itself. */
  lemma GitRepoNameIsLastSegment(url: string)
    requires !Occurs(LastSegment(RStrip(SplitFirst(url, '@'), '/'), '/'), ".git")
    ensures GitRepoName(url) == LastSegment(RStrip(SplitFirst(url, '@'), '/'), '/')
  {
    ReplaceWithoutOccurrence(LastSegment(RStrip(SplitFirst(url, '@'), '/'), '/'), ".git", "");
  }

  /**
   * For a URL `base + n + ".git"` whose `base` ends with `/` (or is empty),
   * with no `@`, no `/` in `n`, and no `.git` before the trailing one, the
   * display name is `n`.
   */
  lemma GitRepoNameStripsTrailingSuffix(base: string, n: string)
    requires base == [] || base[|base| - 1] == '/'
    requires '/' !in n && '@' !in base + n
    requires forall i :: OccursAt(n + ".git", ".git", i) ==> i == |n|
    ensures GitRepoName(base + n + ".git") == n
  {
    assert base + n + ".git" == base + (n + ".git");
    GitUrlLastSegment(base, n + ".git");
    ReplaceSoleTrailingOccurrence(n, ".git", "");
    assert n + "" == n;
  }

  /** A URL with no `@` and no trailing `/` ends in the segment after its last `/`. */
  lemma GitUrlLastSegment(base: string, segment: string)
    requires base == [] || base[|base| - 1] == '/'
    requires '/' !in segment && '@' !in base + segment
    requires segment != [] && segment[|segment| - 1] != '/'
    ensures LastSegment(RStrip(SplitFirst(base + segment, '@'), '/'), '/') == segment
  {
    var url := base + segment;
    SplitFirstWithoutSeparator(url, '@');
    RStripWithoutTrailing(url, '/');
    LastSegmentAfterSeparator(base, segment, '/');
  }

  /**
   * An scp-style URL (`user@host:path`) is cut at its first `@`, so the name
   * shown for it is the user part.
   */
  lemma GitRepoNameOfScpStyleUrl()
    ensures GitRepoName("git@github.com:org/repo.git") == "git"
  {
    var url := "git@github.com:org/repo.git";
    assert url[0] == 'g' && url[1] == 'i' && url[2] == 't' && url[3] == '@';
    assert url[..3] == "git";
    SplitFirstAt(url, '@', 3);
    RStripWithoutTrailing("git", '/');
    LastSegmentAfterSeparator([], "git", '/');
    assert [] + "git" == "git";
  }

  /**
   * Package folders by path (after substitution of the manifest-directory
   * variable); each maps to the state of its `ArieoPackage.yaml`.
   */
  type FileSystem = map<string, DescriptorFile>

  /** The Python exceptions an entry can raise; either one ends the whole run. */
  datatype Exception = TypeError | AttributeError

  /**
   * What happened to one manifest entry; the source prints one line per
   * entry, or raises out of the loop (`Raised`).
   */
  datatype Outcome =
    | Copied(name: string, content: string)
    | SkippedGit(repo: string)
    | UnknownFormat
    | FolderNotFound(path: string)
    | DescriptorNotFound(path: string)
    | InvalidDescriptor(reason: Reason)
    | Raised(error: Exception)
  {
    /** The entry went down the `local` branch. */
    predicate FromLocalEntry() {
      Copied? || FolderNotFound? || DescriptorNotFound? || InvalidDescriptor?
    }
  }

  /** The three counters of the run, and the entry that raised (which no counter records). */
  datatype Tally = CopiedTally | SkippedTally | ErrorTally | RaisedTally

  function TallyOf(o: Outcome): Tally {
    match o
    case Copied(_, _) => CopiedTally
    case SkippedGit(_) => SkippedTally
    case Raised(_) => RaisedTally
    case _ => ErrorTally
  }

  /**
   * Python's `key in entry`: a key of a mapping, a substring of a string,
   * an element of a list.
   */
  predicate HasKey(entry: Value, key: string) {
    match entry
    case Map(fields) => key in fields
    case Str(s) => Occurs(s, key)
    case List(items) => Str(key) in items
    case _ => false
  }

  /**
   * An entry the loop handles without raising: `in` applies to it (a mapping,
   * string or list), and the `local` (or, failing that, `git`) field it goes
   * on to read is a string field of a mapping.
   */
  predicate WellFormedEntry(entry: Value) {
    && (entry.Map? || entry.Str? || entry.List?)
    && (HasKey(entry, "local") ==> entry.Map? && entry.entries["local"].Str?)
    && (!HasKey(entry, "local") && HasKey(entry, "git") ==> entry.Map? && entry.entries["git"].Str?)
  }

  /**
   * A manifest whose `packages` is not a non-empty mapping: the source walks
   * a mapping's keys in insertion order, which a `map` does not keep.
   */
  predicate WellFormedManifest(manifest: map<string, Value>) {
    "packages" in manifest && manifest["packages"].Map? ==> manifest["packages"].entries == map[]
  }

  /** Iterating over a Python string: one one-character string per character. */
  function Characters(text: string): (r: seq<Value>)
    ensures |r| == |text|
    ensures forall i :: 0 <= i < |r| ==> r[i] == Str([text[i]])
  {
    if text == [] then [] else [Str([text[0]])] + Characters(text[1..])
  }

  /**
   * `manifest.get('packages', [])` as the loop walks it: no entries when the
   * value is falsy, a list's items, a string's characters, and `None` for a
   * number or `True`, on which `len` raises `TypeError` before the loop.
   */
  function PackageList(manifest: map<string, Value>): (entries: Option<seq<Value>>)
    requires WellFormedManifest(manifest)
    ensures entries == Some([]) <==> "packages" !in manifest || Falsy(manifest["packages"])
    ensures entries.None? <==>
      "packages" in manifest && !Falsy(manifest["packages"])
      && (manifest["packages"].Bool? || manifest["packages"].Int? || manifest["packages"].Float?)
    ensures "packages" in manifest && manifest["packages"].List? ==> entries == Some(manifest["packages"].items)
    ensures "packages" in manifest && manifest["packages"].Str? ==>
      && entries.Some? && |entries.value| == |manifest["packages"].s|
      && forall i :: 0 <= i < |entries.value| ==> entries.value[i] == Str([manifest["packages"].s[i]])
  {
    if "packages" !in manifest || Falsy(manifest["packages"]) then Some([])
    else match manifest["packages"]
      case List(items) => Some(items)
      case Str(text) => Some(Characters(text))
      case _ => None
  }

  /** The outcome of a `local` entry whose path, after substitution, is `path`. */
  function LocalOutcome(path: string, fs: FileSystem): (o: Outcome)
    ensures o.FromLocalEntry()
    ensures o.Copied? <==> path in fs && VerifyYaml(fs[path]).isValid
    ensures o.Copied? ==>
      && o.content == fs[path].content
      && Str(o.name) == VerifyYaml(fs[path]).data.value["name"] && o.name != []
  {
    if path !in fs then FolderNotFound(path)
    else if fs[path].Absent? then DescriptorNotFound(path)
    else
      var verdict := VerifyYaml(fs[path]);
      if !verdict.isValid then InvalidDescriptor(verdict.error.value)
      else Copied(verdict.data.value["name"].s, fs[path].content)
  }

  /**
   * The branch an entry takes: `local` (with its substituted path), `git`
   * (with its URL), neither, or an exception on the way.
   */
  datatype EntryKind = LocalEntry(path: string) | GitEntry(url: string) | Unrecognised | Malformed(error: Exception)

  /**
   * `if 'local' in entry … elif 'git' in entry … else …`: `local` wins over
   * `git`. `in` on a null, boolean or number raises `TypeError`, so does
   * `entry['local']` on a string or list; `.replace`/`.split` on a field that
   * is not a string raises `AttributeError`.
   */
  function Classify(entry: Value, manifestDir: string): EntryKind {
    if !(entry.Map? || entry.Str? || entry.List?) then Malformed(TypeError)
    else if HasKey(entry, "local") then
      if !entry.Map? then Malformed(TypeError)
      else if !entry.entries["local"].Str? then Malformed(AttributeError)
      else LocalEntry(SubstituteManifestDir(entry.entries["local"].s, manifestDir))
    else if HasKey(entry, "git") then
      if !entry.Map? then Malformed(TypeError)
      else if !entry.entries["git"].Str? then Malformed(AttributeError)
      else GitEntry(entry.entries["git"].s)
    else Unrecognised
  }

  /**
   * The branch follows the keys: an entry raises exactly when it is not
   * well formed (`AttributeError` for a mapping, `TypeError` otherwise);
   * otherwise `local` wins, then `git`, with the substituted path or the URL.
   */
  lemma ClassifyFollowsKeys(entry: Value, manifestDir: string)
    ensures var k := Classify(entry, manifestDir);
      && (k.Malformed? <==> !WellFormedEntry(entry))
      && (k.LocalEntry? <==> WellFormedEntry(entry) && HasKey(entry, "local"))
      && (k.GitEntry? <==> WellFormedEntry(entry) && !HasKey(entry, "local") && HasKey(entry, "git"))
      && (k.LocalEntry? ==> k.path == SubstituteManifestDir(entry.entries["local"].s, manifestDir))
      && (k.GitEntry? ==> k.url == entry.entries["git"].s)
      && (k.Malformed? ==> (k.error == AttributeError <==> entry.Map?))
  {
  }

  /** The outcome of one entry (one iteration of the loop). */
  function EntryOutcome(entry: Value, manifestDir: string, fs: FileSystem): Outcome {
    match Classify(entry, manifestDir)
    case LocalEntry(path) => LocalOutcome(path, fs)
    case GitEntry(url) => SkippedGit(GitRepoName(url))
    case Unrecognised => UnknownFormat
    case Malformed(error) => Raised(error)
  }

  /**
   * The outcome follows the branch: local outcomes only for a `local`
   * entry, a skip exactly for a git-only entry, an unknown format exactly for
   * an entry with neither key, an exception exactly for an entry the loop
   * cannot handle; a copy only through a `local` entry whose folder holds a
   * valid descriptor.
   */
  lemma EntryOutcomeFollowsBranch(entry: Value, manifestDir: string, fs: FileSystem)
    ensures var o, k := EntryOutcome(entry, manifestDir, fs), Classify(entry, manifestDir);
      && (o.FromLocalEntry() <==> k.LocalEntry?)
      && (o.SkippedGit? <==> k.GitEntry?)
      && (o.UnknownFormat? <==> k.Unrecognised?)
      && (o.Raised? <==> !WellFormedEntry(entry))
      && (o.Copied? <==> k.LocalEntry? && LocalOutcome(k.path, fs).Copied?)
  {
    ClassifyFollowsKeys(entry, manifestDir);
  }

  /** An entry with a `local` key is processed as local, whether or not it also has `git`. */
  lemma LocalKeyTakesPrecedence(entry: Value, manifestDir: string, fs: FileSystem)
    requires WellFormedEntry(entry) && HasKey(entry, "local")
    ensures EntryOutcome(entry, manifestDir, fs).FromLocalEntry()
    ensures TallyOf(EntryOutcome(entry, manifestDir, fs)) != SkippedTally
  {
    ClassifyFollowsKeys(entry, manifestDir);
    EntryOutcomeFollowsBranch(entry, manifestDir, fs);
  }

  /** A git-only entry bumps only the skipped counter and leaves the cache as it was. */
  lemma GitOnlyEntryIsSkipped(entry: Value, manifestDir: string, fs: FileSystem, cache: map<string, string>)
    requires WellFormedEntry(entry) && !HasKey(entry, "local") && HasKey(entry, "git")
    ensures TallyOf(EntryOutcome(entry, manifestDir, fs)) == SkippedTally
    ensures ApplyOutcome(cache, EntryOutcome(entry, manifestDir, fs)) == cache
  {
    ClassifyFollowsKeys(entry, manifestDir);
    EntryOutcomeFollowsBranch(entry, manifestDir, fs);
  }

  /** A mapping, string or list with neither key bumps only the error counter and leaves the cache as it was. */
  lemma UnrecognisedEntryIsError(entry: Value, manifestDir: string, fs: FileSystem, cache: map<string, string>)
    requires (entry.Map? || entry.Str? || entry.List?) && !HasKey(entry, "local") && !HasKey(entry, "git")
    ensures TallyOf(EntryOutcome(entry, manifestDir, fs)) == ErrorTally
    ensures ApplyOutcome(cache, EntryOutcome(entry, manifestDir, fs)) == cache
  {
    ClassifyFollowsKeys(entry, manifestDir);
    EntryOutcomeFollowsBranch(entry, manifestDir, fs);
  }

  /**
   * A `packages` string is walked character by character; no single
   * character holds `local` or `git`, so each one is an unknown format.
   */
  lemma StringPackagesAreUnknownFormats(manifest: map<string, Value>, manifestDir: string, fs: FileSystem)
    requires WellFormedManifest(manifest) && "packages" in manifest && manifest["packages"].Str?
    ensures PackageList(manifest).Some?
    ensures forall k :: 0 <= k < |PackageList(manifest).value| ==>
      EntryOutcome(PackageList(manifest).value[k], manifestDir, fs) == UnknownFormat
  {
    forall k | 0 <= k < |PackageList(manifest).value|
      ensures EntryOutcome(PackageList(manifest).value[k], manifestDir, fs) == UnknownFormat
    {
      var c := PackageList(manifest).value[k].s;
      assert |c| == 1;
      assert !OccursAt(c, "local", 0) && !OccursAt(c, "git", 0);
    }
  }

  /** How many outcomes fall under tally `t`. */
  function Count(outcomes: seq<Outcome>, t: Tally): (n: nat)
    ensures n <= |outcomes|
  {
    if outcomes == [] then 0
    else Count(outcomes[..|outcomes| - 1], t) + (if TallyOf(outcomes[|outcomes| - 1]) == t then 1 else 0)
  }

  /**
   * Every outcome is counted exactly once: the three counters, plus the
   * entry that raised if any, add up to the number of entries processed.
   */
  lemma {:induction false} TalliesPartitionEntries(outcomes: seq<Outcome>)
    ensures Count(outcomes, CopiedTally) + Count(outcomes, SkippedTally) + Count(outcomes, ErrorTally)
          + Count(outcomes, RaisedTally) == |outcomes|
  {
    if outcomes != [] {
      TalliesPartitionEntries(outcomes[..|outcomes| - 1]);
    }
  }

  /** A counter is positive exactly when some outcome falls under it. */
  lemma {:induction false} CountPositiveIffPresent(outcomes: seq<Outcome>, t: Tally)
    ensures Count(outcomes, t) > 0 <==> exists i :: 0 <= i < |outcomes| && TallyOf(outcomes[i]) == t
  {
    if outcomes != [] {
      var init := outcomes[..|outcomes| - 1];
      CountPositiveIffPresent(init, t);
      if Count(init, t) > 0 {
        var i :| 0 <= i < |init| && TallyOf(init[i]) == t;
        assert outcomes[i] == init[i];
      }
      if exists i :: 0 <= i < |outcomes| && TallyOf(outcomes[i]) == t {
        var i :| 0 <= i < |outcomes| && TallyOf(outcomes[i]) == t;
        if i < |init| {
          assert init[i] == outcomes[i];
        }
      }
    }
  }

  // ---------------------------------------------------------------------
  // The cache, as a map from package name to the copied descriptor text.
  // ---------------------------------------------------------------------

  /** The effect of one outcome on the cache: a copy lands at `cache[name]`. */
  function ApplyOutcome(cache: map<string, string>, o: Outcome): map<string, string> {
    if o.Copied? then cache[o.name := o.content] else cache
  }

  /** The cache after the outcomes, in order. */
  function ApplyAll(cache: map<string, string>, outcomes: seq<Outcome>): map<string, string> {
    if outcomes == [] then cache
    else ApplyOutcome(ApplyAll(cache, outcomes[..|outcomes| - 1]), outcomes[|outcomes| - 1])
  }

  /** One more outcome: its counter goes up by one and its copy, if any, is applied last. */
  lemma AppendOutcome(cache: map<string, string>, outcomes: seq<Outcome>, o: Outcome)
    ensures forall t :: Count(outcomes + [o], t) == Count(outcomes, t) + (if TallyOf(o) == t then 1 else 0)
    ensures ApplyAll(cache, outcomes + [o]) == ApplyOutcome(ApplyAll(cache, outcomes), o)
  {
    assert (outcomes + [o])[..|outcomes|] == outcomes;
  }

  /** The package names copied by the outcomes. */
  function CopiedNames(outcomes: seq<Outcome>): set<string> {
    set i | 0 <= i < |outcomes| && outcomes[i].Copied? :: outcomes[i].name
  }

  /** A run lays the descriptors it copies over the cache it started from. */
  lemma {:induction false} ApplyAllOverlays(cache: map<string, string>, outcomes: seq<Outcome>)
    ensures ApplyAll(cache, outcomes) == cache + ApplyAll(map[], outcomes)
  {
    if outcomes != [] {
      var init, last := outcomes[..|outcomes| - 1], outcomes[|outcomes| - 1];
      ApplyAllOverlays(cache, init);
      if last.Copied? {
        var written := ApplyAll(map[], init);
        assert (cache + written)[last.name := last.content] == cache + written[last.name := last.content];
      }
    }
  }

  /** Starting from an empty cache (a `clean` run), the cache holds exactly the names copied. */
  lemma {:induction false} CleanRunHoldsExactlyCopiedNames(outcomes: seq<Outcome>)
    ensures ApplyAll(map[], outcomes).Keys == CopiedNames(outcomes)
  {
    if outcomes != [] {
      var init, last := outcomes[..|outcomes| - 1], outcomes[|outcomes| - 1];
      CleanRunHoldsExactlyCopiedNames(init);
      var added := if last.Copied? then {last.name} else {};
      forall n | n in CopiedNames(outcomes) ensures n in CopiedNames(init) + added {
        var i :| 0 <= i < |outcomes| && outcomes[i].Copied? && outcomes[i].name == n;
        if i < |init| {
          assert init[i] == outcomes[i];
        }
      }
      forall n | n in CopiedNames(init) ensures n in CopiedNames(outcomes) {
        var i :| 0 <= i < |init| && init[i].Copied? && init[i].name == n;
        assert outcomes[i] == init[i];
      }
      assert last.Copied? ==> last.name in CopiedNames(outcomes);
    }
  }

  /** Without `clean`, a name this run does not copy keeps whatever the cache held for it. */
  lemma UncopiedNameKeepsEntry(cache: map<string, string>, outcomes: seq<Outcome>, name: string)
    requires name !in CopiedNames(outcomes)
    ensures name in ApplyAll(cache, outcomes) <==> name in cache
    ensures name in cache ==> ApplyAll(cache, outcomes)[name] == cache[name]
  {
    ApplyAllOverlays(cache, outcomes);
    CleanRunHoldsExactlyCopiedNames(outcomes);
  }

  /** Of several entries whose descriptors share a name, the last one copied is the one kept. */
  lemma {:induction false} LastCopyWins(cache: map<string, string>, outcomes: seq<Outcome>, i: nat)
    requires i < |outcomes| && outcomes[i].Copied?
    requires forall j :: i < j < |outcomes| ==> !(outcomes[j].Copied? && outcomes[j].name == outcomes[i].name)
    ensures outcomes[i].name in ApplyAll(cache, outcomes)
    ensures ApplyAll(cache, outcomes)[outcomes[i].name] == outcomes[i].content
  {
    var init := outcomes[..|outcomes| - 1];
    if i < |init| {
      assert init[i] == outcomes[i];
      forall j | i < j < |init| ensures !(init[j].Copied? && init[j].name == init[i].name) {
        assert init[j] == outcomes[j];
      }
      LastCopyWins(cache, init, i);
    }
  }

  /** Gathering the same entries a second time, without `clean`, leaves the cache as it was. */
  lemma RerunIsIdempotent(cache: map<string, string>, outcomes: seq<Outcome>)
    ensures ApplyAll(ApplyAll(cache, outcomes), outcomes) == ApplyAll(cache, outcomes)
  {
    var written := ApplyAll(map[], outcomes);
    ApplyAllOverlays(cache, outcomes);
    ApplyAllOverlays(cache + written, outcomes);
    assert (cache + written) + written == cache + written;
  }

  /** The cache directory on disk: whether it exists, and the descriptor copied under each package name. */
  class CacheDirectory {
    var present: bool
    var packages: map<string, string>

    /** A directory that does not exist holds nothing. */
    ghost predicate Valid()
      reads this
    {
      !present ==> packages == map[]
    }

    constructor (present: bool, packages: map<string, string>)
      requires !present ==> packages == map[]
      ensures Valid() && this.present == present && this.packages == packages
    {
      this.present := present;
      this.packages := packages;
    }

    /** `shutil.rmtree(cache_dir)`. */
    method Remove()
      modifies this
      ensures Valid() && !present && packages == map[]
    {
      present := false;
      packages := map[];
    }

    /** `cache_dir.mkdir(parents=True, exist_ok=True)`: existing content is kept. */
    method Create()
      requires Valid()
      modifies this
      ensures Valid() && present && packages == old(packages)
    {
      present := true;
    }

    /** Create `cache_dir / name` and copy the descriptor into it, replacing an earlier copy. */
    method Store(name: string, content: string)
      requires Valid() && present
      modifies this
      ensures Valid() && present && packages == old(packages)[name := content]
    {
      packages := packages[name := content];
    }
  }

  /**
   * One `local` entry whose folder is `path`: check the folder, its
   * descriptor and the descriptor's validity, and copy the descriptor into
   * the cache under its own `name` when all three pass.
   */
  method CopyLocalPackage(path: string, fs: FileSystem, cache: CacheDirectory) returns (outcome: Outcome)
    requires cache.Valid() && cache.present
    modifies cache
    ensures cache.Valid() && cache.present
    ensures outcome == LocalOutcome(path, fs)
    ensures cache.packages == ApplyOutcome(old(cache.packages), outcome)
  {
    if path !in fs {
      return FolderNotFound(path);
    }
    if fs[path].Absent? {
      return DescriptorNotFound(path);
    }
    var verdict := VerifyYaml(fs[path]);
    if !verdict.isValid {
      return InvalidDescriptor(verdict.error.value);
    }
    var name := verdict.data.value["name"].s;
    cache.Store(name, fs[path].content);
    outcome := Copied(name, fs[path].content);
  }

  /**
   * One iteration of the loop: a `local` entry is copied or rejected, a
   * `git` entry is skipped, anything else is an unknown format, and an entry
   * the source cannot handle raises.
   */
  method ProcessEntry(entry: Value, manifestDir: string, fs: FileSystem, cache: CacheDirectory)
    returns (outcome: Outcome)
    requires cache.Valid() && cache.present
    modifies cache
    ensures cache.Valid() && cache.present
    ensures outcome == EntryOutcome(entry, manifestDir, fs)
    ensures cache.packages == ApplyOutcome(old(cache.packages), outcome)
  {
    match Classify(entry, manifestDir) {
      case LocalEntry(path) =>
        outcome := CopyLocalPackage(path, fs, cache);
      case GitEntry(url) =>
        outcome := SkippedGit(GitRepoName(url));
      case Unrecognised =>
        outcome := UnknownFormat;
      case Malformed(error) =>
        outcome := Raised(error);
    }
  }

  /**
   * `outcomes` is what the loop makes of `entries`: one outcome per entry, in
   * order, ending right after the first entry that raises, or after the last
   * entry when none does.
   */
  predicate IsRun(entries: seq<Value>, manifestDir: string, fs: FileSystem, outcomes: seq<Outcome>) {
    && |outcomes| <= |entries|
    && (forall k :: 0 <= k < |outcomes| ==> outcomes[k] == EntryOutcome(entries[k], manifestDir, fs))
    && (forall k :: 0 <= k < |outcomes| - 1 ==> !outcomes[k].Raised?)
    && (|outcomes| < |entries| ==> |outcomes| > 0 && outcomes[|outcomes| - 1].Raised?)
  }

  /** The index of the first entry from `from` on that raises, or `|entries|` when none does. */
  function FirstRaise(entries: seq<Value>, manifestDir: string, fs: FileSystem, from: nat): (k: nat)
    requires from <= |entries|
    ensures from <= k <= |entries|
    decreases |entries| - from
  {
    if from == |entries| || EntryOutcome(entries[from], manifestDir, fs).Raised? then from
    else FirstRaise(entries, manifestDir, fs, from + 1)
  }

  /** `k` is the first raising entry from `from` on when none before it raises and it does (or is the end). */
  lemma {:induction false} FirstRaiseIs(entries: seq<Value>, manifestDir: string, fs: FileSystem, from: nat, k: nat)
    requires from <= k <= |entries|
    requires forall j :: from <= j < k ==> !EntryOutcome(entries[j], manifestDir, fs).Raised?
    requires k < |entries| ==> EntryOutcome(entries[k], manifestDir, fs).Raised?
    ensures FirstRaise(entries, manifestDir, fs, from) == k
    decreases k - from
  {
    if from < k {
      FirstRaiseIs(entries, manifestDir, fs, from + 1, k);
    }
  }

  /** A run stops right after the first entry that raises, or at the end of the entries. */
  lemma RunLength(entries: seq<Value>, manifestDir: string, fs: FileSystem, outcomes: seq<Outcome>)
    requires IsRun(entries, manifestDir, fs, outcomes)
    ensures var k := FirstRaise(entries, manifestDir, fs, 0);
      |outcomes| == if k < |entries| then k + 1 else |entries|
  {
    var n := |outcomes|;
    if n > 0 && outcomes[n - 1].Raised? {
      FirstRaiseIs(entries, manifestDir, fs, 0, n - 1);
    } else {
      FirstRaiseIs(entries, manifestDir, fs, 0, n);
    }
  }

  /** The entries, directory and file system fix the run: `IsRun` has one solution. */
  lemma IsRunIsDeterministic(entries: seq<Value>, manifestDir: string, fs: FileSystem,
                             o1: seq<Outcome>, o2: seq<Outcome>)
    requires IsRun(entries, manifestDir, fs, o1) && IsRun(entries, manifestDir, fs, o2)
    ensures o1 == o2
  {
    RunLength(entries, manifestDir, fs, o1);
    RunLength(entries, manifestDir, fs, o2);
  }

  /**
   * Gathering the same entries twice without `clean`: the second run finds
   * the cache the first one left and leaves it as it is.
   */
  lemma SecondRunLeavesCacheUnchanged(entries: seq<Value>, manifestDir: string, fs: FileSystem,
                                      cache: map<string, string>, first: seq<Outcome>, second: seq<Outcome>)
    requires IsRun(entries, manifestDir, fs, first) && IsRun(entries, manifestDir, fs, second)
    ensures ApplyAll(ApplyAll(cache, first), second) == ApplyAll(cache, first)
  {
    IsRunIsDeterministic(entries, manifestDir, fs, first, second);
    RerunIsIdempotent(cache, first);
  }

  /** When no entry raises, every entry is processed. */
  lemma WellFormedEntriesRunToTheEnd(entries: seq<Value>, manifestDir: string, fs: FileSystem, outcomes: seq<Outcome>)
    requires IsRun(entries, manifestDir, fs, outcomes)
    requires forall e :: e in entries ==> WellFormedEntry(e)
    ensures |outcomes| == |entries|
    ensures forall k :: 0 <= k < |outcomes| ==> !outcomes[k].Raised?
  {
    forall k | 0 <= k < |outcomes|
      ensures !outcomes[k].Raised?
    {
      assert entries[k] in entries;
      EntryOutcomeFollowsBranch(entries[k], manifestDir, fs);
    }
  }

  /**
   * The first entry that raises ends the run: the entries after it are
   * never looked at. A null entry raises `TypeError` (`'local' in None`).
   */
  lemma FirstMalformedEntryStopsTheRun(entries: seq<Value>, manifestDir: string, fs: FileSystem,
                                       outcomes: seq<Outcome>, i: nat)
    requires IsRun(entries, manifestDir, fs, outcomes)
    requires i < |entries| && !WellFormedEntry(entries[i])
    requires forall j :: 0 <= j < i ==> WellFormedEntry(entries[j])
    ensures |outcomes| == i + 1 && outcomes[i].Raised?
    ensures entries[i] == Null ==> outcomes[i] == Raised(TypeError)
  {
    forall j | 0 <= j < i
      ensures !EntryOutcome(entries[j], manifestDir, fs).Raised?
    {
      EntryOutcomeFollowsBranch(entries[j], manifestDir, fs);
    }
    EntryOutcomeFollowsBranch(entries[i], manifestDir, fs);
  }

  /**
   * The loop of `gather_packages_from_manifest` over the entries, in order,
   * into a cache directory that exists. An entry that raises ends it.
   */
  method GatherEntries(entries: seq<Value>, manifestDir: string, fs: FileSystem, cache: CacheDirectory)
    returns (copied: nat, skipped: nat, errors: nat, outcomes: seq<Outcome>)
    requires cache.Valid() && cache.present
    modifies cache
    ensures cache.Valid() && cache.present
    ensures IsRun(entries, manifestDir, fs, outcomes)
    ensures copied == Count(outcomes, CopiedTally)
    ensures skipped == Count(outcomes, SkippedTally)
    ensures errors == Count(outcomes, ErrorTally)
    ensures cache.packages == ApplyAll(old(cache.packages), outcomes)
  {
    copied, skipped, errors, outcomes := 0, 0, 0, [];
    ghost var start := cache.packages;
    var i := 0;
    while i < |entries| && (i == 0 || !outcomes[i - 1].Raised?)
      invariant i <= |entries| && |outcomes| == i
      invariant forall k :: 0 <= k < i ==> outcomes[k] == EntryOutcome(entries[k], manifestDir, fs)
      invariant forall k :: 0 <= k < i - 1 ==> !outcomes[k].Raised?
      invariant copied == Count(outcomes, CopiedTally)
      invariant skipped == Count(outcomes, SkippedTally)
      invariant errors == Count(outcomes, ErrorTally)
      invariant cache.Valid() && cache.present && cache.packages == ApplyAll(start, outcomes)
    {
      copied, skipped, errors, outcomes := GatherEntry(entries[i], manifestDir, fs, cache, copied, skipped, errors, outcomes, start);
      i := i + 1;
    }
  }

  /**
   * One pass of the loop body: process the entry, bump the counter its
   * outcome falls under, and record the outcome.
   */
  method GatherEntry(entry: Value, manifestDir: string, fs: FileSystem, cache: CacheDirectory,
                     copied: nat, skipped: nat, errors: nat, outcomes: seq<Outcome>, ghost start: map<string, string>)
    returns (copied': nat, skipped': nat, errors': nat, outcomes': seq<Outcome>)
    requires cache.Valid() && cache.present && cache.packages == ApplyAll(start, outcomes)
    requires copied == Count(outcomes, CopiedTally)
    requires skipped == Count(outcomes, SkippedTally)
    requires errors == Count(outcomes, ErrorTally)
    modifies cache
    ensures cache.Valid() && cache.present && cache.packages == ApplyAll(start, outcomes')
    ensures outcomes' == outcomes + [EntryOutcome(entry, manifestDir, fs)]
    ensures copied' == Count(outcomes', CopiedTally)
    ensures skipped' == Count(outcomes', SkippedTally)
    ensures errors' == Count(outcomes', ErrorTally)
  {
    var outcome := ProcessEntry(entry, manifestDir, fs, cache);
    copied', skipped', errors' := copied, skipped, errors;
    match TallyOf(outcome) {
      case CopiedTally => copied' := copied + 1;
      case SkippedTally => skipped' := skipped + 1;
      case ErrorTally => errors' := errors + 1;
      case RaisedTally =>
    }
    AppendOutcome(start, outcomes, outcome);
    outcomes' := outcomes + [outcome];
  }

  /**
   * `gather_packages_from_manifest`. Returns the three counters and the
   * per-entry outcomes (the source returns the first and prints the rest),
   * and whether it raised. An empty package list returns before the cache
   * is cleaned or created; a `packages` value `len` rejects raises after.
   */
  method GatherPackagesFromManifest(manifest: map<string, Value>, manifestDir: string, fs: FileSystem,
                                    cache: CacheDirectory, clean: bool)
    returns (copied: nat, skipped: nat, errors: nat, outcomes: seq<Outcome>, raised: bool)
    requires WellFormedManifest(manifest) && cache.Valid()
    modifies cache
    ensures cache.Valid()
    ensures PackageList(manifest).None? ==> outcomes == []
    ensures PackageList(manifest).Some? ==> IsRun(PackageList(manifest).value, manifestDir, fs, outcomes)
    ensures raised <==> PackageList(manifest).None? || exists k :: 0 <= k < |outcomes| && outcomes[k].Raised?
    ensures copied == Count(outcomes, CopiedTally)
    ensures skipped == Count(outcomes, SkippedTally)
    ensures errors == Count(outcomes, ErrorTally)
    ensures PackageList(manifest) == Some([]) ==>
      cache.present == old(cache.present) && cache.packages == old(cache.packages)
    ensures PackageList(manifest) != Some([]) ==>
      cache.present && cache.packages == ApplyAll(if clean then map[] else old(cache.packages), outcomes)
  {
    var entries := PackageList(manifest);
    if entries == Some([]) {
      return 0, 0, 0, [], false;
    }
    if clean && cache.present {
      cache.Remove();
    }
    cache.Create();
    if entries.None? {
      return 0, 0, 0, [], true;
    }
    copied, skipped, errors, outcomes := GatherEntries(entries.value, manifestDir, fs, cache);
    raised := |outcomes| > 0 && outcomes[|outcomes| - 1].Raised?;
  }

}
