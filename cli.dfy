/**
 * The computable parts of the gatherer's entry point: where the cache
 * directory is, the process exit status, and the run that ties loading,
 * gathering and exiting together.
 */
module Cli {

  import opened Options
  import opened PyStrings
  import opened Yaml
  import opened Gather

  /** The manifest key naming the cache folder, spelled as the source spells it. */
  const CacheFolderKey := "pachages_cache_folder"

  /** The cache folder used when the manifest names none. */
  const DefaultCacheFolder := "./.cache"

  /** `Path(p).is_absolute()` for a POSIX path. */
  predicate IsAbsolute(p: string) {
    |p| > 0 && p[0] == '/'
  }

  /** `manifest_dir / p` for a relative `p`: the directory, one `/`, then `p`. */
  function JoinPath(dir: string, p: string): (r: string)
    requires !IsAbsolute(p)
    ensures |r| > |p| && r[|r| - |p|..] == p && r[|r| - |p| - 1] == '/'
    ensures r[..|r| - |p|] == dir || r[..|r| - |p|] == dir + "/"
    ensures dir != [] && dir[|dir| - 1] == '/' ==> r == dir + p
    ensures IsAbsolute(dir) ==> IsAbsolute(r)
  {
    if dir != [] && dir[|dir| - 1] == '/' then dir + p else dir + "/" + p
  }

  /**
   * The cache directory `main` passes on: the manifest's cache folder (or
   * `./.cache`) with the manifest-directory variable substituted, used as
   * is when absolute and joined onto the manifest's directory otherwise.
   * `None` when the manifest gives a folder that is not a string, on which
   * `.replace` raises before gathering.
   */
  function CacheDirectoryPath(manifest: map<string, Value>, manifestDir: string): (r: Option<string>)
    ensures r.None? <==> CacheFolderKey in manifest && !manifest[CacheFolderKey].Str?
    ensures CacheFolderKey !in manifest ==> r == Some(JoinPath(manifestDir, DefaultCacheFolder))
    ensures r.Some? && IsAbsolute(manifestDir) ==> IsAbsolute(r.value)
    ensures CacheFolderKey in manifest && manifest[CacheFolderKey].Str? ==>
      var folder := SubstituteManifestDir(manifest[CacheFolderKey].s, manifestDir);
      r.Some? && (if IsAbsolute(folder) then r.value == folder else r.value == JoinPath(manifestDir, folder))
  {
    var raw := if CacheFolderKey in manifest then manifest[CacheFolderKey] else Str(DefaultCacheFolder);
    if !raw.Str? then None
    else
      var folder := SubstituteManifestDir(raw.s, manifestDir);
      Some(if IsAbsolute(folder) then folder else JoinPath(manifestDir, folder))
  }

  /** Without a cache folder in the manifest, the cache is `.cache` beside the manifest. */
  lemma DefaultCacheBesideManifest(manifest: map<string, Value>, manifestDir: string)
    requires CacheFolderKey !in manifest
    requires manifestDir != [] && manifestDir[|manifestDir| - 1] != '/'
    ensures CacheDirectoryPath(manifest, manifestDir) == Some(manifestDir + "/" + DefaultCacheFolder)
  {
    assert SubstituteManifestDir(DefaultCacheFolder, manifestDir) == DefaultCacheFolder;
  }

  /**
   * A cache folder `${CUR_MANIFEST_FILE_DIR}<rest>`, with an absolute manifest
   * directory, names `<rest>` inside that directory and is used as is.
   */
  lemma CacheFolderFromManifestDirToken(manifest: map<string, Value>, manifestDir: string, rest: string)
    requires CacheFolderKey in manifest && manifest[CacheFolderKey] == Str(ManifestDirToken + rest)
    requires IsAbsolute(manifestDir) && !Occurs(rest, ManifestDirToken)
    ensures CacheDirectoryPath(manifest, manifestDir) == Some(manifestDir + rest)
  {
    SubstituteLeadingToken(rest, manifestDir);
    SubstituteWithoutToken(rest, manifestDir);
  }

  /**
   * A relative cache folder without the variable is joined onto the manifest
   * directory: `cache` beside `/work/manifest.yaml` is `/work/cache`.
   */
  lemma RelativeCacheFolderJoined(manifest: map<string, Value>, manifestDir: string, folder: string)
    requires CacheFolderKey in manifest && manifest[CacheFolderKey] == Str(folder)
    requires !IsAbsolute(folder) && !Occurs(folder, ManifestDirToken)
    requires manifestDir != [] && manifestDir[|manifestDir| - 1] != '/'
    ensures CacheDirectoryPath(manifest, manifestDir) == Some(manifestDir + "/" + folder)
  {
    SubstituteWithoutToken(folder, manifestDir);
  }

  /** `sys.exit(0 if count > 0 else 1)`. */
  function ExitStatus(copied: nat): (status: int)
    ensures status == 0 || status == 1
    ensures status == 0 <==> copied > 0
  {
    if copied > 0 then 0 else 1
  }

  /**
   * The process succeeds exactly when some entry was copied, however many
   * entries failed.
   */
  lemma ExitStatusReportsAnyCopy(outcomes: seq<Outcome>)
    ensures ExitStatus(Count(outcomes, CopiedTally)) == 0 <==> exists i :: 0 <= i < |outcomes| && outcomes[i].Copied?
  {
    CountPositiveIffPresent(outcomes, CopiedTally);
    assert forall i :: 0 <= i < |outcomes| ==> (TallyOf(outcomes[i]) == CopiedTally <==> outcomes[i].Copied?);
  }

  /**
   * `main` after the manifest is loaded: resolve the cache directory, gather
   * into `cache` (the directory found there), and compute the exit status.
   * A cache folder that is not a string stops the run before anything is
   * gathered, and an exception out of the gathering ends the process; both
   * exit with status 1, as an uncaught Python exception does.
   */
  method Run(manifest: map<string, Value>, manifestDir: string, fs: FileSystem, cache: CacheDirectory, clean: bool)
    returns (status: int, outcomes: seq<Outcome>)
    requires WellFormedManifest(manifest) && cache.Valid()
    modifies cache
    ensures cache.Valid()
    ensures status == 0 || status == 1
    ensures CacheDirectoryPath(manifest, manifestDir).None? ==>
      status == 1 && outcomes == [] && cache.present == old(cache.present) && cache.packages == old(cache.packages)
    ensures CacheDirectoryPath(manifest, manifestDir).Some? ==>
      && (PackageList(manifest).None? ==> outcomes == [])
      && (PackageList(manifest).Some? ==> IsRun(PackageList(manifest).value, manifestDir, fs, outcomes))
      && (PackageList(manifest) == Some([]) ==>
            cache.present == old(cache.present) && cache.packages == old(cache.packages))
      && (PackageList(manifest) != Some([]) ==>
            cache.present && cache.packages == ApplyAll(if clean then map[] else old(cache.packages), outcomes))
    ensures status == 0 <==>
      && (exists i :: 0 <= i < |outcomes| && outcomes[i].Copied?)
      && (forall i :: 0 <= i < |outcomes| ==> !outcomes[i].Raised?)
  {
    var cachePath := CacheDirectoryPath(manifest, manifestDir);
    if cachePath.None? {
      return 1, [];
    }
    var copied, skipped, errors, raised;
    copied, skipped, errors, outcomes, raised := GatherPackagesFromManifest(manifest, manifestDir, fs, cache, clean);
    if raised {
      status := 1;
    } else {
      status := ExitStatus(copied);
      ExitStatusReportsAnyCopy(outcomes);
    }
  }

}
