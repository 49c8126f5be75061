/** Locating a submission's files in its directory (`validator/core/artifacts.py`). The
    directory is its listing: the names of the regular files and of everything else
    (directories and other entries) directly inside it. */
module Artifacts {
  import opened Wrappers
  import opened Text

  /** The entries of one directory, by name. `files` are the entries `is_file` accepts;
      `others` are the remaining entries, which `exists` still sees. */
  datatype Listing = Listing(files: set<string>, others: set<string>)
  {
    /** `(dir / name).exists()`. */
    predicate Exists(name: string)
    {
      name in files || name in others
    }

    /** The names `glob("*.zip")` finds that are regular files. */
    function ZipFiles(): (zips: set<string>)
      ensures forall n :: n in zips <==> n in files && EndsWith(n, ".zip")
    {
      set n | n in files && EndsWith(n, ".zip")
    }
  }

  /** Why a submission directory cannot be used. */
  datatype LoadError = NoRepoZip | MultipleZips | MissingRequired(name: string)
  {
    /** The message of the `FileNotFoundError` raised. */
    function Message(): string
    {
      match this
      case NoRepoZip => "No repo.zip found (and no single *.zip to infer)."
      case MultipleZips => "Multiple *.zip files found; rename the repo zip to repo.zip."
      case MissingRequired(name) => "Missing required file: " + name
    }
  }

  /** `SubmissionArtifacts`: the resolved paths; the optional files are `None` when absent. */
  datatype SubmissionArtifacts = SubmissionArtifacts(
    dirPath: string,
    repoZip: string,
    dockerfile: string,
    testPatch: string,
    solutionPatch: string,
    description: Option<string>,
    policy: Option<string>)

  /** The files a submission cannot do without, in the order they are checked. */
  const RequiredFiles: seq<string> := ["Dockerfile.problem", "test.patch", "solution.patch"]

  /** `dir_path / name`. */
  function Join(dir: string, name: string): string
  {
    dir + "/" + name
  }

  /** A set with one element is that element's singleton. */
  lemma SingletonSet<T>(s: set<T>, x: T)
    requires |s| == 1 && x in s
    ensures s == {x}
  {
    var rest := s - {x};
    assert |rest| == 0;
  }

  /** `_find_repo_zip`: repo.zip wins; otherwise the one and only zip file; otherwise an
      error telling whether there was no zip or more than one. */
  function FindRepoZip(dir: string, listing: Listing): (r: Result<string, LoadError>)
    ensures listing.Exists("repo.zip") ==> r == Success(Join(dir, "repo.zip"))
    ensures !listing.Exists("repo.zip") && r.Success? ==>
              && |r.value| > |dir|
              && r.value == Join(dir, r.value[|dir| + 1..])
              && listing.ZipFiles() == {r.value[|dir| + 1..]}
    ensures !listing.Exists("repo.zip") ==>
              (r.Success? <==> |listing.ZipFiles()| == 1)
              && (r == Failure(NoRepoZip) <==> listing.ZipFiles() == {})
              && (r == Failure(MultipleZips) <==> |listing.ZipFiles()| > 1)
  {
    if listing.Exists("repo.zip") then Success(Join(dir, "repo.zip"))
    else
      var zips := listing.ZipFiles();
      if |zips| == 1 then
        var z :| z in zips;
        assert forall y | y in zips :: y == z by { SingletonSet(zips, z); }
        assert Join(dir, z)[|dir| + 1..] == z;
        SingletonSet(zips, z);
        Success(Join(dir, z))
      else if |zips| == 0 then Failure(NoRepoZip)
      else Failure(MultipleZips)
  }

  /** Every one of the first `k` names exists. */
  ghost predicate ExistBefore(listing: Listing, names: seq<string>, k: nat)
    requires k <= |names|
  {
    forall i :: 0 <= i < k ==> listing.Exists(names[i])
  }

  lemma ExistBeforeShift(listing: Listing, names: seq<string>, k: nat)
    requires 0 < |names| && listing.Exists(names[0])
    requires k < |names| && ExistBefore(listing, names[1..], k)
    ensures ExistBefore(listing, names, k + 1)
  {
  }

  /** The position of the first name, in check order, that does not exist, if any. */
  function FirstMissing(listing: Listing, names: seq<string>): (r: Option<nat>)
    ensures r.None? <==> ExistBefore(listing, names, |names|)
    ensures r.Some? ==>
              && r.value < |names|
              && !listing.Exists(names[r.value])
              && ExistBefore(listing, names, r.value)
  {
    if names == [] then None
    else if !listing.Exists(names[0]) then Some(0)
    else
      match FirstMissing(listing, names[1..])
      case None =>
        ExistBeforeShift(listing, names, |names| - 1);
        None
      case Some(k) =>
        ExistBeforeShift(listing, names, k);
        Some(k + 1)
  }

  /** `load_artifacts_from_dir`: resolve the archive first, then check the required files
      in order, then record the optional description and policy files. */
  function LoadArtifacts(dir: string, listing: Listing): (r: Result<SubmissionArtifacts, LoadError>)
    ensures FindRepoZip(dir, listing).Failure? ==> r == Failure(FindRepoZip(dir, listing).error)
    ensures FindRepoZip(dir, listing).Success? ==>
              match FirstMissing(listing, RequiredFiles)
              case Some(k) => r == Failure(MissingRequired(RequiredFiles[k]))
              case None => r.Success?
    ensures r.Success? ==>
              && r.value.dirPath == dir
              && r.value.repoZip == FindRepoZip(dir, listing).value
              && r.value.dockerfile == Join(dir, "Dockerfile.problem")
              && r.value.testPatch == Join(dir, "test.patch")
              && r.value.solutionPatch == Join(dir, "solution.patch")
              && (r.value.description.Some? <==> listing.Exists("description.txt"))
              && (r.value.description.Some? ==> r.value.description.value == Join(dir, "description.txt"))
              && (r.value.policy.Some? <==> listing.Exists("validator.toml"))
              && (r.value.policy.Some? ==> r.value.policy.value == Join(dir, "validator.toml"))
  {
    match FindRepoZip(dir, listing)
    case Failure(e) => Failure(e)
    case Success(repoZip) =>
      match FirstMissing(listing, RequiredFiles)
      case Some(k) => Failure(MissingRequired(RequiredFiles[k]))
      case None =>
        Success(SubmissionArtifacts(
          dir, repoZip,
          Join(dir, "Dockerfile.problem"), Join(dir, "test.patch"), Join(dir, "solution.patch"),
          if listing.Exists("description.txt") then Some(Join(dir, "description.txt")) else None,
          if listing.Exists("validator.toml") then Some(Join(dir, "validator.toml")) else None))
  }

  /** Loading succeeds exactly when the archive resolves and every required file exists. */
  lemma LoadArtifactsSucceedsIff(dir: string, listing: Listing)
    ensures LoadArtifacts(dir, listing).Success? <==>
              && (listing.Exists("repo.zip") || |listing.ZipFiles()| == 1)
              && listing.Exists("Dockerfile.problem")
              && listing.Exists("test.patch")
              && listing.Exists("solution.patch")
  {
    var m := FirstMissing(listing, RequiredFiles);
    if m.None? {
      assert listing.Exists(RequiredFiles[0]) && listing.Exists(RequiredFiles[1]) && listing.Exists(RequiredFiles[2]);
    }
  }

  /** A missing-file error names the first required file, in check order, that is absent. */
  lemma MissingFileIsFirstAbsent(dir: string, listing: Listing)
    requires LoadArtifacts(dir, listing).Failure? && LoadArtifacts(dir, listing).error.MissingRequired?
    ensures var name := LoadArtifacts(dir, listing).error.name;
            && !listing.Exists(name)
            && (name == "Dockerfile.problem" || name == "test.patch" || name == "solution.patch")
            && (name != "Dockerfile.problem" ==> listing.Exists("Dockerfile.problem"))
            && (name == "solution.patch" ==> listing.Exists("test.patch"))
  {
    var m := FirstMissing(listing, RequiredFiles);
    var k := m.value;
    if k > 0 {
      assert listing.Exists(RequiredFiles[0]);
    }
    if k == 2 {
      assert listing.Exists(RequiredFiles[1]);
    }
  }

  /** An archive error hides missing required files: with no zip at all, the error is
      `NoRepoZip` even in an empty directory. */
  lemma ArchiveErrorFirst(dir: string)
    ensures LoadArtifacts(dir, Listing({}, {})) == Failure(NoRepoZip)
  {
  }
}
