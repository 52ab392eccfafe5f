/** The orchestrator: `ImageUpdater.updateImageVersion` (src/updater.ts:28-72)
    with its git steps (src/updater.ts:74-77, 170-194), over an abstract
    repository state. */
module Updater {
  import opened Common
  import opened Text
  import opened YamlTree
  import opened Scanner
  import opened FileUpdate

  datatype UpdateRequest = UpdateRequest(image: string, version: string)

  /** `filesUpdated` and `commitHash` are present only on success. */
  datatype UpdateResult = UpdateResult(
    success: bool,
    message: string,
    filesUpdated: Option<seq<string>>,
    commitHash: Option<string>)

  /** The checkout on disk: its directory tree, its files, and the untracked
      paths `.gitignore` matches, which `git add .` does not stage. */
  datatype WorkTree = WorkTree(root: Listing, disk: Disk, ignored: set<Path>)

  /** A commit made by `git add .` then `git commit`: its message and the
      files it records. */
  datatype Commit = Commit(message: string, snapshot: map<Path, string>)

  /** What `git add .` stages: every file of the working tree except the
      ignored untracked ones, with its current text. */
  function Staged(w: WorkTree): map<Path, string>
  {
    map q | q in w.disk.files && q !in w.ignored :: w.disk.files[q]
  }

  /** The repository as this service changes it: the working tree, the commits
      it made (oldest first), and how many of them have been pushed. */
  datatype RepoState = RepoState(work: WorkTree, commits: seq<Commit>, pushed: nat)

  /** How each simple-git call of one request comes out; the model does not
      open git up. A successful pull hands over the new working tree; `log`
      gives the latest commit's hash, if any. */
  datatype GitEnv = GitEnv(
    pull: Result<WorkTree, Exception>,
    setUserName: Outcome,
    setUserEmail: Outcome,
    stageAll: Outcome,
    commit: Outcome,
    latest: Result<Option<string>, Exception>,
    push: Outcome)

  // ---------------------------------------------------------------------------
  // The strings of the result and of the commit.

  const RequiredMessage: string := "Both image and version are required"

  function NoMatchMessage(image: string): string
  {
    "No YAML files found containing image: " + image
  }

  function SuccessMessage(count: nat): string
  {
    "Successfully updated " + NatToString(count) + " files"
  }

  function ErrorMessage(e: Exception): string
  {
    "Error: " + ErrorText(e)
  }

  function Failure(message: string): UpdateResult
  {
    UpdateResult(false, message, None, None)
  }

  function Bullets(files: seq<string>): (lines: seq<string>)
    ensures |lines| == |files|
  {
    seq(|files|, k requires 0 <= k < |files| => "- " + files[k])
  }

  function Subject(image: string, version: string): string
  {
    "Update " + image + " to version " + version
  }

  /** The message `commitAndPushChanges` commits with. */
  function CommitMessage(image: string, version: string, files: seq<string>): string
  {
    Subject(image, version) + "\n\nUpdated files:\n" + Join(Bullets(files), "\n")
  }

  /** `logResult.latest?.hash || ''`: an absent latest commit gives "". */
  function HashOf(latest: Option<string>): string
  {
    match latest
    case None => ""
    case Some(h) => h
  }

  // ---------------------------------------------------------------------------
  // The request as functions of the state before it.

  /** `commitAndPushChanges`: set the author, stage everything, commit, read
      the hash, push. A step that throws ends it; a commit already made stays. */
  function CommitAndPush(s: RepoState, env: GitEnv, image: string, version: string, files: seq<string>)
    : (Result<string, Exception>, RepoState)
  {
    if env.setUserName.Threw? then (Err(env.setUserName.exception), s)
    else if env.setUserEmail.Threw? then (Err(env.setUserEmail.exception), s)
    else if env.stageAll.Threw? then (Err(env.stageAll.exception), s)
    else if env.commit.Threw? then (Err(env.commit.exception), s)
    else
      var committed := s.(commits := s.commits + [Commit(CommitMessage(image, version, files), Staged(s.work))]);
      match env.latest
      case Err(e) => (Err(e), committed)
      case Ok(latest) =>
        if env.push.Threw? then (Err(env.push.exception), committed)
        else (Ok(HashOf(latest)), committed.(pushed := |committed.commits|))
  }

  /** `updateImageVersion`: validate, pull, scan and update, give up when
      nothing changed, commit and push; every exception becomes a failure. */
  function Run(s: RepoState, req: UpdateRequest, env: GitEnv, yaml: YamlLibrary): (UpdateResult, RepoState)
  {
    if req.image == "" || req.version == "" then (Failure(RequiredMessage), s)
    else
      match env.pull
      case Err(e) => (Failure(ErrorMessage(e)), s)
      case Ok(w) =>
        var pulled := s.(work := w);
        match Scan([], w.root)
        case Err(e) => (Failure(ErrorMessage(e)), pulled)
        case Ok(paths) =>
          var (done, d) := UpdateAll(w.disk, paths, yaml, req.image, req.version);
          var written := pulled.(work := w.(disk := d));
          var files := RelativePaths(done);
          if |files| == 0 then (Failure(NoMatchMessage(req.image)), written)
          else
            var (hash, after) := CommitAndPush(written, env, req.image, req.version, files);
            match hash
            case Err(e) => (Failure(ErrorMessage(e)), after)
            case Ok(h) => (UpdateResult(true, SuccessMessage(|files|), Some(files), Some(h)), after)
  }

  // ---------------------------------------------------------------------------
  // What a request promises.

  /** An empty image or version fails at once: no pull, no update, no commit. */
  lemma RunRejectsEmptyFields(s: RepoState, req: UpdateRequest, env: GitEnv, yaml: YamlLibrary)
    requires req.image == "" || req.version == ""
    ensures Run(s, req, env, yaml) == (Failure(RequiredMessage), s)
  {
  }

  /** A failed pull fails the request and touches nothing. */
  lemma RunPullFails(s: RepoState, req: UpdateRequest, env: GitEnv, yaml: YamlLibrary)
    requires req.image != "" && req.version != ""
    requires env.pull.Err?
    ensures Run(s, req, env, yaml) == (Failure(ErrorMessage(env.pull.error)), s)
  {
  }

  /** A scan that throws fails the request with that error; the pulled tree
      is kept and nothing is written or committed. */
  lemma RunScanFails(s: RepoState, req: UpdateRequest, env: GitEnv, yaml: YamlLibrary)
    requires req.image != "" && req.version != "" && env.pull.Ok?
    requires Scan([], env.pull.value.root).Err?
    ensures Run(s, req, env, yaml) == (Failure(ErrorMessage(Scan([], env.pull.value.root).error)), s.(work := env.pull.value))
  {
  }

  /** No file updated: the request fails with the no-match message, no file is
      written and no commit is made. */
  lemma RunNoMatch(s: RepoState, req: UpdateRequest, env: GitEnv, yaml: YamlLibrary)
    requires req.image != "" && req.version != "" && env.pull.Ok?
    requires Scan([], env.pull.value.root).Ok?
    requires UpdateAll(env.pull.value.disk, Scan([], env.pull.value.root).value, yaml, req.image, req.version).0 == []
    ensures Run(s, req, env, yaml) == (Failure(NoMatchMessage(req.image)), s.(work := env.pull.value))
  {
    var w := env.pull.value;
    NothingRecordedNothingWritten(w.disk, Scan([], w.root).value, yaml, req.image, req.version);
  }

  /** A request that does not succeed carries neither files nor a hash, and
      says why: missing fields, no match, or the caught error's text. */
  lemma RunFailureShape(s: RepoState, req: UpdateRequest, env: GitEnv, yaml: YamlLibrary)
    requires !Run(s, req, env, yaml).0.success
    ensures var r := Run(s, req, env, yaml).0;
      r.filesUpdated.None? && r.commitHash.None? &&
      (r.message == RequiredMessage || r.message == NoMatchMessage(req.image) ||
       (|r.message| >= 7 && r.message[..7] == "Error: "))
  {
  }

  /** Success happens exactly when the fields are present, the pull, the scan
      and every git step go through, and some file was updated; the result then
      lists the updated files, counts them in its message, carries the hash git
      reports (possibly ""), and the state has one new pushed commit whose
      message names them and whose snapshot is what `git add .` stages of the
      updated working tree. */
  lemma RunSuccess(s: RepoState, req: UpdateRequest, env: GitEnv, yaml: YamlLibrary)
    ensures Run(s, req, env, yaml).0.success <==>
      && req.image != "" && req.version != ""
      && env.pull.Ok? && Scan([], env.pull.value.root).Ok?
      && UpdateAll(env.pull.value.disk, Scan([], env.pull.value.root).value, yaml, req.image, req.version).0 != []
      && env.setUserName.Done? && env.setUserEmail.Done? && env.stageAll.Done? && env.commit.Done?
      && env.latest.Ok? && env.push.Done?
    ensures Run(s, req, env, yaml).0.success ==>
      var (r, after) := Run(s, req, env, yaml);
      var w := env.pull.value;
      var (done, d) := UpdateAll(w.disk, Scan([], w.root).value, yaml, req.image, req.version);
      && r.filesUpdated == Some(RelativePaths(done))
      && |r.filesUpdated.value| > 0
      && r.message == SuccessMessage(|r.filesUpdated.value|)
      && r.commitHash == Some(HashOf(env.latest.value))
      && after.work == w.(disk := d)
      && after.commits == s.commits + [Commit(CommitMessage(req.image, req.version, r.filesUpdated.value), Staged(w.(disk := d)))]
      && after.pushed == |after.commits|
  {
  }

  /** On a checkout whose directories list distinct, valid names, a successful
      result lists each updated file once, in scan order, and the commit holds
      every file that is not ignored, each updated one with its dumped text and
      every other with its original text. */
  lemma RunSuccessFiles(s: RepoState, req: UpdateRequest, env: GitEnv, yaml: YamlLibrary)
    requires Run(s, req, env, yaml).0.success
    requires env.pull.Ok? && WellFormed(env.pull.value.root)
    ensures var (r, after) := Run(s, req, env, yaml);
      var w := env.pull.value;
      var paths := Scan([], w.root).value;
      var done := Selected(w.disk, paths, yaml, req.image, req.version);
      && r.filesUpdated == Some(RelativePaths(done))
      && NoDuplicates(r.filesUpdated.value)
      && (forall q :: q in done <==> q in paths && FileStep(w.disk, q, yaml, req.image, req.version).Rewritten?)
      && after.commits[|after.commits| - 1].snapshot.Keys == w.disk.files.Keys - w.ignored
      && (forall q :: q in w.disk.files && q !in w.ignored ==>
            after.commits[|after.commits| - 1].snapshot[q] == FinalText(w.disk, paths, q, yaml, req.image, req.version))
  {
    var w := env.pull.value;
    RunSuccess(s, req, env, yaml);
    var paths := Scan([], w.root).value;
    ScanRootWellFormed(w.root);
    UpdateAllSpec(w.disk, paths, yaml, req.image, req.version);
    SelectedMembers(w.disk, paths, yaml, req.image, req.version);
    SelectedNoDuplicates(w.disk, paths, yaml, req.image, req.version);
    var done := Selected(w.disk, paths, yaml, req.image, req.version);
    forall k | 0 <= k < |done|
      ensures |done[k]| > 0 && forall c :: 0 <= c < |done[k]| ==> ValidName(done[k][c])
    {
      assert done[k] in done;
    }
    RelativePathsDistinct(done);
  }

  /** `|| ''` lets a successful result carry an empty hash. */
  lemma SuccessMayCarryEmptyHash(s: RepoState, req: UpdateRequest, env: GitEnv, yaml: YamlLibrary)
    requires Run(s, req, env, yaml).0.success
    requires env.latest == Ok(None)
    ensures Run(s, req, env, yaml).0.commitHash == Some("")
  {
  }

  /** A rewritten manifest under an ignored, untracked path is reported in
      `filesUpdated` but is not part of the commit. */
  lemma IgnoredUpdateNotCommitted(s: RepoState, req: UpdateRequest, env: GitEnv, yaml: YamlLibrary, q: Path)
    requires Run(s, req, env, yaml).0.success
    requires env.pull.Ok?
    requires q in UpdateAll(env.pull.value.disk, Scan([], env.pull.value.root).value, yaml, req.image, req.version).0
    requires q in env.pull.value.ignored
    ensures var (r, after) := Run(s, req, env, yaml);
      RelativePath(q) in r.filesUpdated.value && q !in after.commits[|after.commits| - 1].snapshot
  {
    var w := env.pull.value;
    var done := UpdateAll(w.disk, Scan([], w.root).value, yaml, req.image, req.version).0;
    RunSuccess(s, req, env, yaml);
    RelativePathsAt(done);
    var k :| 0 <= k < |done| && done[k] == q;
    assert RelativePaths(done)[k] == RelativePath(q);
  }

  /** Files updated, then a git step before the commit throws: the request
      fails with that error, the rewritten files stay on disk, and no commit is
      made. */
  lemma RunFailsBeforeCommit(s: RepoState, req: UpdateRequest, env: GitEnv, yaml: YamlLibrary)
    requires req.image != "" && req.version != "" && env.pull.Ok?
    requires Scan([], env.pull.value.root).Ok?
    requires UpdateAll(env.pull.value.disk, Scan([], env.pull.value.root).value, yaml, req.image, req.version).0 != []
    requires env.setUserName.Threw? || env.setUserEmail.Threw? || env.stageAll.Threw? || env.commit.Threw?
    ensures var (r, after) := Run(s, req, env, yaml);
      var w := env.pull.value;
      var d := UpdateAll(w.disk, Scan([], w.root).value, yaml, req.image, req.version).1;
      var thrown :=
        if env.setUserName.Threw? then env.setUserName.exception
        else if env.setUserEmail.Threw? then env.setUserEmail.exception
        else if env.stageAll.Threw? then env.stageAll.exception
        else env.commit.exception;
      && r == Failure(ErrorMessage(thrown))
      && after == s.(work := w.(disk := d))
  {
  }

  /** Files updated and committed, then `log` or `push` throws: the request
      fails with that error, nothing is reverted, and the new commit stays
      unpushed. */
  lemma RunFailsAfterCommit(s: RepoState, req: UpdateRequest, env: GitEnv, yaml: YamlLibrary)
    requires req.image != "" && req.version != "" && env.pull.Ok?
    requires Scan([], env.pull.value.root).Ok?
    requires UpdateAll(env.pull.value.disk, Scan([], env.pull.value.root).value, yaml, req.image, req.version).0 != []
    requires env.setUserName.Done? && env.setUserEmail.Done? && env.stageAll.Done? && env.commit.Done?
    requires env.latest.Err? || env.push.Threw?
    ensures var (r, after) := Run(s, req, env, yaml);
      var w := env.pull.value;
      var (done, d) := UpdateAll(w.disk, Scan([], w.root).value, yaml, req.image, req.version);
      && r == Failure(ErrorMessage(if env.latest.Err? then env.latest.error else env.push.exception))
      && after.work == w.(disk := d)
      && after.commits == s.commits + [Commit(CommitMessage(req.image, req.version, RelativePaths(done)), Staged(w.(disk := d)))]
      && after.pushed == s.pushed
  {
  }

  /** The message is the join of its lines with "\n". */
  lemma CommitMessageJoin(image: string, version: string, files: seq<string>)
    requires |files| > 0
    ensures Join([Subject(image, version), "", "Updated files:"] + Bullets(files), "\n")
         == CommitMessage(image, version, files)
  {
    var bullets := Bullets(files);
    var tail := Join(bullets, "\n");
    JoinCons("Updated files:", bullets, "\n");
    assert [""] + (["Updated files:"] + bullets) == ["", "Updated files:"] + bullets;
    JoinCons("", ["Updated files:"] + bullets, "\n");
    assert [Subject(image, version)] + (["", "Updated files:"] + bullets)
        == [Subject(image, version), "", "Updated files:"] + bullets;
    JoinCons(Subject(image, version), ["", "Updated files:"] + bullets, "\n");
    var header: string := "\n\nUpdated files:\n";
    assert header == "\n" + "\nUpdated files:\n";
    assert "\nUpdated files:\n" == "\n" + "Updated files:" + "\n";
    var title: string := "Updated files:";
    assert "" + "\n" == "\n";
    assert "\n" + (title + "\n" + tail) == "\n" + title + "\n" + tail;
    assert "\n" + ("\n" + title + "\n" + tail) == header + tail;
  }

  /** The commit message, read line by line, is the subject, a blank line,
      "Updated files:" and one "- " line per updated file, in order, provided
      no name contains a line break. */
  lemma CommitMessageLines(image: string, version: string, files: seq<string>)
    requires |files| > 0
    requires '\n' !in image && '\n' !in version
    requires forall k :: 0 <= k < |files| ==> '\n' !in files[k]
    ensures Split(CommitMessage(image, version, files), '\n')
         == [Subject(image, version), "", "Updated files:"] + Bullets(files)
  {
    var lines := [Subject(image, version), "", "Updated files:"] + Bullets(files);
    CommitMessageJoin(image, version, files);
    forall k | 0 <= k < |lines|
      ensures '\n' !in lines[k]
    {
      if k >= 3 {
        assert lines[k] == "- " + files[k - 3];
      }
    }
    SplitJoin(lines, '\n');
  }

  // ---------------------------------------------------------------------------
  // The updater as the source writes it: an object over the checkout whose
  // methods run the steps one after another, returning early on failure.

  class ImageUpdater {
    var work: WorkTree
    var commits: seq<Commit>
    var pushed: nat

    function State(): RepoState
      reads this
    {
      RepoState(work, commits, pushed)
    }

    constructor (checkout: WorkTree)
      ensures State() == RepoState(checkout, [], 0)
    {
      work := checkout;
      commits := [];
      pushed := 0;
    }

    method UpdateImageVersion(request: UpdateRequest, env: GitEnv, yaml: YamlLibrary) returns (result: UpdateResult)
      modifies this
      ensures (result, State()) == Run(old(State()), request, env, yaml)
    {
      if request.image == "" || request.version == "" {
        return Failure(RequiredMessage);
      }
      var pulled := PullLatestChanges(env);
      if pulled.Threw? {
        return Failure(ErrorMessage(pulled.exception));
      }
      var updated := UpdateYamlFiles(request.image, request.version, yaml);
      if updated.Err? {
        return Failure(ErrorMessage(updated.error));
      }
      var updatedFiles := updated.value;
      if |updatedFiles| == 0 {
        return Failure(NoMatchMessage(request.image));
      }
      var committed := CommitAndPushChanges(request.image, request.version, updatedFiles, env);
      if committed.Err? {
        return Failure(ErrorMessage(committed.error));
      }
      return UpdateResult(true, SuccessMessage(|updatedFiles|), Some(updatedFiles), Some(committed.value));
    }

    method PullLatestChanges(env: GitEnv) returns (o: Outcome)
      modifies this
      ensures env.pull.Err? ==> o == Threw(env.pull.error) && State() == old(State())
      ensures env.pull.Ok? ==> o == Done && State() == old(State()).(work := env.pull.value)
    {
      match env.pull
      case Err(e) =>
        o := Threw(e);
      case Ok(w) =>
        work := w;
        o := Done;
    }

    /** Scan, then update file by file; a file that throws is skipped. */
    method UpdateYamlFiles(image: string, version: string, yaml: YamlLibrary) returns (r: Result<seq<string>, Exception>)
      modifies this
      ensures commits == old(commits) && pushed == old(pushed)
      ensures Scan([], old(work.root)).Err? ==> r == Err(Scan([], old(work.root)).error) && work == old(work)
      ensures Scan([], old(work.root)).Ok? ==>
        var (done, d) := UpdateAll(old(work.disk), Scan([], old(work.root)).value, yaml, image, version);
        r == Ok(RelativePaths(done)) && work == old(work).(disk := d)
    {
      var found := FindYamlFiles([], work.root);
      if found.Err? {
        return Err(found.error);
      }
      var yamlFiles := found.value;
      var updatedFiles: seq<string> := [];
      ghost var done: seq<Path> := [];
      for i := 0 to |yamlFiles|
        invariant (done, work.disk) == UpdateAll(old(work.disk), yamlFiles[..i], yaml, image, version)
        invariant updatedFiles == RelativePaths(done)
        invariant commits == old(commits) && pushed == old(pushed)
        invariant work.root == old(work.root) && work.ignored == old(work.ignored)
      {
        assert yamlFiles[..i + 1][..i] == yamlFiles[..i];
        var wasUpdated := UpdateSingleYamlFile(yamlFiles[i], image, version, yaml);
        if wasUpdated == Some(true) {
          updatedFiles := updatedFiles + [RelativePath(yamlFiles[i])];
          done := done + [yamlFiles[i]];
        }
      }
      assert yamlFiles[..|yamlFiles|] == yamlFiles;
      return Ok(updatedFiles);
    }

    /** Some(true) when the file was rewritten, Some(false) when its dump
        equals its text, None when reading, parsing, dumping or writing threw. */
    method UpdateSingleYamlFile(p: Path, image: string, version: string, yaml: YamlLibrary) returns (r: Option<bool>)
      modifies this
      ensures var o := FileStep(old(work.disk), p, yaml, image, version);
        r == (if o.Skipped? then None else Some(o.Rewritten?)) &&
        work == old(work).(disk := Write(old(work.disk), p, o))
      ensures commits == old(commits) && pushed == old(pushed)
    {
      if p !in work.disk.files {
        return None;
      }
      var content := work.disk.files[p];
      var loaded := yaml.load(content);
      if loaded.Err? {
        return None;
      }
      var updatedYamlContent := UpdateYamlContent(loaded.value, image, version);
      var dumped := yaml.dump(updatedYamlContent);
      if dumped.Err? {
        return None;
      }
      var newYamlContent := dumped.value;
      if newYamlContent != content {
        if p in work.disk.readOnly {
          return None;
        }
        work := work.(disk := work.disk.(files := work.disk.files[p := newYamlContent]));
        return Some(true);
      }
      return Some(false);
    }

    method CommitAndPushChanges(image: string, version: string, filesUpdated: seq<string>, env: GitEnv)
      returns (r: Result<string, Exception>)
      modifies this
      ensures (r, State()) == CommitAndPush(old(State()), env, image, version, filesUpdated)
    {
      if env.setUserName.Threw? {
        return Err(env.setUserName.exception);
      }
      if env.setUserEmail.Threw? {
        return Err(env.setUserEmail.exception);
      }
      if env.stageAll.Threw? {
        return Err(env.stageAll.exception);
      }
      var commitMessage := CommitMessage(image, version, filesUpdated);
      if env.commit.Threw? {
        return Err(env.commit.exception);
      }
      commits := commits + [Commit(commitMessage, Staged(work))];
      if env.latest.Err? {
        return Err(env.latest.error);
      }
      var commitHash := HashOf(env.latest.value);
      if env.push.Threw? {
        return Err(env.push.exception);
      }
      pushed := |commits|;
      return Ok(commitHash);
    }
  }
}
