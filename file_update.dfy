/** The per-file update: `updateSingleYamlFile` (src/updater.ts:121-142) and the
    loop of `updateYamlFiles` over the scanned paths (src/updater.ts:79-97). */
module FileUpdate {
  import opened Common
  import opened YamlTree
  import opened Scanner
  import Text

  /** js-yaml's `load` and `dump(_, { lineWidth: -1 })`, left uninterpreted:
      each returns a value or throws. */
  datatype YamlLibrary = YamlLibrary(
    load: string -> Result<Node, Exception>,
    dump: Node -> Result<string, Exception>)

  /** The files of the checkout: the text `readFileSync` returns for each
      readable path, and the paths whose `writeFileSync` throws. */
  datatype Disk = Disk(files: map<Path, string>, readOnly: set<Path>)

  /** What processing one file comes to: new text written back, nothing to
      write, or an exception that the loop catches and logs. */
  datatype FileOutcome = Rewritten(text: string) | Unchanged | Skipped

  /** Parse, mutate, dump, and compare the dumped text with the ORIGINAL text
      of the file (not with the dump of the unmutated document). */
  function Reserialize(yaml: YamlLibrary, content: string, image: string, version: string): FileOutcome
  {
    match yaml.load(content)
    case Err(_) => Skipped
    case Ok(doc) =>
      match yaml.dump(Rewrite(doc, image, version))
      case Err(_) => Skipped
      case Ok(text) => if text != content then Rewritten(text) else Unchanged
  }

  /** `updateSingleYamlFile(p)` against `disk`. */
  function FileStep(disk: Disk, p: Path, yaml: YamlLibrary, image: string, version: string): FileOutcome
  {
    if p !in disk.files then Skipped
    else
      match Reserialize(yaml, disk.files[p], image, version)
      case Rewritten(text) => if p in disk.readOnly then Skipped else Rewritten(text)
      case other => other
  }

  /** The disk after a step: only a rewritten file changes. */
  function Write(disk: Disk, p: Path, o: FileOutcome): Disk
  {
    if o.Rewritten? then disk.(files := disk.files[p := o.text]) else disk
  }

  /** The loop over the scanned paths, in order: the paths recorded as updated
      and the disk afterwards. */
  function UpdateAll(disk: Disk, paths: seq<Path>, yaml: YamlLibrary, image: string, version: string): (seq<Path>, Disk)
  {
    if paths == [] then ([], disk)
    else
      var (done, d) := UpdateAll(disk, paths[..|paths| - 1], yaml, image, version);
      var p := paths[|paths| - 1];
      var o := FileStep(d, p, yaml, image, version);
      (if o.Rewritten? then done + [p] else done, Write(d, p, o))
  }

  /** The paths, in their order, whose step against the ORIGINAL disk rewrites them. */
  function Selected(disk: Disk, paths: seq<Path>, yaml: YamlLibrary, image: string, version: string): seq<Path>
  {
    if paths == [] then []
    else
      var p := paths[|paths| - 1];
      Selected(disk, paths[..|paths| - 1], yaml, image, version) +
        (if FileStep(disk, p, yaml, image, version).Rewritten? then [p] else [])
  }

  /** The text a path holds once the loop has run, when no path repeats. */
  function FinalText(disk: Disk, paths: seq<Path>, q: Path, yaml: YamlLibrary, image: string, version: string): string
    requires q in disk.files
  {
    var o := FileStep(disk, q, yaml, image, version);
    if q in paths && o.Rewritten? then o.text else disk.files[q]
  }

  // ---------------------------------------------------------------------------
  // What the loop promises.

  /** With distinct paths, each step sees the file as it was before the loop,
      so the loop records exactly the selected paths, in scan order, and leaves
      every file with its final text. */
  lemma {:induction false} UpdateAllSpec(disk: Disk, paths: seq<Path>, yaml: YamlLibrary, image: string, version: string)
    requires NoDuplicates(paths)
    ensures UpdateAll(disk, paths, yaml, image, version).0 == Selected(disk, paths, yaml, image, version)
    ensures UpdateAll(disk, paths, yaml, image, version).1.readOnly == disk.readOnly
    ensures UpdateAll(disk, paths, yaml, image, version).1.files.Keys == disk.files.Keys
    ensures forall q :: q in disk.files ==>
              UpdateAll(disk, paths, yaml, image, version).1.files[q] == FinalText(disk, paths, q, yaml, image, version)
  {
    if paths != [] {
      var init, p := paths[..|paths| - 1], paths[|paths| - 1];
      assert NoDuplicates(init) by {
        forall i, j | 0 <= i < j < |init| ensures init[i] != init[j] {
          assert init[i] == paths[i] && init[j] == paths[j];
        }
      }
      assert p !in init by {
        forall i | 0 <= i < |init| ensures init[i] != p {
          assert init[i] == paths[i];
        }
      }
      UpdateAllSpec(disk, init, yaml, image, version);
      var d := UpdateAll(disk, init, yaml, image, version).1;
      if p in disk.files {
        assert d.files[p] == disk.files[p];
      }
      assert FileStep(d, p, yaml, image, version) == FileStep(disk, p, yaml, image, version);
      forall q | q in disk.files
        ensures UpdateAll(disk, paths, yaml, image, version).1.files[q] == FinalText(disk, paths, q, yaml, image, version)
      {
        assert q in paths <==> q in init || q == p;
      }
    }
  }

  lemma {:induction false} SelectedMembers(disk: Disk, paths: seq<Path>, yaml: YamlLibrary, image: string, version: string)
    ensures forall q :: q in Selected(disk, paths, yaml, image, version) <==>
              q in paths && FileStep(disk, q, yaml, image, version).Rewritten?
  {
    if paths != [] {
      var init := paths[..|paths| - 1];
      SelectedMembers(disk, init, yaml, image, version);
      assert paths == init + [paths[|paths| - 1]];
    }
  }

  lemma {:induction false} SelectedNoDuplicates(disk: Disk, paths: seq<Path>, yaml: YamlLibrary, image: string, version: string)
    requires NoDuplicates(paths)
    ensures NoDuplicates(Selected(disk, paths, yaml, image, version))
  {
    if paths != [] {
      var init, p := paths[..|paths| - 1], paths[|paths| - 1];
      assert NoDuplicates(init) by {
        forall i, j | 0 <= i < j < |init| ensures init[i] != init[j] {
          assert init[i] == paths[i] && init[j] == paths[j];
        }
      }
      assert p !in init by {
        forall i | 0 <= i < |init| ensures init[i] != p {
          assert init[i] == paths[i];
        }
      }
      SelectedNoDuplicates(disk, init, yaml, image, version);
      SelectedMembers(disk, init, yaml, image, version);
      NoDuplicatesAppend(Selected(disk, init, yaml, image, version),
        if FileStep(disk, p, yaml, image, version).Rewritten? then [p] else []);
    }
  }

  /** A path is recorded exactly when its file was read, parsed and dumped
      without throwing, the dump differs from the file's text, and the write
      succeeded; the list has no repeats; a file that throws does not stop the
      files after it; and every file ends with its dumped text if recorded and
      its original text if not. */
  lemma {:induction false} UpdatedFiles(disk: Disk, paths: seq<Path>, yaml: YamlLibrary, image: string, version: string)
    requires NoDuplicates(paths)
    ensures var (done, d) := UpdateAll(disk, paths, yaml, image, version);
      && NoDuplicates(done)
      && (forall q :: q in done <==>
            && q in paths && q in disk.files && q !in disk.readOnly
            && yaml.load(disk.files[q]).Ok?
            && yaml.dump(Rewrite(yaml.load(disk.files[q]).value, image, version)).Ok?
            && yaml.dump(Rewrite(yaml.load(disk.files[q]).value, image, version)).value != disk.files[q])
      && d.files.Keys == disk.files.Keys && d.readOnly == disk.readOnly
      && (forall q :: q in disk.files ==>
            d.files[q] == if q in done then yaml.dump(Rewrite(yaml.load(disk.files[q]).value, image, version)).value
                          else disk.files[q])
  {
    UpdateAllSpec(disk, paths, yaml, image, version);
    SelectedMembers(disk, paths, yaml, image, version);
    SelectedNoDuplicates(disk, paths, yaml, image, version);
  }

  /** No path recorded: no file was written. */
  lemma {:induction false} NothingRecordedNothingWritten(disk: Disk, paths: seq<Path>, yaml: YamlLibrary, image: string, version: string)
    requires UpdateAll(disk, paths, yaml, image, version).0 == []
    ensures UpdateAll(disk, paths, yaml, image, version).1 == disk
  {
    if paths != [] {
      var init := paths[..|paths| - 1];
      assert UpdateAll(disk, init, yaml, image, version).0 == [] by {
        var done := UpdateAll(disk, init, yaml, image, version).0;
        assert |done| <= |UpdateAll(disk, paths, yaml, image, version).0|;
      }
      NothingRecordedNothingWritten(disk, init, yaml, image, version);
    }
  }

  /** The dirty check compares with the raw text: a file whose text is not
      what `dump` makes of its document is rewritten (and recorded) even when
      no image in it matches. */
  lemma NonCanonicalFileRewritten(yaml: YamlLibrary, content: string, image: string, version: string)
    requires yaml.load(content).Ok?
    requires TimestampFree(yaml.load(content).value)
    requires forall k :: 0 <= k < |Slots(yaml.load(content).value)| ==> BaseName(Slots(yaml.load(content).value)[k]) != image
    requires yaml.dump(yaml.load(content).value).Ok?
    requires yaml.dump(yaml.load(content).value).value != content
    ensures Reserialize(yaml, content, image, version) == Rewritten(yaml.dump(yaml.load(content).value).value)
  {
    NoMatchUnchanged(yaml.load(content).value, image, version);
  }

  /** A file already in `dump`'s form holding no matching image is left alone. */
  lemma CanonicalNoMatchUnchanged(yaml: YamlLibrary, content: string, image: string, version: string)
    requires yaml.load(content).Ok?
    requires TimestampFree(yaml.load(content).value)
    requires forall k :: 0 <= k < |Slots(yaml.load(content).value)| ==> BaseName(Slots(yaml.load(content).value)[k]) != image
    requires yaml.dump(yaml.load(content).value) == Ok(content)
    ensures Reserialize(yaml, content, image, version) == Unchanged
  {
    NoMatchUnchanged(yaml.load(content).value, image, version);
  }

  // ---------------------------------------------------------------------------
  // `path.relative(repoPath, filePath)`: components joined with "/".

  function RelativePath(p: Path): string
  {
    Text.Join(p, "/")
  }

  function RelativePaths(ps: seq<Path>): (r: seq<string>)
    ensures |r| == |ps|
  {
    if ps == [] then [] else RelativePaths(ps[..|ps| - 1]) + [RelativePath(ps[|ps| - 1])]
  }

  lemma {:induction false} RelativePathsAt(ps: seq<Path>)
    ensures forall k :: 0 <= k < |ps| ==> RelativePaths(ps)[k] == RelativePath(ps[k])
  {
    if ps != [] {
      RelativePathsAt(ps[..|ps| - 1]);
    }
  }

  /** Distinct non-empty paths of valid names render as distinct strings. */
  lemma RelativePathsDistinct(ps: seq<Path>)
    requires NoDuplicates(ps)
    requires forall k :: 0 <= k < |ps| ==> |ps[k]| > 0 && forall c :: 0 <= c < |ps[k]| ==> ValidName(ps[k][c])
    ensures NoDuplicates(RelativePaths(ps))
  {
    RelativePathsAt(ps);
    forall i, j | 0 <= i < j < |ps|
      ensures RelativePaths(ps)[i] != RelativePaths(ps)[j]
    {
      if RelativePath(ps[i]) == RelativePath(ps[j]) {
        Text.JoinInjective(ps[i], ps[j], '/');
      }
    }
  }
}
