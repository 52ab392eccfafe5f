/** The manifest scanner: `ImageUpdater.findYamlFiles` (src/updater.ts:99-119),
    a depth-first walk, in listing order, over the checkout's directory tree. */
module Scanner {
  import opened Common

  /** A path as its components below the repository root. */
  type Path = seq<string>

  /** What `readdirSync` gives for a directory: its entry names in listing
      order, or the error it throws. */
  datatype Listing = Listed(entries: seq<Entry>) | Unlisted(reason: string)

  /** One directory entry as `statSync` sees it: a directory (with what reading
      it would give), anything else (a file), or an entry whose `statSync`
      throws (a dangling link, say). */
  datatype Entry =
    | File(name: string)
    | Dir(name: string, listing: Listing)
    | Unstatable(name: string, reason: string)

  predicate IsSkippedDir(name: string)
  {
    name == "node_modules" || name == ".git"
  }

  predicate EndsWith(s: string, suffix: string)
  {
    |suffix| <= |s| && s[|s| - |suffix|..] == suffix
  }

  predicate IsManifestName(name: string)
  {
    EndsWith(name, ".yaml") || EndsWith(name, ".yml")
  }

  // ---------------------------------------------------------------------------
  // The walk as a function: what `findYamlFiles(dir)` returns or throws.

  function Scan(dir: Path, l: Listing): Result<seq<Path>, Exception>
    decreases l
  {
    match l
    case Unlisted(reason) => Err(ErrorObject(reason))
    case Listed(es) => ScanEntries(dir, es)
  }

  /** The entries handled in order; the first one that throws ends the walk. */
  function ScanEntries(dir: Path, es: seq<Entry>): Result<seq<Path>, Exception>
    decreases es
  {
    if es == [] then Ok([])
    else
      match ScanEntries(dir, es[..|es| - 1])
      case Err(e) => Err(e)
      case Ok(before) =>
        match ScanEntry(dir, es[|es| - 1])
        case Err(e) => Err(e)
        case Ok(found) => Ok(before + found)
  }

  /** One entry: the directory test comes first, so a directory whose name ends
      in `.yaml` is descended into, and a skipped directory is never read. */
  function ScanEntry(dir: Path, e: Entry): Result<seq<Path>, Exception>
    decreases e
  {
    match e
    case Unstatable(_, reason) => Err(ErrorObject(reason))
    case Dir(name, sub) => if IsSkippedDir(name) then Ok([]) else Scan(dir + [name], sub)
    case File(name) => Ok(if IsManifestName(name) then [dir + [name]] else [])
  }

  // ---------------------------------------------------------------------------
  // The walk as the source writes it: a loop over the listing that pushes into
  // `yamlFiles` and recurses into subdirectories.

  method FindYamlFiles(dir: Path, listing: Listing) returns (r: Result<seq<Path>, Exception>)
    ensures r == Scan(dir, listing)
    decreases listing
  {
    if listing.Unlisted? {
      return Err(ErrorObject(listing.reason));
    }
    var items := listing.entries;
    var yamlFiles: seq<Path> := [];
    for i := 0 to |items|
      invariant ScanEntries(dir, items[..i]) == Ok(yamlFiles)
    {
      assert items[..i + 1][..i] == items[..i];
      assert items[..i + 1][i] == items[i];
      match items[i] {
        case Unstatable(_, reason) =>
          ScanEntriesErrPrefix(dir, items, i + 1);
          return Err(ErrorObject(reason));
        case Dir(name, sub) =>
          if !IsSkippedDir(name) {
            var found := FindYamlFiles(dir + [name], sub);
            if found.Err? {
              ScanEntriesErrPrefix(dir, items, i + 1);
              return found;
            }
            yamlFiles := yamlFiles + found.value;
          } else {
            assert yamlFiles + [] == yamlFiles;
          }
        case File(name) =>
          if IsManifestName(name) {
            yamlFiles := yamlFiles + [dir + [name]];
          } else {
            assert yamlFiles + [] == yamlFiles;
          }
      }
    }
    assert items[..|items|] == items;
    return Ok(yamlFiles);
  }

  /** Once a prefix of the listing throws, the whole walk throws the same error. */
  lemma {:induction false} ScanEntriesErrPrefix(dir: Path, es: seq<Entry>, j: nat)
    requires j <= |es|
    requires ScanEntries(dir, es[..j]).Err?
    ensures ScanEntries(dir, es) == ScanEntries(dir, es[..j])
    decreases |es| - j
  {
    if j < |es| {
      assert es[..|es| - 1][..j] == es[..j];
      ScanEntriesErrPrefix(dir, es[..|es| - 1], j);
    } else {
      assert es[..j] == es;
    }
  }

  // ---------------------------------------------------------------------------
  // Which paths the walk selects, stated without the walk.

  /** `rel` leads from listing `l` to a manifest file through directories that
      are not skipped. */
  ghost predicate Reaches(l: Listing, rel: Path)
  {
    l.Listed? && ReachesEntries(l.entries, rel)
  }

  ghost predicate ReachesEntries(es: seq<Entry>, rel: Path)
  {
    exists i :: 0 <= i < |es| && EntryReaches(es[i], rel)
  }

  ghost predicate EntryReaches(e: Entry, rel: Path)
  {
    |rel| >= 1 && rel[0] == e.name &&
    match e
    case File(name) => |rel| == 1 && IsManifestName(name)
    case Dir(name, sub) => !IsSkippedDir(name) && Reaches(sub, rel[1..])
    case Unstatable(_, _) => false
  }

  /** Reading `l` throws somewhere the walk goes. */
  ghost predicate Faulty(l: Listing)
  {
    l.Unlisted? || exists i :: 0 <= i < |l.entries| && EntryFaulty(l.entries[i])
  }

  ghost predicate EntryFaulty(e: Entry)
  {
    match e
    case Unstatable(_, _) => true
    case Dir(name, sub) => !IsSkippedDir(name) && Faulty(sub)
    case File(_) => false
  }

  lemma AppendPrefix(dir: Path, name: string, p: Path)
    ensures dir + [name] <= p <==> (dir <= p && |p| > |dir| && p[|dir|..][0] == name)
  {
    if dir + [name] <= p {
      assert p[..|dir|] == (dir + [name])[..|dir|] == dir;
    }
    if dir <= p && |p| > |dir| && p[|dir|..][0] == name {
      assert p[..|dir| + 1] == dir + [name];
    }
  }

  /** The walk of one listing, when it does not throw, returns exactly the
      paths below `dir` that reach a manifest file. */
  lemma {:induction false} ScanSelects(dir: Path, l: Listing)
    requires Scan(dir, l).Ok?
    ensures forall p :: p in Scan(dir, l).value <==> dir <= p && Reaches(l, p[|dir|..])
    decreases l, 2
  {
    ScanEntriesSelect(dir, l.entries);
  }

  lemma {:induction false} ScanEntriesSelect(dir: Path, es: seq<Entry>)
    requires ScanEntries(dir, es).Ok?
    ensures forall p :: p in ScanEntries(dir, es).value <==> dir <= p && ReachesEntries(es, p[|dir|..])
    decreases es, 1
  {
    if es != [] {
      var init, last := es[..|es| - 1], es[|es| - 1];
      ScanEntriesSelect(dir, init);
      ScanEntrySelects(dir, last);
      forall p
        ensures p in ScanEntries(dir, es).value <==> dir <= p && ReachesEntries(es, p[|dir|..])
      {
        if dir <= p && ReachesEntries(es, p[|dir|..]) {
          var i :| 0 <= i < |es| && EntryReaches(es[i], p[|dir|..]);
          if i < |es| - 1 {
            assert init[i] == es[i];
          }
        }
        if dir <= p && ReachesEntries(init, p[|dir|..]) {
          var i :| 0 <= i < |init| && EntryReaches(init[i], p[|dir|..]);
          assert es[i] == init[i];
        }
      }
    }
  }

  lemma {:induction false} ScanEntrySelects(dir: Path, e: Entry)
    requires ScanEntry(dir, e).Ok?
    ensures forall p :: p in ScanEntry(dir, e).value <==> dir <= p && EntryReaches(e, p[|dir|..])
    decreases e, 0
  {
    match e
    case File(name) =>
      forall p
        ensures p in ScanEntry(dir, e).value <==> dir <= p && EntryReaches(e, p[|dir|..])
      {
        if dir <= p && EntryReaches(e, p[|dir|..]) {
          assert p == p[..|dir|] + p[|dir|..];
          assert p[|dir|..] == [name];
          assert p == dir + [name];
        }
        if p in ScanEntry(dir, e).value {
          assert p == dir + [name];
          assert p[|dir|..] == [name];
        }
      }
    case Dir(name, sub) =>
      if !IsSkippedDir(name) {
        ScanSelects(dir + [name], sub);
        forall p
          ensures p in ScanEntry(dir, e).value <==> dir <= p && EntryReaches(e, p[|dir|..])
        {
          AppendPrefix(dir, name, p);
          if |p| > |dir| {
            assert p[|dir|..][1..] == p[|dir + [name]|..];
          }
        }
      }
  }

  /** The walk throws exactly when some entry it visits cannot be read. */
  lemma {:induction false} ScanFailsIff(dir: Path, l: Listing)
    ensures Scan(dir, l).Err? <==> Faulty(l)
    decreases l, 2
  {
    if l.Listed? {
      ScanEntriesFailsIff(dir, l.entries);
    }
  }

  lemma {:induction false} ScanEntriesFailsIff(dir: Path, es: seq<Entry>)
    ensures ScanEntries(dir, es).Err? <==> exists i :: 0 <= i < |es| && EntryFaulty(es[i])
    decreases es, 1
  {
    if es != [] {
      var init, last := es[..|es| - 1], es[|es| - 1];
      ScanEntriesFailsIff(dir, init);
      ScanEntryFailsIff(dir, last);
      if exists i :: 0 <= i < |es| && EntryFaulty(es[i]) {
        var i :| 0 <= i < |es| && EntryFaulty(es[i]);
        if i < |es| - 1 {
          assert init[i] == es[i];
        }
      }
      if exists i :: 0 <= i < |init| && EntryFaulty(init[i]) {
        var i :| 0 <= i < |init| && EntryFaulty(init[i]);
        assert es[i] == init[i];
      }
    }
  }

  lemma {:induction false} ScanEntryFailsIff(dir: Path, e: Entry)
    ensures ScanEntry(dir, e).Err? <==> EntryFaulty(e)
    decreases e, 0
  {
    match e
    case Dir(name, sub) =>
      if !IsSkippedDir(name) {
        ScanFailsIff(dir + [name], sub);
      }
    case _ =>
  }

  // ---------------------------------------------------------------------------
  // Every selected path names a manifest file outside skipped directories.

  lemma {:induction false} ReachesShape(l: Listing, rel: Path)
    requires Reaches(l, rel)
    ensures |rel| >= 1 && IsManifestName(rel[|rel| - 1])
    ensures forall k :: 0 <= k < |rel| ==> !IsSkippedDir(rel[k])
    decreases l
  {
    var i :| 0 <= i < |l.entries| && EntryReaches(l.entries[i], rel);
    match l.entries[i]
    case File(name) =>
    case Dir(name, sub) =>
      ReachesShape(sub, rel[1..]);
      forall k | 0 <= k < |rel|
        ensures !IsSkippedDir(rel[k])
      {
        if k > 0 {
          assert rel[k] == rel[1..][k - 1];
        }
      }
  }

  /** What the scanner promises of every path it returns: it lies below `dir`,
      its last component ends in `.yaml` or `.yml`, and no component below
      `dir` is `node_modules` or `.git`. */
  lemma ScanPathsAreManifests(dir: Path, l: Listing)
    requires Scan(dir, l).Ok?
    ensures forall p :: p in Scan(dir, l).value ==>
              dir < p && IsManifestName(p[|p| - 1]) &&
              forall k :: |dir| <= k < |p| ==> !IsSkippedDir(p[k])
  {
    ScanSelects(dir, l);
    forall p | p in Scan(dir, l).value
      ensures dir < p && IsManifestName(p[|p| - 1])
      ensures forall k :: |dir| <= k < |p| ==> !IsSkippedDir(p[k])
    {
      var rel := p[|dir|..];
      ReachesShape(l, rel);
      assert p[|p| - 1] == rel[|rel| - 1];
      forall k | |dir| <= k < |p|
        ensures !IsSkippedDir(p[k])
      {
        assert p[k] == rel[k - |dir|];
      }
    }
  }

  // ---------------------------------------------------------------------------
  // No path is returned twice when every directory lists distinct names.

  ghost predicate NoDuplicates<T>(s: seq<T>)
  {
    forall i, j :: 0 <= i < j < |s| ==> s[i] != s[j]
  }

  /** A name `readdirSync` can return: non-empty and without a path separator. */
  predicate ValidName(name: string)
  {
    name != "" && '/' !in name
  }

  /** Every listing in the tree holds valid, pairwise distinct names. */
  predicate WellFormed(l: Listing)
  {
    l.Listed? ==>
      (forall i :: 0 <= i < |l.entries| ==> ValidName(l.entries[i].name)) &&
      (forall i, j :: 0 <= i < j < |l.entries| ==> l.entries[i].name != l.entries[j].name) &&
      (forall i :: 0 <= i < |l.entries| ==> l.entries[i].Dir? ==> WellFormed(l.entries[i].listing))
  }

  lemma NoDuplicatesAppend<T>(a: seq<T>, b: seq<T>)
    requires NoDuplicates(a) && NoDuplicates(b)
    requires forall x :: x in a ==> x !in b
    ensures NoDuplicates(a + b)
  {
    forall i, j | 0 <= i < j < |a + b|
      ensures (a + b)[i] != (a + b)[j]
    {
      if i < |a| && j >= |a| {
        assert (a + b)[i] in a;
        assert (a + b)[j] == b[j - |a|];
      }
    }
  }

  lemma {:induction false} ScanNoDuplicates(dir: Path, l: Listing)
    requires WellFormed(l)
    requires Scan(dir, l).Ok?
    ensures NoDuplicates(Scan(dir, l).value)
    decreases l, 2
  {
    ScanEntriesNoDuplicates(dir, l.entries);
  }

  lemma {:induction false} ScanEntriesNoDuplicates(dir: Path, es: seq<Entry>)
    requires forall i, j :: 0 <= i < j < |es| ==> es[i].name != es[j].name
    requires forall i :: 0 <= i < |es| ==> es[i].Dir? ==> WellFormed(es[i].listing)
    requires ScanEntries(dir, es).Ok?
    ensures NoDuplicates(ScanEntries(dir, es).value)
    decreases es, 1
  {
    if es != [] {
      var init, last := es[..|es| - 1], es[|es| - 1];
      ScanEntriesNoDuplicates(dir, init);
      var before, found := ScanEntries(dir, init).value, ScanEntry(dir, last).value;
      if last.Dir? && !IsSkippedDir(last.name) {
        ScanNoDuplicates(dir + [last.name], last.listing);
      }
      ScanEntriesSelect(dir, init);
      ScanEntrySelects(dir, last);
      forall p | p in before
        ensures p !in found
      {
        var i :| 0 <= i < |init| && EntryReaches(init[i], p[|dir|..]);
        assert init[i] == es[i];
      }
      NoDuplicatesAppend(before, found);
    }
  }

  /** A selected path is made of valid names. */
  lemma {:induction false} ReachesValidNames(l: Listing, rel: Path)
    requires WellFormed(l)
    requires Reaches(l, rel)
    ensures forall k :: 0 <= k < |rel| ==> ValidName(rel[k])
    decreases l
  {
    var i :| 0 <= i < |l.entries| && EntryReaches(l.entries[i], rel);
    match l.entries[i]
    case File(name) =>
    case Dir(name, sub) =>
      ReachesValidNames(sub, rel[1..]);
      forall k | 0 <= k < |rel|
        ensures ValidName(rel[k])
      {
        if k > 0 {
          assert rel[k] == rel[1..][k - 1];
        }
      }
  }

  /** On a well-formed tree the root walk returns distinct, non-empty paths of
      valid names. */
  lemma ScanRootWellFormed(l: Listing)
    requires WellFormed(l)
    requires Scan([], l).Ok?
    ensures NoDuplicates(Scan([], l).value)
    ensures forall p :: p in Scan([], l).value ==> |p| > 0 && forall k :: 0 <= k < |p| ==> ValidName(p[k])
  {
    ScanNoDuplicates([], l);
    ScanSelects([], l);
    forall p | p in Scan([], l).value
      ensures |p| > 0 && forall k :: 0 <= k < |p| ==> ValidName(p[k])
    {
      assert p[0..] == p;
      ReachesShape(l, p);
      ReachesValidNames(l, p);
    }
  }

  /** A directory named like a manifest is still a directory: it is descended
      into and not returned itself. */
  lemma DirectoryNamedYamlIsDescended(d: string, inner: string, outer: string)
    requires IsManifestName(d) && !IsSkippedDir(d)
    requires IsManifestName(inner) && IsManifestName(outer)
    ensures var r := Scan([], Listed([Dir(d, Listed([File(inner)])), File(outer)]));
            r.Ok? && r.value == [[d, inner], [outer]]
  {
    var root: Path := [];
    var charts: Entry := Dir(d, Listed([File(inner)]));
    var nested: Path, top: Path := [d, inner], [outer];
    assert root + [d] + [inner] == nested && root + [outer] == top;
    ScanSingleEntry(root + [d], File(inner));
    ScanSingleEntry(root, charts);
    ScanEntriesSnoc(root, [charts], File(outer));
    assert [charts] + [File(outer)] == [charts, File(outer)];
    assert [nested] + [top] == [nested, top];
  }

  lemma ScanSingleEntry(dir: Path, e: Entry)
    ensures ScanEntries(dir, [e]) == ScanEntry(dir, e)
  {
    ScanEntriesSnoc(dir, [], e);
    assert [] + [e] == [e];
    if ScanEntry(dir, e).Ok? {
      var none: seq<Path> := [];
      assert none + ScanEntry(dir, e).value == ScanEntry(dir, e).value;
    }
  }

  lemma ScanEntriesSnoc(dir: Path, es: seq<Entry>, e: Entry)
    ensures ScanEntries(dir, es + [e]) ==
      match ScanEntries(dir, es)
      case Err(x) => Err(x)
      case Ok(before) =>
        match ScanEntry(dir, e)
        case Err(x) => Err(x)
        case Ok(found) => Ok(before + found)
  {
    assert (es + [e])[..|es|] == es;
  }
}
