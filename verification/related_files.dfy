/**
  The labelling pass of `GetRelatedFiles`: the project files found for the
  candidate names are deduplicated by full path, and each is labelled "View" or
  "ViewModel" from its file name, with the name of its project appended when
  that project is not the current one.

  The host lookups that turn a candidate name into project files (the symbol
  index, the declarations of each source file, the project model) are one
  opaque parameter, `resolve`.
 */
module RelatedFiles {
  import opened Strings
  import opened Sequences
  import Candidates

  datatype Option<T> = None | Some(value: T)

  /** A project file as the labelling pass sees it: its full path, its file
      name (with extensions), and the name of the project that holds it, if any. */
  datatype ProjectFile = ProjectFile(fullPath: string, name: string, projectName: Option<string>)

  /** A related file and the label shown for it. */
  datatype Occurrence = Occurrence(file: ProjectFile, relationKind: string)

  // ---------------------------------------------------------------------------
  // Deduplication by full path
  // ---------------------------------------------------------------------------

  /** The full paths of a list of files. */
  function PathSet(files: seq<ProjectFile>): set<string> {
    set i | 0 <= i < |files| :: files[i].fullPath
  }

  /** Appending a file adds its path. */
  lemma PathSetSnoc(files: seq<ProjectFile>, file: ProjectFile)
    ensures PathSet(files + [file]) == PathSet(files) + {file.fullPath}
  {
    var all := files + [file];
    forall p | p in PathSet(all) ensures p in PathSet(files) + {file.fullPath} {
      var k :| 0 <= k < |all| && all[k].fullPath == p;
      if k < |files| {
        assert all[k] == files[k];
      }
    }
    forall p | p in PathSet(files) ensures p in PathSet(all) {
      var k :| 0 <= k < |files| && files[k].fullPath == p;
      assert all[k] == files[k];
    }
    assert all[|files|] == file;
  }

  /** No two files of the list share a full path. */
  predicate DistinctPaths(files: seq<ProjectFile>) {
    forall i, j :: 0 <= i < j < |files| ==> files[i].fullPath != files[j].fullPath
  }

  /** `files[i]` is the first file of the list with its full path. */
  predicate IsFirst(files: seq<ProjectFile>, i: nat)
    requires i < |files|
  {
    forall j :: 0 <= j < i ==> files[j].fullPath != files[i].fullPath
  }

  /** Whether `files[i]` is the first with its path is the same in every
      prefix that contains it. */
  lemma IsFirstOfPrefix(files: seq<ProjectFile>, m: nat, i: nat)
    requires i < m <= |files|
    ensures IsFirst(files[..m], i) <==> IsFirst(files, i)
  {
    assert forall j :: 0 <= j < m ==> files[..m][j] == files[j];
  }

  /** The positions of the first occurrences of each full path, ascending. */
  function FirstIndices(files: seq<ProjectFile>): (idx: seq<nat>)
    ensures forall k :: 0 <= k < |idx| ==> idx[k] < |files| && IsFirst(files, idx[k])
    ensures forall k1, k2 :: 0 <= k1 < k2 < |idx| ==> idx[k1] < idx[k2]
    ensures forall i :: 0 <= i < |files| && IsFirst(files, i) ==> i in idx
    decreases |files|
  {
    if |files| == 0 then []
    else
      var n := |files| - 1;
      var prev := FirstIndices(files[..n]);
      assert forall k :: 0 <= k < |prev| ==> IsFirst(files, prev[k]) by {
        forall k | 0 <= k < |prev| ensures IsFirst(files, prev[k]) {
          IsFirstOfPrefix(files, n, prev[k]);
        }
      }
      assert forall i :: 0 <= i < n && IsFirst(files, i) ==> i in prev by {
        forall i | 0 <= i < n && IsFirst(files, i) ensures i in prev {
          IsFirstOfPrefix(files, n, i);
        }
      }
      prev + (if IsFirst(files, n) then [n] else [])
  }

  /** The files with duplicate full paths removed, keeping first occurrences
      (`Distinct(x => x.Location.FullPath)`). */
  function DistinctByPath(files: seq<ProjectFile>): (r: seq<ProjectFile>)
    ensures forall k :: 0 <= k < |r| ==> r[k] in files
    ensures DistinctPaths(r)
    ensures PathSet(r) == PathSet(files)
    decreases |files|
  {
    if |files| == 0 then []
    else
      var n := |files| - 1;
      var prev := DistinctByPath(files[..n]);
      assert PathSet(files) == PathSet(files[..n]) + {files[n].fullPath} by {
        assert forall i :: 0 <= i < n ==> files[..n][i] == files[i];
      }
      assert forall k :: 0 <= k < |prev| ==> prev[k] in files by {
        forall k | 0 <= k < |prev| ensures prev[k] in files {
          var i :| 0 <= i < n && files[..n][i] == prev[k];
        }
      }
      if IsFirst(files, n) then
        assert files[n].fullPath !in PathSet(prev);
        var r := prev + [files[n]];
        assert PathSet(r) == PathSet(prev) + {files[n].fullPath} by {
          PathSetSnoc(prev, files[n]);
        }
        r
      else
        assert files[n].fullPath in PathSet(files[..n]) by {
          var j :| 0 <= j < n && files[j].fullPath == files[n].fullPath;
          assert files[..n][j] == files[j];
        }
        prev
  }

  /** `DistinctByPath` keeps exactly the first occurrence of every full path, in
      input order: its k-th file is the file at the k-th first-occurrence position. */
  lemma {:induction false} DistinctByPathIsFirstOccurrences(files: seq<ProjectFile>)
    ensures |DistinctByPath(files)| == |FirstIndices(files)|
    ensures forall k :: 0 <= k < |FirstIndices(files)| ==>
              DistinctByPath(files)[k] == files[FirstIndices(files)[k]]
    decreases |files|
  {
    if |files| > 0 {
      var n := |files| - 1;
      var r, idx := DistinctByPath(files), FirstIndices(files);
      var prev, pidx := DistinctByPath(files[..n]), FirstIndices(files[..n]);
      DistinctByPathIsFirstOccurrences(files[..n]);
      assert r == prev + (if IsFirst(files, n) then [files[n]] else []);
      assert idx == pidx + (if IsFirst(files, n) then [n] else []);
      forall k | 0 <= k < |idx| ensures r[k] == files[idx[k]] {
        if k < |pidx| {
          assert r[k] == prev[k] == files[..n][pidx[k]];
          assert idx[k] == pidx[k];
        }
      }
    }
  }

  /** Appending a file keeps it exactly when its path has not been seen yet. */
  lemma DistinctByPathSnoc(files: seq<ProjectFile>, file: ProjectFile)
    ensures DistinctByPath(files + [file])
            == DistinctByPath(files) + (if file.fullPath in PathSet(files) then [] else [file])
  {
    var all := files + [file];
    var n := |files|;
    assert all[..n] == files;
    if file.fullPath in PathSet(files) {
      var j :| 0 <= j < n && files[j].fullPath == file.fullPath;
      assert all[j] == files[j];
      assert !IsFirst(all, n);
    } else {
      forall j | 0 <= j < n ensures all[j].fullPath != all[n].fullPath {
        assert all[j] == files[j];
        assert files[j].fullPath in PathSet(files);
      }
    }
  }

  // ---------------------------------------------------------------------------
  // Labels
  // ---------------------------------------------------------------------------

  /** The file name up to its first `.` (all extensions removed, as in
      `Foo.xaml.cs`), or the whole name when it holds no `.`. */
  function StripExtensions(fileName: string): (r: string)
    ensures StartsWith(fileName, r)
    ensures '.' !in r
    ensures |r| < |fileName| ==> fileName[|r|] == '.'
  {
    var dot := IndexOf(fileName, '.');
    if dot != -1 then fileName[..dot] else fileName
  }

  /** The three properties of `StripExtensions` determine its result: it is the
      only prefix without a `.` that is the whole name or is followed by a `.`. */
  lemma StripExtensionsUnique(fileName: string, r: string)
    requires StartsWith(fileName, r) && '.' !in r
    requires |r| < |fileName| ==> fileName[|r|] == '.'
    ensures r == StripExtensions(fileName)
  {
    var s := StripExtensions(fileName);
    assert r == fileName[..|r|] && s == fileName[..|s|];
  }

  /** Stripping twice is stripping once. */
  lemma StripExtensionsIdempotent(fileName: string)
    ensures StripExtensions(StripExtensions(fileName)) == StripExtensions(fileName)
  {
    var s := StripExtensions(fileName);
    StripExtensionsUnique(s, s);
  }

  /** The two kinds of relation a label can show. */
  datatype Relation = View | ViewModel {
    function Text(): (t: string)
      ensures StartsWith(t, "View")
    {
      match this
      case View => "View"
      case ViewModel => Candidates.ViewModelSuffix
    }
  }

  /** A file is a view model when its name without extensions ends (exactly) in
      `ViewModel`, and a view otherwise. */
  function RelationOf(fileName: string): Relation {
    if EndsWith(StripExtensions(fileName), Candidates.ViewModelSuffix) then ViewModel else View
  }

  /** The label names the file's project exactly when the file has a project
      whose name differs, ignoring case, from the current project's name; when
      there is no current project, every project name differs from it. */
  predicate ShowsProject(projectName: Option<string>, thisProject: Option<string>) {
    && projectName.Some?
    && !(thisProject.Some? && EqualsIgnoreCase(thisProject.value, projectName.value))
  }

  /** The project part of a label: empty, or ` (in P)`. */
  function ProjectNote(projectName: Option<string>, thisProject: Option<string>): string {
    if ShowsProject(projectName, thisProject) then " (in " + projectName.value + ")" else ""
  }

  /** The label shown for one related file. */
  function Label(file: ProjectFile, thisProject: Option<string>): (r: string)
    ensures StartsWith(r, "View")
    ensures StartsWith(r, Candidates.ViewModelSuffix) <==> EndsWith(StripExtensions(file.name), Candidates.ViewModelSuffix)
    ensures EndsWith(r, ")") <==> ShowsProject(file.projectName, thisProject)
    ensures ShowsProject(file.projectName, thisProject) ==>
              EndsWith(r, " (in " + file.projectName.value + ")")
  {
    var kind := RelationOf(file.name).Text();
    var note := ProjectNote(file.projectName, thisProject);
    var r := kind + note;
    assert r[..|kind|] == kind;
    assert note != "" ==> note[|note| - 1] == ')' && r[|r| - 1] == note[|note| - 1];
    assert note == "" ==> r == kind;
    assert note != "" && kind == "View" ==> r[4] == note[0] == ' ';
    r
  }

  /** Reads a label back into its relation and the project it names, if any. */
  function ParseLabel(text: string): Option<(Relation, Option<string>)> {
    var kind := if StartsWith(text, Candidates.ViewModelSuffix) then ViewModel else View;
    if !StartsWith(text, kind.Text()) then None
    else
      var rest := text[|kind.Text()|..];
      if rest == "" then Some((kind, None))
      else if |rest| >= 6 && StartsWith(rest, " (in ") && EndsWith(rest, ")") then
        Some((kind, Some(rest[5..|rest| - 1])))
      else None
  }

  /** A label determines the file's relation and the project it was shown
      with: parsing it gives them back. */
  lemma LabelRoundTrip(file: ProjectFile, thisProject: Option<string>)
    ensures ParseLabel(Label(file, thisProject))
            == Some((RelationOf(file.name),
                     if ShowsProject(file.projectName, thisProject) then file.projectName else None))
  {
    var kind := RelationOf(file.name);
    var note := ProjectNote(file.projectName, thisProject);
    var text := Label(file, thisProject);
    assert text == kind.Text() + note;
    assert text[..|kind.Text()|] == kind.Text();
    assert text[|kind.Text()|..] == note;
    if note != "" {
      var p := file.projectName.value;
      assert note[..5] == " (in ";
      assert note[5..|note| - 1] == p;
    }
  }

  // ---------------------------------------------------------------------------
  // The pass over the found files
  // ---------------------------------------------------------------------------

  /** One occurrence per distinct full path, labelled. */
  function Occurrences(files: seq<ProjectFile>, thisProject: Option<string>): seq<Occurrence> {
    var unique := DistinctByPath(files);
    seq(|unique|, k requires 0 <= k < |unique| => Occurrence(unique[k], Label(unique[k], thisProject)))
  }

  /** Appending a file adds an occurrence for it exactly when its path is new. */
  lemma OccurrencesSnoc(files: seq<ProjectFile>, file: ProjectFile, thisProject: Option<string>)
    ensures Occurrences(files + [file], thisProject)
            == Occurrences(files, thisProject)
               + (if file.fullPath in PathSet(files) then [] else [Occurrence(file, Label(file, thisProject))])
  {
    var u0, u1 := DistinctByPath(files), DistinctByPath(files + [file]);
    var o0, o1 := Occurrences(files, thisProject), Occurrences(files + [file], thisProject);
    DistinctByPathSnoc(files, file);
    forall k | 0 <= k < |o0| ensures o1[k] == o0[k] {
      assert u1[k] == u0[k];
    }
    if file.fullPath !in PathSet(files) {
      assert u1[|u0|] == file;
    }
  }

  /** The loop over the found files, with the set of full paths seen so far. */
  method CollectOccurrences(files: seq<ProjectFile>, thisProject: Option<string>)
    returns (occurrences: seq<Occurrence>)
    ensures occurrences == Occurrences(files, thisProject)
  {
    var seen: set<string> := {};
    occurrences := [];
    var i := 0;
    while i < |files|
      invariant 0 <= i <= |files|
      invariant seen == PathSet(files[..i])
      invariant occurrences == Occurrences(files[..i], thisProject)
    {
      var file := files[i];
      assert files[..i + 1] == files[..i] + [file];
      OccurrencesSnoc(files[..i], file, thisProject);
      PathSetSnoc(files[..i], file);
      if file.fullPath !in seen {
        seen := seen + {file.fullPath};
        occurrences := occurrences + [Occurrence(file, Label(file, thisProject))];
      }
      i := i + 1;
    }
    assert files[..i] == files;
  }

  /** The occurrences name distinct files. */
  lemma OccurrencesDistinct(files: seq<ProjectFile>, thisProject: Option<string>)
    ensures var r := Occurrences(files, thisProject);
            forall i, j :: 0 <= i < j < |r| ==> r[i].file.fullPath != r[j].file.fullPath
  {
    var unique := DistinctByPath(files);
    assert DistinctPaths(unique);
  }

  /** Every occurrence names one of the files, and every file's path is named. */
  lemma OccurrencesCover(files: seq<ProjectFile>, thisProject: Option<string>)
    ensures var r := Occurrences(files, thisProject);
            && (forall k :: 0 <= k < |r| ==> r[k].file in files)
            && (forall i :: 0 <= i < |files| ==>
                  exists k :: 0 <= k < |r| && r[k].file.fullPath == files[i].fullPath)
  {
    var unique := DistinctByPath(files);
    var r := Occurrences(files, thisProject);
    forall i | 0 <= i < |files|
      ensures exists k :: 0 <= k < |r| && r[k].file.fullPath == files[i].fullPath
    {
      assert files[i].fullPath in PathSet(files);
      var k :| 0 <= k < |unique| && unique[k].fullPath == files[i].fullPath;
      assert r[k].file == unique[k];
    }
  }

  /** Each label gives back its file's relation and, when shown, its project. */
  lemma OccurrencesLabels(files: seq<ProjectFile>, thisProject: Option<string>)
    ensures var r := Occurrences(files, thisProject);
            forall k :: 0 <= k < |r| ==>
              ParseLabel(r[k].relationKind)
              == Some((RelationOf(r[k].file.name),
                       if ShowsProject(r[k].file.projectName, thisProject) then r[k].file.projectName else None))
  {
    var r := Occurrences(files, thisProject);
    forall k | 0 <= k < |r|
      ensures ParseLabel(r[k].relationKind)
              == Some((RelationOf(r[k].file.name),
                       if ShowsProject(r[k].file.projectName, thisProject) then r[k].file.projectName else None))
    {
      LabelRoundTrip(r[k].file, thisProject);
    }
  }

  // ---------------------------------------------------------------------------
  // The whole provider
  // ---------------------------------------------------------------------------

  /** `GetRelatedFiles` with the host's lookups abstracted: `resolve` gives, for
      one candidate short name, the project files declaring types found under
      that name (with repeats, one per type declaration). */
  function GetRelatedFiles(typeNames: seq<string>, resolve: string -> seq<ProjectFile>,
                           thisProject: Option<string>): seq<Occurrence>
  {
    Occurrences(FlatMap(resolve, Candidates.TypeCandidates(typeNames)), thisProject)
  }

  /** Every related file is found under a candidate of one of the file's type names. */
  lemma GetRelatedFilesSound(typeNames: seq<string>, resolve: string -> seq<ProjectFile>,
                             thisProject: Option<string>)
    ensures var r := GetRelatedFiles(typeNames, resolve, thisProject);
            forall k :: 0 <= k < |r| ==>
              exists c :: c in Candidates.TypeCandidates(typeNames) && r[k].file in resolve(c)
  {
    var cands := Candidates.TypeCandidates(typeNames);
    var found := FlatMap(resolve, cands);
    var r := GetRelatedFiles(typeNames, resolve, thisProject);
    OccurrencesCover(found, thisProject);
    forall k | 0 <= k < |r| ensures exists c :: c in cands && r[k].file in resolve(c) {
      FlatMapMembership(resolve, cands, r[k].file);
      var i :| 0 <= i < |cands| && r[k].file in resolve(cands[i]);
    }
  }

  /** A file found under one candidate has its path named by an occurrence. */
  lemma FoundFileRelated(resolve: string -> seq<ProjectFile>, cands: seq<string>, c: string,
                         f: ProjectFile, thisProject: Option<string>)
    requires c in cands && f in resolve(c)
    ensures var r := Occurrences(FlatMap(resolve, cands), thisProject);
            exists k :: 0 <= k < |r| && r[k].file.fullPath == f.fullPath
  {
    var found := FlatMap(resolve, cands);
    var i :| 0 <= i < |cands| && cands[i] == c;
    FlatMapMembership(resolve, cands, f);
    var j :| 0 <= j < |found| && found[j] == f;
    OccurrencesCover(found, thisProject);
  }

  /** Every full path found under a candidate is related, and no path twice. */
  lemma GetRelatedFilesComplete(typeNames: seq<string>, resolve: string -> seq<ProjectFile>,
                                thisProject: Option<string>)
    ensures var r := GetRelatedFiles(typeNames, resolve, thisProject);
            && (forall i, j :: 0 <= i < j < |r| ==> r[i].file.fullPath != r[j].file.fullPath)
            && (forall c, f :: c in Candidates.TypeCandidates(typeNames) && f in resolve(c) ==>
                  exists k :: 0 <= k < |r| && r[k].file.fullPath == f.fullPath)
  {
    var cands := Candidates.TypeCandidates(typeNames);
    var found := FlatMap(resolve, cands);
    var r := GetRelatedFiles(typeNames, resolve, thisProject);
    assert r == Occurrences(found, thisProject);
    OccurrencesDistinct(found, thisProject);
    forall c, f | c in cands && f in resolve(c)
      ensures exists k :: 0 <= k < |r| && r[k].file.fullPath == f.fullPath
    {
      FoundFileRelated(resolve, cands, c, f, thisProject);
    }
  }

}
