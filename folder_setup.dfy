// The folder step of fileSorter.py: the test whether the bucket folders exist
// and the `os.mkdir` calls it guards. The file system is a set of existing
// paths; `os.path.exists(p)` is `p in existing`.

module FolderSetup {
  import opened PathText
  import opened Classifier
  import opened Partition
  import opened MovePlan

  /** The script's test: create the folders unless `Pdfs`, `Images` and
      `Music` all exist. `Videos` is not tested. */
  function ShouldCreateFolders(root: string, existing: set<string>): bool
  {
    !(FolderPath(root, Pdf) in existing && FolderPath(root, Image) in existing && FolderPath(root, Music) in existing)
  }

  /** The folders are created exactly when a folder other than `Videos` is
      missing. */
  lemma CreateDecision(root: string, existing: set<string>)
    ensures ShouldCreateFolders(root, existing) <==> exists c :: c != Video && FolderPath(root, c) !in existing
  {
    if ShouldCreateFolders(root, existing) {
      if FolderPath(root, Pdf) !in existing {
        assert Pdf != Video;
      } else if FolderPath(root, Image) !in existing {
        assert Image != Video;
      } else {
        assert Music != Video;
      }
    }
  }

  /** Different buckets have different folder paths. */
  lemma FolderPathsDistinct(root: string, c: Category, d: Category)
    ensures FolderPath(root, c) == FolderPath(root, d) <==> c == d
  {
    FolderNamesWellFormed(c, d);
    FolderNamesWellFormed(d, c);
    EntryNameIsRelative(FolderName(c));
    EntryNameIsRelative(FolderName(d));
    JoinInjective(root, FolderName(c), FolderName(d));
  }

  /** Whether `Videos` exists never changes the decision. */
  lemma VideosIrrelevant(root: string, existing: set<string>)
    ensures ShouldCreateFolders(root, existing + {FolderPath(root, Video)}) ==
            ShouldCreateFolders(root, existing - {FolderPath(root, Video)})
  {
    FolderPathsDistinct(root, Pdf, Video);
    FolderPathsDistinct(root, Image, Video);
    FolderPathsDistinct(root, Music, Video);
  }

  /** The folders in the order the script creates them. */
  function AllFolderPaths(root: string): seq<string>
  {
    [FolderPath(root, Pdf), FolderPath(root, Image), FolderPath(root, Music), FolderPath(root, Video)]
  }

  /** The four folder paths are pairwise different. */
  lemma AllFolderPathsDistinct(root: string)
    ensures Distinct(AllFolderPaths(root))
  {
    FolderPathsDistinct(root, Pdf, Image);
    FolderPathsDistinct(root, Pdf, Music);
    FolderPathsDistinct(root, Pdf, Video);
    FolderPathsDistinct(root, Image, Music);
    FolderPathsDistinct(root, Image, Video);
    FolderPathsDistinct(root, Music, Video);
    DistinctFour(FolderPath(root, Pdf), FolderPath(root, Image), FolderPath(root, Music), FolderPath(root, Video));
  }

  /** Four pairwise different paths form a list without repetitions. */
  lemma DistinctFour(a: string, b: string, c: string, d: string)
    requires a != b && a != c && a != d && b != c && b != d && c != d
    ensures Distinct([a, b, c, d])
  {
  }

  /** What a run of `os.mkdir` calls leaves: all created, or stopped by
      `FileExistsError` at `path`, with `folders` the paths existing then. */
  datatype MkdirOutcome = Created(folders: set<string>) | AlreadyExists(path: string, folders: set<string>)

  /** A run of `os.mkdir` calls over `paths`, starting from `existing`, raised
      at position `k`: the paths before `k` were all missing and different and
      have been created, and `paths[k]` is one of those or existed before. */
  ghost predicate StoppedAt(existing: set<string>, paths: seq<string>, k: int, path: string, folders: set<string>)
  {
    0 <= k < |paths| && path == paths[k] &&
    (forall i :: 0 <= i < k ==> paths[i] !in existing) && Distinct(paths[..k]) &&
    (paths[k] in existing || paths[k] in paths[..k]) &&
    folders == existing + set p | p in paths[..k]
  }

  /** `os.mkdir` on each path in turn; the first path that already exists
      raises and ends the run, leaving the folders created before it. */
  function MkdirAll(existing: set<string>, paths: seq<string>): (r: MkdirOutcome)
    ensures existing <= r.folders
    ensures r.Created? <==> Distinct(paths) && forall i :: 0 <= i < |paths| ==> paths[i] !in existing
    ensures r.Created? ==> r.folders == existing + set p | p in paths
    ensures r.AlreadyExists? ==> r.path in paths && r.path in r.folders
    ensures r.AlreadyExists? ==> exists k :: StoppedAt(existing, paths, k, r.path, r.folders)
    decreases |paths|
  {
    if paths == [] then Created(existing)
    else if paths[0] in existing then
      StoppedAtFirst(existing, paths);
      AlreadyExists(paths[0], existing)
    else
      var r := MkdirAll(existing + {paths[0]}, paths[1..]);
      assert forall i :: 1 <= i < |paths| ==> paths[i] == paths[1..][i - 1];
      assert r.Created? ==> (set p | p in paths) == {paths[0]} + set p | p in paths[1..];
      assert (forall i :: 0 <= i < |paths| ==> paths[i] !in existing) && Distinct(paths) <==>
        paths[0] !in existing && (forall i :: 0 <= i < |paths[1..]| ==> paths[1..][i] !in existing + {paths[0]})
          && Distinct(paths[1..]);
      if r.AlreadyExists? then
        StoppedLater(existing, paths, r.path, r.folders);
        r
      else r
  }

  /** A run whose first path exists raises at once and creates nothing. */
  lemma StoppedAtFirst(existing: set<string>, paths: seq<string>)
    requires paths != [] && paths[0] in existing
    ensures StoppedAt(existing, paths, 0, paths[0], existing)
  {
    assert paths[..0] == [];
  }

  /** Creating `paths[0]` and then raising at position `k` of the rest is
      raising at position `k + 1`. */
  lemma StoppedLater(existing: set<string>, paths: seq<string>, path: string, folders: set<string>)
    requires paths != [] && paths[0] !in existing
    requires exists k :: StoppedAt(existing + {paths[0]}, paths[1..], k, path, folders)
    ensures exists k :: StoppedAt(existing, paths, k, path, folders)
  {
    var rest := paths[1..];
    var k :| StoppedAt(existing + {paths[0]}, rest, k, path, folders);
    assert paths[..k + 1] == [paths[0]] + rest[..k];
    forall i | 0 <= i < k + 1
      ensures paths[i] !in existing
    {
      if i > 0 {
        assert paths[i] == rest[i - 1];
      }
    }
    forall j | 0 <= j < k
      ensures rest[..k][j] != paths[0]
    {
      assert rest[..k][j] == rest[j];
    }
    DistinctCons(paths[0], rest[..k]);
    var created, later := paths[..k + 1], rest[..k];
    assert (set p | p in created) == {paths[0]} + set p | p in later;
    assert StoppedAt(existing, paths, k + 1, path, folders);
  }

  /** A new path in front of a list without repetitions gives one. */
  lemma DistinctCons(x: string, s: seq<string>)
    requires Distinct(s) && x !in s
    ensures Distinct([x] + s)
  {
    var t := [x] + s;
    forall i, j | 0 <= i < j < |t|
      ensures t[i] != t[j]
    {
      assert t[j] == s[j - 1];
      if i > 0 {
        assert t[i] == s[i - 1];
      }
    }
  }

  /** Lines 32-36 as written: when the test fires, `os.mkdir` all four
      folders in order; otherwise create nothing. */
  function FolderStepAsWritten(root: string, existing: set<string>): MkdirOutcome
  {
    if ShouldCreateFolders(root, existing) then MkdirAll(existing, AllFolderPaths(root)) else Created(existing)
  }

  /** As written, the step raises `FileExistsError` whenever the test fires
      while some bucket folder already exists. */
  lemma AsWrittenFailsOnExistingFolder(root: string, existing: set<string>, c: Category)
    requires ShouldCreateFolders(root, existing) && FolderPath(root, c) in existing
    ensures FolderStepAsWritten(root, existing).AlreadyExists?
  {
    var p := AllFolderPaths(root);
    var i := match c case Pdf => 0 case Image => 1 case Music => 2 case Video => 3;
    assert p[i] == FolderPath(root, c);
  }

  /** A directory holding only `Pdfs`: the script stops at its first `os.mkdir`. */
  lemma AsWrittenExample(root: string)
    ensures FolderStepAsWritten(root, {FolderPath(root, Pdf)}) ==
      AlreadyExists(FolderPath(root, Pdf), {FolderPath(root, Pdf)})
  {
    FolderPathsDistinct(root, Pdf, Image);
  }

  /** A directory holding only `Videos`: the script creates `Pdfs`, `Images`
      and `Music` before its last `os.mkdir` raises, so that the next run's
      test no longer fires. */
  lemma AsWrittenOnlyVideos(root: string)
    ensures FolderStepAsWritten(root, {FolderPath(root, Video)}) ==
      AlreadyExists(FolderPath(root, Video), set p | p in AllFolderPaths(root))
    ensures FolderStepAsWritten(root, set p | p in AllFolderPaths(root)) ==
      Created(set p | p in AllFolderPaths(root))
  {
    var all := AllFolderPaths(root);
    FolderPathsDistinct(root, Pdf, Image);
    FolderPathsDistinct(root, Pdf, Music);
    FolderPathsDistinct(root, Image, Music);
    FolderPathsDistinct(root, Pdf, Video);
    FolderPathsDistinct(root, Image, Video);
    FolderPathsDistinct(root, Music, Video);
    MkdirUpToLast(all[0], all[1], all[2], all[3]);
    assert all == [all[0], all[1], all[2], all[3]];
  }

  /** Four `os.mkdir` calls of which only the last path exists create the
      first three and then raise. */
  lemma MkdirUpToLast(a: string, b: string, c: string, d: string)
    requires a != b && a != c && b != c && a != d && b != d && c != d
    ensures MkdirAll({d}, [a, b, c, d]) == AlreadyExists(d, set p | p in [a, b, c, d])
  {
    var s := [a, b, c, d];
    var e1, e2, e3 := {d} + {a}, {d} + {a} + {b}, {d} + {a} + {b} + {c};
    assert MkdirAll(e3, [d]) == AlreadyExists(d, e3);
    assert MkdirAll(e2, [c, d]) == MkdirAll(e3, [d]) by {
      assert [c, d][1..] == [d];
    }
    assert MkdirAll(e1, [b, c, d]) == MkdirAll(e2, [c, d]) by {
      assert [b, c, d][1..] == [c, d];
    }
    assert MkdirAll({d}, s) == MkdirAll(e1, [b, c, d]) by {
      assert s[1..] == [b, c, d];
    }
    assert (set p | p in s) == e3;
  }

  /** As written, with `Pdfs`, `Images` and `Music` present and `Videos`
      missing, nothing is created, yet the script still calls `shutil.move`
      into the missing `Videos` folder for every listed video, which fails. */
  lemma AsWrittenSkipsVideos(root: string, existing: set<string>, listing: seq<string>, video: string)
    requires FolderPath(root, Pdf) in existing && FolderPath(root, Image) in existing && FolderPath(root, Music) in existing
    requires FolderPath(root, Video) !in existing
    requires forall i :: 0 <= i < |listing| ==> IsEntryName(listing[i])
    requires video in listing && EndsWith(video, ".mp4")
    ensures FolderStepAsWritten(root, existing) == Created(existing)
    ensures FolderPath(root, Video) !in FolderStepAsWritten(root, existing).folders
    ensures MoveOf(root, Video, video) in PlanFor(root, listing)
  {
    assert ".mp4" in Suffixes(Video);
    ClassifyDecides(video, Video);
    var i :| 0 <= i < |listing| && listing[i] == video;
    PlanCovers(root, listing, Video, video);
  }

  /** The paths of `paths` that do not exist yet. */
  function MissingPaths(existing: set<string>, paths: seq<string>): (r: seq<string>)
    ensures forall p :: p in r <==> p in paths && p !in existing
    ensures Distinct(paths) ==> Distinct(r)
  {
    if paths == [] then []
    else
      var rest := MissingPaths(existing, paths[1..]);
      assert Distinct(paths) ==> Distinct(paths[1..]) && paths[0] !in paths[1..];
      if paths[0] in existing then rest else [paths[0]] + rest
  }

  /** Every bucket folder exists. */
  predicate FoldersReady(root: string, folders: set<string>)
  {
    forall c :: FolderPath(root, c) in folders
  }

  /** The evident intent of lines 9-36 ("create the folders if they don't
      exist"): `os.mkdir` exactly the missing folders, `Videos` included. */
  function EnsureFolders(root: string, existing: set<string>): MkdirOutcome
  {
    MkdirAll(existing, MissingPaths(existing, AllFolderPaths(root)))
  }

  /** The corrected step never raises, adds exactly the missing folders, and
      leaves every bucket folder in place for the moves. */
  lemma EnsureFoldersSucceeds(root: string, existing: set<string>)
    ensures EnsureFolders(root, existing).Created?
    ensures EnsureFolders(root, existing).folders == existing + set p | p in AllFolderPaths(root)
    ensures FoldersReady(root, EnsureFolders(root, existing).folders)
  {
    var all := AllFolderPaths(root);
    var missing := MissingPaths(existing, all);
    AllFolderPathsDistinct(root);
    forall i | 0 <= i < |missing|
      ensures missing[i] !in existing
    {
      assert missing[i] in missing;
    }
    MissingUnion(existing, all);
    forall c
      ensures FolderPath(root, c) in set p | p in all
    {
      var i := match c case Pdf => 0 case Image => 1 case Music => 2 case Video => 3;
      assert all[i] == FolderPath(root, c);
    }
  }

  /** Adding the missing paths adds all of them. */
  lemma MissingUnion(existing: set<string>, paths: seq<string>)
    ensures existing + (set p | p in MissingPaths(existing, paths)) == existing + set p | p in paths
  {
  }

  /** When no path of `paths` exists, all of them are missing. */
  lemma {:induction false} AllMissing(existing: set<string>, paths: seq<string>)
    requires forall i :: 0 <= i < |paths| ==> paths[i] !in existing
    ensures MissingPaths(existing, paths) == paths
  {
    if paths != [] {
      AllMissing(existing, paths[1..]);
    }
  }

  /** Where none of the folders exists yet, the script as written already
      does what the corrected step does. */
  lemma AsWrittenAgreesOnFreshDirectory(root: string, existing: set<string>)
    requires forall c :: FolderPath(root, c) !in existing
    ensures FolderStepAsWritten(root, existing) == EnsureFolders(root, existing)
  {
    var all := AllFolderPaths(root);
    forall i | 0 <= i < |all|
      ensures all[i] !in existing
    {
      var c := if i == 0 then Pdf else if i == 1 then Image else if i == 2 then Music else Video;
      assert all[i] == FolderPath(root, c);
    }
    AllMissing(existing, all);
    assert FolderPath(root, Pdf) !in existing;
  }
}
