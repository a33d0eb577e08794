# fileSorter in Dafny

A model of `fileSorter.py`, a script that tidies the current directory: it
tries to create the folders `Pdfs`, `Images`, `Music` and `Videos`, lists the
directory, sorts each entry name into one of four buckets by a case-sensitive
suffix test, and moves every bucketed entry into its folder under the same
name.

The model keeps the script's three decisions and proves what they guarantee:

- `path_text.dfy` (module `PathText`): Python's `str.endswith` and POSIX
  two-argument `os.path.join` (an absolute second part replaces the first; no
  separator is added after a directory that already ends with `/`), with the
  facts about joined paths that the move plan needs. The three-part joins of
  lines 64-73 are two two-part joins in a row, as POSIX `os.path.join` does.
- `classifier.dfy` (modules `Options`, `Classifier`): the four buckets, their
  folder names, the suffix table, and `Classify`, the bucket the script's
  `if/elif` chain picks. `Classify` is the first-match rule over the order
  PDF, images, music, videos, and it is proved equal to the chain written
  test by test (`IfElifChain`). Suffixes of different buckets end in
  different characters, so no name passes two tests and the order never
  decides. Matching is case-sensitive.
- `partition.dfy` (module `Partition`): the loop that appends each listed name
  to at most one bucket, as a method with loop invariants, specified by
  `Select` (the names a classifying rule sends to one bucket, in listing
  order). The facts about `Select` hold for any rule that decides one name
  at a time; the buckets use `Classify`. The lemmas say that each bucket holds
  exactly the listed names of its category, keeps listing order, and that
  every listed occurrence lands in exactly one bucket or is dropped.
- `move_plan.dfy` (module `MovePlan`): the four move loops as the ordered list
  of `shutil.move(source, destination)` calls: first the (bucket, name) pairs
  the loops visit, then one move per pair. It states the plan's layout (PDFs,
  then images, music, videos, each in bucket order), that a name is moved
  into a folder exactly when it is listed and classified for it, and that
  for a listing of distinct entry names no two moves share a source or a
  destination and no destination is another move's source.
- `folder_setup.dfy` (module `FolderSetup`): the folder test and the
  `os.mkdir` calls it guards. The file system is a set of existing paths. A
  run of `os.mkdir` calls that raises keeps the folders it created before
  the path that raised.

The file system is an input to the model: the listing is a `seq<string>` in
whatever order `os.listdir` returns, the current directory is a `root`
string, and `os.path.exists` is membership in a set of paths.

The project's design documentation describes a richer program (case-insensitive
matching, an "Other" category, recursive scanning, `_N` renaming on name
collisions, undo history). The script implements none of that, and the model
follows the script. In particular, that documentation's example of a
directory with only `Pdfs` present, where the missing folders get created,
is a case where the script raises instead (see Findings).

## Model

| member | source | states |
|---|---|---|
| `PathText.JoinShape` | fileSorter.py:26-29 | `os.path.join(dir, name)`: an absolute name replaces the directory; otherwise the result is the directory, one separator unless the directory is empty or already ends with one, and the name |
| `PathText.DirPrefixShape` | fileSorter.py:26-29 | the directory part of a join extends the directory and is empty or ends with a separator |
| `PathText.JoinInjective` | fileSorter.py:64-73 | joining one directory with two relative names gives equal paths exactly when the names are equal |
| `PathText.JoinNested` | fileSorter.py:64-73 | the three-part join `os.path.join(root, folder, name)` is the join of `root` with the relative path `folder/name` |
| `PathText.JoinLevelsDiffer` | fileSorter.py:64-73 | a path directly under a directory is never a path one folder below it |
| `Classifier.FirstMatch` | fileSorter.py:49-57 | a first-match rule returns a bucket of its order whose test passes, and returns none only when no bucket of the order passes |
| `Classifier.Classify` | fileSorter.py:50-57 | a name goes to a bucket only when it passes that bucket's suffix test, and to none only when it passes no test |
| `Classifier.ClassifyIsIfElifChain` | fileSorter.py:49-57 | the first-match rule over the order PDF, images, music, videos with the suffix table `.pdf`; `.png` `.jpeg` `.jpg`; `.mp3`; `.mp4` `.webm` is the script's chain, test by test |
| `Classifier.FirstMatchIsFirst` | fileSorter.py:49-57 | first match gives bucket `c` exactly when `c`'s test passes and no earlier bucket's test does |
| `Classifier.SuffixLastChar` | fileSorter.py:50-56 | every suffix of the table ends in a lower-case letter or digit, and that character tells its bucket |
| `Classifier.TestsAreExclusive` | fileSorter.py:50-57 | no name passes the tests of two different buckets |
| `Classifier.ClassifyDecides` | fileSorter.py:50-57 | a name goes to bucket `c` exactly when it passes `c`'s test, and to no bucket exactly when it passes none |
| `Classifier.UpperCaseEndingUnsorted` | fileSorter.py:50-56 | a name ending in an upper-case letter goes to no bucket, because the tests are case-sensitive |
| `Classifier.UpperCasePdfUnsorted` | fileSorter.py:50 | `A.PDF` goes to no bucket |
| `Classifier.MixedCaseJpgUnsorted` | fileSorter.py:52 | `x.Jpg` goes to no bucket |
| `Classifier.FolderNamesUnsorted` | fileSorter.py:19-22 | the folder names `Pdfs`, `Images`, `Music`, `Videos`, which the listing contains, go to no bucket |
| `Partition.Select` | fileSorter.py:49-57 | the names sent to one bucket are no more than the listing and all classified for that bucket |
| `Partition.Partition` | fileSorter.py:49-57 | the loop's four lists are the listing's selections for PDFs, images, music and videos |
| `Partition.SelectMembers` | fileSorter.py:49-57 | a name is in a bucket exactly when it is listed and classified for that bucket |
| `Partition.SelectPositions` | fileSorter.py:49-57 | the increasing positions in the listing of a bucket's names |
| `Partition.SelectIsSubsequence` | fileSorter.py:49-57 | each bucket is a subsequence of the listing, in listing order |
| `Partition.SelectCount` | fileSorter.py:49-57 | a name occurs in the selection of its own category as often as in the listing, and in no other selection |
| `Partition.PartitionIsExact` | fileSorter.py:49-57 | the four buckets and the dropped names together are the listing as a multiset |
| `Partition.AtMostOneBucket` | fileSorter.py:49-57 | a name occurs in the bucket of its category as often as in the listing, and never in another bucket |
| `Partition.BucketSizes` | fileSorter.py:49-57 | the bucket sizes plus the dropped names sum to the listing length, so the buckets hold at most that many |
| `Partition.SelectDistinct` | fileSorter.py:47-57 | a listing without repeated names gives buckets without repeated names |
| `MovePlan.LoopOrderLayout` | fileSorter.py:63-73 | the four loops visit every bucket entry once: PDFs first, then images, music, videos, each in bucket order |
| `MovePlan.VisitAt` | fileSorter.py:63-73 | every position of the loop order is one bucket entry at a known offset |
| `MovePlan.PlanLayout` | fileSorter.py:63-73 | the plan has one move per bucket entry: PDF moves, then image, music and video moves, each `root/name` to `root/<Folder>/name` in bucket order |
| `MovePlan.PlanEntryAt` | fileSorter.py:63-73 | every plan position is the move of one bucket entry at a known offset |
| `MovePlan.DestinationInjective` | fileSorter.py:64-73 | two moves have the same destination exactly when they are for the same bucket and the same entry name |
| `MovePlan.SourceIsNotDestination` | fileSorter.py:64-73 | no move's destination is a move's source |
| `MovePlan.PlanCovers` | fileSorter.py:47-73 | the script moves `name` into the folder of `c` exactly when `name` is listed and classified for `c` |
| `MovePlan.PlanEntryOrigin` | fileSorter.py:47-73 | every planned move is the move of a listed name into the folder of its category |
| `MovePlan.PlanIsCollisionFree` | fileSorter.py:63-73 | for distinct entry names, no two moves share a source or a destination and no destination is a source |
| `FolderSetup.CreateDecision` | fileSorter.py:32 | the folders are created exactly when a folder other than `Videos` is missing |
| `FolderSetup.VideosIrrelevant` | fileSorter.py:32 | whether `Videos` exists never changes the decision |
| `FolderSetup.FolderPathsDistinct` | fileSorter.py:26-29 | two bucket folder paths are equal exactly when the buckets are |
| `FolderSetup.AllFolderPathsDistinct` | fileSorter.py:33-36 | the four paths created differ pairwise |
| `FolderSetup.MkdirAll` | fileSorter.py:33-36 | consecutive `os.mkdir` calls succeed exactly when the paths are distinct and none exists, and then add exactly those paths; otherwise they raise at the first path `k` that exists or repeats an earlier one, having created exactly the distinct, missing paths before `k` |
| `FolderSetup.AsWrittenFailsOnExistingFolder` | fileSorter.py:32-36 | when the test fires while any bucket folder exists, the step raises `FileExistsError` |
| `FolderSetup.AsWrittenExample` | fileSorter.py:32-36 | with only `<root>/Pdfs` present the first `os.mkdir` raises and nothing is created |
| `FolderSetup.AsWrittenOnlyVideos` | fileSorter.py:32-36 | with only `<root>/Videos` present `Pdfs`, `Images` and `Music` are created before the last `os.mkdir` raises, after which the step creates nothing and raises nothing |
| `FolderSetup.AsWrittenSkipsVideos` | fileSorter.py:32-73 | with `Pdfs`, `Images`, `Music` present and `Videos` missing nothing is created, yet the script still calls `shutil.move` into the missing `Videos` folder for a listed `.mp4`, which fails |
| `FolderSetup.MissingPaths` | fileSorter.py:32-36 | the paths of the list that do not exist yet, without repetitions when the list has none |
| `FolderSetup.AllMissing` | fileSorter.py:32-36 | when no path exists, all are missing |
| `FolderSetup.EnsureFoldersSucceeds` | fileSorter.py:32-36 | creating only the missing folders, as the comment at line 9 announces, never raises and leaves all four bucket folders present |
| `FolderSetup.AsWrittenAgreesOnFreshDirectory` | fileSorter.py:32-36 | when no bucket folder exists, the script's step and the corrected step agree |

## Left out

- The file system calls `os.getcwd`, `os.listdir`, `os.path.exists`, `os.mkdir` and `shutil.move`: the current directory, the listing and the set of existing paths are inputs; the model computes the mkdir outcome and the list of moves, not their effect on a disk.
- What `shutil.move` does at a destination that already exists (overwrite on POSIX, or moving into a directory), across devices, or when the destination folder is missing: the plan stops at the calls.
- That a listed entry may itself be a directory (a directory named `x.pdf` would be moved too): names are classified as strings only.
- `os.mkdir` errors other than `FileExistsError` (permissions, a missing parent).
- Console output (lines 37-45 and 61).
- The loop at lines 10-11, which computes a path and discards it.
- `build_exe.py` and `setup.py`: packaging and metadata, no sorting logic.
- PathText.Join: models POSIX `posixpath.join` (separator `/`, an absolute part starts with `/`), while `build_exe.py` (lines 78 and 103) packages the script as a Windows 10/11 executable, where `ntpath.join` uses `\`, accepts `/` too and treats drive letters; Windows paths are not modelled.
- Case-insensitive matching, an "Other" category, recursive scanning, renaming on name collisions, undo and history, progress reporting and concurrency: described by the project's design documentation but absent from the script.
- The corrected folder step `EnsureFolders` is not combined with the move plan into one run of the script: the plan does not depend on the folder step, and `FolderSetup.FoldersReady` with `FolderSetup.EnsureFoldersSucceeds` states what the moves need from it.

## Findings

| source | as written | input that shows it | evidently intended | confidence | as-written member | corrected member |
|---|---|---|---|---|---|---|
| fileSorter.py:32-36 | when any of `Pdfs`, `Images`, `Music` is missing, all four folders are created with `os.mkdir`, which raises `FileExistsError` for a folder that already exists and ends the script; the folders before it in the order `Pdfs`, `Images`, `Music`, `Videos` have been created by then, so with only `Videos` present `Pdfs`, `Images` and `Music` are created and the next run passes the test, while with only `Pdfs` present nothing is created and every run fails | current directory `/home/user` with only `/home/user/Pdfs` present | create each missing folder, as the comment at line 9 announces | high; not executed | `FolderSetup.AsWrittenFailsOnExistingFolder` | `FolderSetup.EnsureFoldersSucceeds` |
| fileSorter.py:32 | `Videos` is not part of the test, so with the other three folders present a missing `Videos` is never created, yet the script still calls `shutil.move` into the missing `Videos` folder for each `.mp4`/`.webm` file, which fails | `Pdfs`, `Images`, `Music` present, `Videos` missing, `clip.mp4` listed | create `Videos` as well when it is missing | high; not executed | `FolderSetup.AsWrittenSkipsVideos` | `FolderSetup.EnsureFoldersSucceeds` |
