// The four loops at the end of fileSorter.py, read as the ordered list of
// `shutil.move(source, destination)` calls they make.

module MovePlan {
  import opened Options
  import opened PathText
  import opened Classifier
  import opened Partition

  /** One `shutil.move(source, destination)` call. */
  datatype Move = Move(source: string, destination: string)

  /** `os.path.join(current_directory, <folder name>)`. */
  function FolderPath(root: string, c: Category): string
  {
    Join(root, FolderName(c))
  }

  /** The move of entry `name` of bucket `c`:
      `os.path.join(root, name)` to `os.path.join(root, <folder name>, name)`. */
  function MoveOf(root: string, c: Category, name: string): Move
  {
    Move(Join(root, name), Join(FolderPath(root, c), name))
  }

  /** A bucket entry as one of the four loops visits it. */
  datatype Visit = Visit(bucket: Category, name: string)

  /** One of the four loops: the entries of one bucket, in bucket order. */
  function LoopVisits(c: Category, names: seq<string>): seq<Visit>
  {
    seq(|names|, i requires 0 <= i < |names| => Visit(c, names[i]))
  }

  /** The four loops one after the other: PDFs, then images, music, videos. */
  function LoopOrder(b: Buckets): seq<Visit>
  {
    LoopVisits(Pdf, b.pdfs) + LoopVisits(Image, b.images)
      + LoopVisits(Music, b.music) + LoopVisits(Video, b.videos)
  }

  /** The moves of the four loops, one per visited entry, in loop order. */
  function PlanMoves(root: string, b: Buckets): seq<Move>
  {
    var visits := LoopOrder(b);
    seq(|visits|, k requires 0 <= k < |visits| => MoveOf(root, visits[k].bucket, visits[k].name))
  }

  /** The moves the script makes for a directory listing. */
  function PlanFor(root: string, listing: seq<string>): seq<Move>
  {
    PlanMoves(root, BucketsOf(listing))
  }

  /** Where the moves of bucket `c` start in the plan. */
  function Offset(b: Buckets, c: Category): nat
  {
    match c
    case Pdf => 0
    case Image => |b.pdfs|
    case Music => |b.pdfs| + |b.images|
    case Video => |b.pdfs| + |b.images| + |b.music|
  }

  /** The loops visit every bucket entry once: all PDFs first, then the
      images, music and videos, each in bucket order, and nothing else. */
  lemma LoopOrderLayout(b: Buckets)
    ensures |LoopOrder(b)| == b.Total()
    ensures forall i :: 0 <= i < |b.pdfs| ==> LoopOrder(b)[i] == Visit(Pdf, b.pdfs[i])
    ensures forall i :: 0 <= i < |b.images| ==> LoopOrder(b)[|b.pdfs| + i] == Visit(Image, b.images[i])
    ensures forall i :: 0 <= i < |b.music| ==>
      LoopOrder(b)[|b.pdfs| + |b.images| + i] == Visit(Music, b.music[i])
    ensures forall i :: 0 <= i < |b.videos| ==>
      LoopOrder(b)[|b.pdfs| + |b.images| + |b.music| + i] == Visit(Video, b.videos[i])
  {
    var s1, s2 := LoopVisits(Pdf, b.pdfs), LoopVisits(Image, b.images);
    var s3, s4 := LoopVisits(Music, b.music), LoopVisits(Video, b.videos);
    assert |s1| == |b.pdfs| && |s2| == |b.images| && |s3| == |b.music| && |s4| == |b.videos|;
    FourParts(s1, s2, s3, s4);
    var all := LoopOrder(b);
    forall i | 0 <= i < |b.pdfs|
      ensures all[i] == Visit(Pdf, b.pdfs[i])
    {
      assert all[i] == s1[i];
    }
    forall i | 0 <= i < |b.images|
      ensures all[|s1| + i] == Visit(Image, b.images[i])
    {
      assert all[|s1| + i] == s2[i];
    }
    forall i | 0 <= i < |b.music|
      ensures all[|s1| + |s2| + i] == Visit(Music, b.music[i])
    {
      assert all[|s1| + |s2| + i] == s3[i];
    }
    forall i | 0 <= i < |b.videos|
      ensures all[|s1| + |s2| + |s3| + i] == Visit(Video, b.videos[i])
    {
      assert all[|s1| + |s2| + |s3| + i] == s4[i];
    }
  }

  /** Where each of four concatenated lists sits in the whole. */
  lemma FourParts<T>(s1: seq<T>, s2: seq<T>, s3: seq<T>, s4: seq<T>)
    ensures |s1 + s2 + s3 + s4| == |s1| + |s2| + |s3| + |s4|
    ensures forall j :: 0 <= j < |s1| ==> (s1 + s2 + s3 + s4)[j] == s1[j]
    ensures forall j :: |s1| <= j < |s1| + |s2| ==> (s1 + s2 + s3 + s4)[j] == s2[j - |s1|]
    ensures forall j :: |s1| + |s2| <= j < |s1| + |s2| + |s3| ==>
      (s1 + s2 + s3 + s4)[j] == s3[j - |s1| - |s2|]
    ensures forall j :: |s1| + |s2| + |s3| <= j < |s1| + |s2| + |s3| + |s4| ==>
      (s1 + s2 + s3 + s4)[j] == s4[j - |s1| - |s2| - |s3|]
  {
  }

  /** Entry `pos` of bucket `c` is visited at `Offset(b, c) + pos`. */
  lemma VisitIndex(b: Buckets, c: Category, pos: nat)
    requires pos < |b.Get(c)|
    ensures Offset(b, c) + pos < |LoopOrder(b)|
    ensures LoopOrder(b)[Offset(b, c) + pos] == Visit(c, b.Get(c)[pos])
  {
    LoopOrderLayout(b);
    match c {
      case Pdf =>
      case Image =>
      case Music =>
      case Video =>
    }
  }

  /** Every position of the loop order visits one bucket entry. */
  lemma VisitAt(b: Buckets, k: nat) returns (c: Category, pos: nat)
    requires k < |LoopOrder(b)|
    ensures pos < |b.Get(c)| && k == Offset(b, c) + pos
    ensures LoopOrder(b)[k] == Visit(c, b.Get(c)[pos])
  {
    LoopOrderLayout(b);
    var n1, n2, n3 := |b.pdfs|, |b.pdfs| + |b.images|, |b.pdfs| + |b.images| + |b.music|;
    if k < n1 {
      c, pos := Pdf, k;
    } else if k < n2 {
      c, pos := Image, k - n1;
    } else if k < n3 {
      c, pos := Music, k - n2;
    } else {
      c, pos := Video, k - n3;
    }
  }

  /** The plan holds one move per bucket entry: all PDF moves first, then the
      image, music and video moves, each `root/name` to `root/<Folder>/name`
      in bucket order, and nothing else. */
  lemma PlanLayout(root: string, b: Buckets)
    ensures |PlanMoves(root, b)| == b.Total()
    ensures forall i :: 0 <= i < |b.pdfs| ==> PlanMoves(root, b)[i] == MoveOf(root, Pdf, b.pdfs[i])
    ensures forall i :: 0 <= i < |b.images| ==>
      PlanMoves(root, b)[|b.pdfs| + i] == MoveOf(root, Image, b.images[i])
    ensures forall i :: 0 <= i < |b.music| ==>
      PlanMoves(root, b)[|b.pdfs| + |b.images| + i] == MoveOf(root, Music, b.music[i])
    ensures forall i :: 0 <= i < |b.videos| ==>
      PlanMoves(root, b)[|b.pdfs| + |b.images| + |b.music| + i] == MoveOf(root, Video, b.videos[i])
  {
    LoopOrderLayout(b);
  }

  /** Every position of the plan is the move of one bucket entry. */
  lemma PlanEntryAt(root: string, b: Buckets, k: nat) returns (c: Category, pos: nat)
    requires k < |PlanMoves(root, b)|
    ensures pos < |b.Get(c)| && k == Offset(b, c) + pos
    ensures PlanMoves(root, b)[k] == MoveOf(root, c, b.Get(c)[pos])
  {
    c, pos := VisitAt(b, k);
  }

  /** An entry name is relative, so joining never discards the directory. */
  lemma EntryNameIsRelative(name: string)
    requires IsEntryName(name)
    ensures !IsAbsolute(name)
  {
    if |name| > 0 {
      assert name[0] in name;
    }
  }

  /** Folder names are non-empty entry names, and different for different buckets. */
  lemma FolderNamesWellFormed(c: Category, d: Category)
    ensures |FolderName(c)| > 0 && IsEntryName(FolderName(c))
    ensures FolderName(c) == FolderName(d) ==> c == d
  {
  }

  /** Two moves have the same destination only when they are for the same
      bucket and the same entry name. */
  lemma DestinationInjective(root: string, c1: Category, n1: string, c2: Category, n2: string)
    requires IsEntryName(n1) && IsEntryName(n2)
    ensures MoveOf(root, c1, n1).destination == MoveOf(root, c2, n2).destination <==> c1 == c2 && n1 == n2
  {
    EntryNameIsRelative(n1);
    EntryNameIsRelative(n2);
    FolderNamesWellFormed(c1, c2);
    FolderNamesWellFormed(c2, c1);
    var f1, f2 := FolderName(c1), FolderName(c2);
    JoinNested(root, f1, n1);
    JoinNested(root, f2, n2);
    JoinInjective(root, f1 + "/" + n1, f2 + "/" + n2);
    if f1 + "/" + n1 == f2 + "/" + n2 {
      SplitAtSeparator(f1, n1, f2, n2);
    }
  }

  /** No move's destination is the source of a move: sources lie directly in
      the root, destinations one folder below it. */
  lemma SourceIsNotDestination(root: string, c1: Category, n1: string, c2: Category, n2: string)
    requires IsEntryName(n1) && IsEntryName(n2)
    ensures MoveOf(root, c1, n1).source != MoveOf(root, c2, n2).destination
  {
    EntryNameIsRelative(n2);
    FolderNamesWellFormed(c2, c2);
    JoinLevelsDiffer(root, n1, FolderName(c2), n2);
  }

  /** The buckets of a listing of entry names hold only entry names. */
  lemma BucketEntryNames(listing: seq<string>, c: Category)
    requires forall i :: 0 <= i < |listing| ==> IsEntryName(listing[i])
    ensures forall i :: 0 <= i < |BucketsOf(listing).Get(c)| ==> IsEntryName(BucketsOf(listing).Get(c)[i])
  {
    var bucket := BucketsOf(listing).Get(c);
    forall i | 0 <= i < |bucket|
      ensures IsEntryName(bucket[i])
    {
      SelectMembers(Classify, listing, Some(c), bucket[i]);
    }
  }

  /** The script moves entry `name` into the folder of bucket `c` exactly when
      `name` is listed and the chain sends it to `c`. */
  lemma PlanCovers(root: string, listing: seq<string>, c: Category, name: string)
    requires IsEntryName(name) && forall i :: 0 <= i < |listing| ==> IsEntryName(listing[i])
    ensures MoveOf(root, c, name) in PlanFor(root, listing) <==> name in listing && Classify(name) == Some(c)
  {
    if MoveOf(root, c, name) in PlanFor(root, listing) {
      MovedIsListed(root, listing, c, name);
    }
    if name in listing && Classify(name) == Some(c) {
      ListedIsMoved(root, listing, c, name);
    }
  }

  /** Only listed entries of bucket `c` are moved into the folder of `c`. */
  lemma MovedIsListed(root: string, listing: seq<string>, c: Category, name: string)
    requires IsEntryName(name) && forall i :: 0 <= i < |listing| ==> IsEntryName(listing[i])
    requires MoveOf(root, c, name) in PlanFor(root, listing)
    ensures name in listing && Classify(name) == Some(c)
  {
    var b := BucketsOf(listing);
    var plan := PlanFor(root, listing);
    var k :| 0 <= k < |plan| && plan[k] == MoveOf(root, c, name);
    var d, pos := VisitAt(b, k);
    BucketEntryNames(listing, d);
    DestinationInjective(root, d, b.Get(d)[pos], c, name);
    BucketOfListing(listing, c);
    SelectMembers(Classify, listing, Some(c), name);
  }

  /** Every listed entry of bucket `c` is moved into the folder of `c`. */
  lemma ListedIsMoved(root: string, listing: seq<string>, c: Category, name: string)
    requires name in listing && Classify(name) == Some(c)
    ensures MoveOf(root, c, name) in PlanFor(root, listing)
  {
    var b := BucketsOf(listing);
    BucketOfListing(listing, c);
    SelectMembers(Classify, listing, Some(c), name);
    var pos :| 0 <= pos < |b.Get(c)| && b.Get(c)[pos] == name;
    BucketEntryMoved(root, b, c, pos);
  }

  /** The move of every bucket entry is in the plan. */
  lemma BucketEntryMoved(root: string, b: Buckets, c: Category, pos: nat)
    requires pos < |b.Get(c)|
    ensures MoveOf(root, c, b.Get(c)[pos]) in PlanMoves(root, b)
  {
    VisitIndex(b, c, pos);
    var k := Offset(b, c) + pos;
    assert PlanMoves(root, b)[k] == MoveOf(root, c, b.Get(c)[pos]);
  }

  /** Where a planned move comes from: a listed entry name and its bucket. */
  lemma PlanEntryOrigin(root: string, listing: seq<string>, k: nat) returns (c: Category, name: string)
    requires k < |PlanFor(root, listing)|
    ensures name in listing && Classify(name) == Some(c)
    ensures PlanFor(root, listing)[k] == MoveOf(root, c, name)
  {
    var b := BucketsOf(listing);
    assert PlanFor(root, listing) == PlanMoves(root, b);
    var pos;
    c, pos := PlanEntryAt(root, b, k);
    BucketOfListing(listing, c);
    name := b.Get(c)[pos];
    SelectMembers(Classify, listing, Some(c), name);
  }

  /** Entries at different places of the buckets of a listing of distinct
      names are different names. */
  lemma BucketEntriesDiffer(listing: seq<string>, c1: Category, p1: nat, c2: Category, p2: nat)
    requires Distinct(listing)
    requires p1 < |BucketsOf(listing).Get(c1)| && p2 < |BucketsOf(listing).Get(c2)|
    requires c1 != c2 || p1 != p2
    ensures BucketsOf(listing).Get(c1)[p1] != BucketsOf(listing).Get(c2)[p2]
  {
    BucketOfListing(listing, c1);
    BucketOfListing(listing, c2);
    SelectDistinct(Classify, listing, Some(c1));
    var n1, n2 := Select(Classify, listing, Some(c1))[p1], Select(Classify, listing, Some(c2))[p2];
    assert Classify(n1) == Some(c1) && Classify(n2) == Some(c2);
  }

  /** Two different positions of the plan of a listing of distinct entry
      names hold moves with different sources and different destinations,
      and a source is never a destination. */
  lemma PlanPairDistinct(root: string, listing: seq<string>, i: nat, j: nat)
    requires Distinct(listing) && forall k :: 0 <= k < |listing| ==> IsEntryName(listing[k])
    requires i < |PlanFor(root, listing)| && j < |PlanFor(root, listing)|
    ensures i != j ==> PlanFor(root, listing)[i].source != PlanFor(root, listing)[j].source
    ensures i != j ==> PlanFor(root, listing)[i].destination != PlanFor(root, listing)[j].destination
    ensures PlanFor(root, listing)[i].source != PlanFor(root, listing)[j].destination
  {
    var b := BucketsOf(listing);
    assert PlanFor(root, listing) == PlanMoves(root, b);
    var c1, p1 := PlanEntryAt(root, b, i);
    var c2, p2 := PlanEntryAt(root, b, j);
    var n1, n2 := b.Get(c1)[p1], b.Get(c2)[p2];
    BucketEntryNames(listing, c1);
    BucketEntryNames(listing, c2);
    SourceIsNotDestination(root, c1, n1, c2, n2);
    if i != j {
      BucketEntriesDiffer(listing, c1, p1, c2, p2);
      DestinationInjective(root, c1, n1, c2, n2);
      EntryNameIsRelative(n1);
      EntryNameIsRelative(n2);
      JoinInjective(root, n1, n2);
    }
  }

  /** For a listing of distinct entry names (what `os.listdir` returns), no
      two planned moves share a source or a destination, and no destination
      is the source of another move. */
  lemma PlanIsCollisionFree(root: string, listing: seq<string>)
    requires Distinct(listing) && forall i :: 0 <= i < |listing| ==> IsEntryName(listing[i])
    ensures forall i, j :: 0 <= i < j < |PlanFor(root, listing)| ==>
      PlanFor(root, listing)[i].source != PlanFor(root, listing)[j].source &&
      PlanFor(root, listing)[i].destination != PlanFor(root, listing)[j].destination
    ensures forall i, j :: 0 <= i < |PlanFor(root, listing)| && 0 <= j < |PlanFor(root, listing)| ==>
      PlanFor(root, listing)[i].source != PlanFor(root, listing)[j].destination
  {
    var plan := PlanFor(root, listing);
    forall i, j | 0 <= i < |plan| && 0 <= j < |plan|
      ensures i < j ==> plan[i].source != plan[j].source && plan[i].destination != plan[j].destination
      ensures plan[i].source != plan[j].destination
    {
      PlanPairDistinct(root, listing, i, j);
    }
  }
}
