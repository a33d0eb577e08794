// The loop of fileSorter.py that walks the directory listing and appends each
// entry name to at most one of the four bucket lists.

module Partition {
  import opened Options
  import opened Classifier

  /** The entries of `listing` that `classify` sends to `o` (a bucket, or
      `None` for the entries it drops), in listing order. The script's loop
      uses `Classify`; the facts below hold for any rule deciding one entry
      at a time. */
  function Select(classify: string -> Option<Category>, listing: seq<string>, o: Option<Category>): (r: seq<string>)
    ensures |r| <= |listing|
    ensures forall i :: 0 <= i < |r| ==> classify(r[i]) == o
    decreases |listing|
  {
    if listing == [] then []
    else
      var last := listing[|listing| - 1];
      Select(classify, listing[..|listing| - 1], o) + (if classify(last) == o then [last] else [])
  }

  /** The four lists `pdf_contents`, `images_contents`, `mp3_contents` and
      `videos_contents`. */
  datatype Buckets = Buckets(pdfs: seq<string>, images: seq<string>, music: seq<string>, videos: seq<string>)
  {
    function Get(c: Category): seq<string>
    {
      match c
      case Pdf => pdfs
      case Image => images
      case Music => music
      case Video => videos
    }

    function Total(): nat
    {
      |pdfs| + |images| + |music| + |videos|
    }
  }

  /** The buckets the loop builds from `listing`. */
  function BucketsOf(listing: seq<string>): Buckets
  {
    Buckets(Select(Classify, listing, Some(Pdf)), Select(Classify, listing, Some(Image)),
            Select(Classify, listing, Some(Music)), Select(Classify, listing, Some(Video)))
  }

  /** Bucket `c` of a listing is the selection of the entries sent to `c`. */
  lemma BucketOfListing(listing: seq<string>, c: Category)
    ensures BucketsOf(listing).Get(c) == Select(Classify, listing, Some(c))
  {
  }

  /** The script's loop over `directory_contents`: each entry is appended to
      the bucket its first passing test names, or to none. */
  method Partition(listing: seq<string>) returns (b: Buckets)
    ensures b == BucketsOf(listing)
  {
    var pdfs, images, music, videos := [], [], [], [];
    for i := 0 to |listing|
      invariant pdfs == Select(Classify, listing[..i], Some(Pdf))
      invariant images == Select(Classify, listing[..i], Some(Image))
      invariant music == Select(Classify, listing[..i], Some(Music))
      invariant videos == Select(Classify, listing[..i], Some(Video))
    {
      var item := listing[i];
      assert listing[..i + 1][..i] == listing[..i];
      match Classify(item)
      case Some(Pdf) => pdfs := pdfs + [item];
      case Some(Image) => images := images + [item];
      case Some(Music) => music := music + [item];
      case Some(Video) => videos := videos + [item];
      case None =>
    }
    assert listing[..|listing|] == listing;
    b := Buckets(pdfs, images, music, videos);
  }

  /** An entry is in the selection for `o` exactly when it is listed and the
      `classify` sends it to `o`. */
  lemma {:induction false} SelectMembers(classify: string -> Option<Category>, listing: seq<string>, o: Option<Category>, x: string)
    ensures x in Select(classify, listing, o) <==> x in listing && classify(x) == o
    decreases |listing|
  {
    if listing != [] {
      var init := listing[..|listing| - 1];
      SelectMembers(classify, init, o, x);
      assert listing == init + [listing[|listing| - 1]];
    }
  }

  /** `idx` lists, in increasing order, the positions of `full` that hold the
      elements of `sub`. */
  ghost predicate Embeds(idx: seq<int>, sub: seq<string>, full: seq<string>)
  {
    && |idx| == |sub|
    && (forall k :: 0 <= k < |idx| ==> 0 <= idx[k] < |full| && sub[k] == full[idx[k]])
    && (forall k, l :: 0 <= k < l < |idx| ==> idx[k] < idx[l])
  }

  /** `sub` is `full` with some elements left out and the rest in order. */
  ghost predicate IsSubsequence(sub: seq<string>, full: seq<string>)
  {
    exists idx :: Embeds(idx, sub, full)
  }

  /** The position in `listing` of each selected entry. */
  lemma {:induction false} SelectPositions(classify: string -> Option<Category>, listing: seq<string>, o: Option<Category>) returns (idx: seq<int>)
    ensures Embeds(idx, Select(classify, listing, o), listing)
    decreases |listing|
  {
    if listing == [] {
      idx := [];
    } else {
      var n := |listing| - 1;
      var init := listing[..n];
      var inner := SelectPositions(classify, init, o);
      if classify(listing[n]) == o {
        idx := inner + [n];
      } else {
        idx := inner;
      }
    }
  }

  /** Each bucket keeps the listing order: it is a subsequence of the listing. */
  lemma SelectIsSubsequence(classify: string -> Option<Category>, listing: seq<string>, o: Option<Category>)
    ensures IsSubsequence(Select(classify, listing, o), listing)
  {
    var idx := SelectPositions(classify, listing, o);
  }

  /** An entry occurs in the selection for its own category as often as in
      the listing, and in no other selection. */
  lemma {:induction false} SelectCount(classify: string -> Option<Category>, listing: seq<string>, o: Option<Category>, x: string)
    ensures multiset(Select(classify, listing, o))[x] == if classify(x) == o then multiset(listing)[x] else 0
    decreases |listing|
  {
    if listing != [] {
      var n := |listing| - 1;
      var init, last := listing[..n], listing[n];
      SelectCount(classify, init, o, x);
      assert listing == init + [last];
      CountAppend(init, [last], x);
      if classify(last) == o {
        assert Select(classify, listing, o) == Select(classify, init, o) + [last];
        CountAppend(Select(classify, init, o), [last], x);
      } else {
        assert Select(classify, listing, o) == Select(classify, init, o);
      }
    }
  }

  /** Occurrences in a concatenation add up. */
  lemma CountAppend(s: seq<string>, t: seq<string>, x: string)
    ensures multiset(s + t)[x] == multiset(s)[x] + multiset(t)[x]
  {
  }

  /** Every occurrence of an entry in the listing lands in exactly one of the
      four buckets or among the dropped entries. */
  lemma PartitionIsExact(classify: string -> Option<Category>, listing: seq<string>)
    ensures multiset(Select(classify, listing, Some(Pdf))) + multiset(Select(classify, listing, Some(Image)))
          + multiset(Select(classify, listing, Some(Music))) + multiset(Select(classify, listing, Some(Video)))
          + multiset(Select(classify, listing, None)) == multiset(listing)
  {
    var whole := multiset(Select(classify, listing, Some(Pdf))) + multiset(Select(classify, listing, Some(Image)))
          + multiset(Select(classify, listing, Some(Music))) + multiset(Select(classify, listing, Some(Video)))
          + multiset(Select(classify, listing, None));
    forall x
      ensures whole[x] == multiset(listing)[x]
    {
      SelectCount(classify, listing, Some(Pdf), x);
      SelectCount(classify, listing, Some(Image), x);
      SelectCount(classify, listing, Some(Music), x);
      SelectCount(classify, listing, Some(Video), x);
      SelectCount(classify, listing, None, x);
      match classify(x) {
        case None =>
        case Some(Pdf) =>
        case Some(Image) =>
        case Some(Music) =>
        case Some(Video) =>
      }
    }
  }

  /** An entry appears in the bucket of its category as often as in the
      listing, and in no other bucket. */
  lemma AtMostOneBucket(listing: seq<string>, x: string, c: Category)
    ensures multiset(BucketsOf(listing).Get(c))[x] ==
      if Classify(x) == Some(c) then multiset(listing)[x] else 0
  {
    BucketOfListing(listing, c);
    SelectCount(Classify, listing, Some(c), x);
  }

  /** The four buckets together hold at most as many names as the listing;
      the difference is the number of dropped entries. */
  lemma BucketSizes(listing: seq<string>)
    ensures BucketsOf(listing).Total() + |Select(Classify, listing, None)| == |listing|
    ensures BucketsOf(listing).Total() <= |listing|
  {
    PartitionIsExact(Classify, listing);
  }

  /** The elements of `s` are pairwise different (as `os.listdir` returns them). */
  predicate Distinct(s: seq<string>)
  {
    forall i, j :: 0 <= i < j < |s| ==> s[i] != s[j]
  }

  /** A listing without repeated names gives buckets without repeated names. */
  lemma {:induction false} SelectDistinct(classify: string -> Option<Category>, listing: seq<string>, o: Option<Category>)
    requires Distinct(listing)
    ensures Distinct(Select(classify, listing, o))
    decreases |listing|
  {
    if listing != [] {
      var n := |listing| - 1;
      var init, last := listing[..n], listing[n];
      DistinctSplit(init, last);
      assert listing == init + [last];
      SelectDistinct(classify, init, o);
      SelectMembers(classify, init, o, last);
      if classify(last) == o {
        DistinctSplit(Select(classify, init, o), last);
      }
    }
  }

  /** Appending an element keeps a list free of repetitions exactly when the
      element is new. */
  lemma DistinctSplit(s: seq<string>, x: string)
    ensures Distinct(s + [x]) <==> Distinct(s) && x !in s
  {
    var t := s + [x];
    if Distinct(t) {
      forall i, j | 0 <= i < j < |s|
        ensures s[i] != s[j]
      {
        assert s[i] == t[i] && s[j] == t[j];
      }
      forall i | 0 <= i < |s|
        ensures s[i] != x
      {
        assert s[i] == t[i] && t[|s|] == x;
      }
    }
    if Distinct(s) && x !in s {
      forall i, j | 0 <= i < j < |t|
        ensures t[i] != t[j]
      {
        if j < |s| {
          assert t[i] == s[i] && t[j] == s[j];
        } else {
          assert t[i] == s[i];
        }
      }
    }
  }
}
