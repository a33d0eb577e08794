// The extension test of fileSorter.py: which of the four buckets a directory
// entry name goes to, decided by an if/elif chain of case-sensitive
// `endswith` tests.

module Options {

  datatype Option<+T> = None | Some(value: T)
}

module Classifier {
  import opened Options
  import opened PathText

  /** The four buckets the script sorts into. */
  datatype Category = Pdf | Image | Music | Video

  /** The sub-folder each bucket is moved into. */
  function FolderName(c: Category): string
  {
    match c
    case Pdf => "Pdfs"
    case Image => "Images"
    case Music => "Music"
    case Video => "Videos"
  }

  /** The order in which the if/elif chain tests the buckets. */
  const Precedence: seq<Category> := [Pdf, Image, Music, Video]

  /** The suffixes each bucket's test accepts, in the order they are tried. */
  function Suffixes(c: Category): seq<string>
  {
    match c
    case Pdf => [".pdf"]
    case Image => [".png", ".jpeg", ".jpg"]
    case Music => [".mp3"]
    case Video => [".mp4", ".webm"]
  }

  /** `name` passes the test of bucket `c` (an `or` of `endswith` tests),
      regardless of the other buckets. */
  predicate Matches(name: string, c: Category)
  {
    exists s :: s in Suffixes(c) && EndsWith(name, s)
  }

  /** A first-match rule: the first bucket of `order` whose test `name`
      passes, if any. */
  function FirstMatch(name: string, order: seq<Category>): (r: Option<Category>)
    ensures r.Some? ==> r.value in order && Matches(name, r.value)
    ensures r.None? ==> forall i :: 0 <= i < |order| ==> !Matches(name, order[i])
  {
    if order == [] then None
    else if Matches(name, order[0]) then Some(order[0])
    else FirstMatch(name, order[1..])
  }

  /** The script's if/elif chain on one entry name, test by test. */
  function IfElifChain(name: string): Option<Category>
  {
    if EndsWith(name, ".pdf") then Some(Pdf)
    else if EndsWith(name, ".png") || EndsWith(name, ".jpeg") || EndsWith(name, ".jpg") then Some(Image)
    else if EndsWith(name, ".mp3") then Some(Music)
    else if EndsWith(name, ".mp4") || EndsWith(name, ".webm") then Some(Video)
    else None
  }

  /** The bucket the script appends `name` to, if any: the first bucket, in
      the chain's order, whose test passes. */
  function Classify(name: string): (r: Option<Category>)
    ensures r.Some? ==> Matches(name, r.value)
    ensures r.None? ==> forall c :: !Matches(name, c)
  {
    NoMatchInChain(name);
    FirstMatch(name, Precedence)
  }

  /** The chain tests every bucket: when it finds none, no test passes. */
  lemma NoMatchInChain(name: string)
    ensures FirstMatch(name, Precedence).None? ==> forall c :: !Matches(name, c)
  {
    if FirstMatch(name, Precedence).None? {
      forall c
        ensures !Matches(name, c)
      {
        var i := match c case Pdf => 0 case Image => 1 case Music => 2 case Video => 3;
        assert Precedence[i] == c;
      }
    }
  }

  /** Each bucket's test written out as the chain writes it. */
  lemma MatchesUnfolded(name: string)
    ensures Matches(name, Pdf) == EndsWith(name, ".pdf")
    ensures Matches(name, Image) == (EndsWith(name, ".png") || EndsWith(name, ".jpeg") || EndsWith(name, ".jpg"))
    ensures Matches(name, Music) == EndsWith(name, ".mp3")
    ensures Matches(name, Video) == (EndsWith(name, ".mp4") || EndsWith(name, ".webm"))
  {
    if EndsWith(name, ".pdf") { assert ".pdf" in Suffixes(Pdf); }
    if EndsWith(name, ".png") { assert ".png" in Suffixes(Image); }
    if EndsWith(name, ".jpeg") { assert ".jpeg" in Suffixes(Image); }
    if EndsWith(name, ".jpg") { assert ".jpg" in Suffixes(Image); }
    if EndsWith(name, ".mp3") { assert ".mp3" in Suffixes(Music); }
    if EndsWith(name, ".mp4") { assert ".mp4" in Suffixes(Video); }
    if EndsWith(name, ".webm") { assert ".webm" in Suffixes(Video); }
  }

  /** The first-match rule over the table is the script's chain. */
  lemma ClassifyIsIfElifChain(name: string)
    ensures Classify(name) == IfElifChain(name)
  {
    MatchesUnfolded(name);
    var tail := Precedence[1..];
    assert FirstMatch(name, tail[2..]) == if Matches(name, Video) then Some(Video) else None by {
      assert tail[2..][1..] == [];
    }
    assert FirstMatch(name, tail[1..]) == if Matches(name, Music) then Some(Music) else FirstMatch(name, tail[2..]) by {
      assert tail[1..][1..] == tail[2..];
    }
    assert FirstMatch(name, tail) == if Matches(name, Image) then Some(Image) else FirstMatch(name, tail[1..]);
  }

  /** What a first-match chain returns: a bucket of `order` whose test
      passes, with no earlier bucket's test passing. */
  lemma FirstMatchIsFirst(name: string, order: seq<Category>, c: Category)
    ensures FirstMatch(name, order) == Some(c) <==>
      exists i :: 0 <= i < |order| && order[i] == c && Matches(name, c) &&
        forall j :: 0 <= j < i ==> !Matches(name, order[j])
  {
    if FirstMatch(name, order) == Some(c) {
      var i := FirstMatchPosition(name, order);
    }
    if exists i :: 0 <= i < |order| && order[i] == c && Matches(name, c) &&
        forall j :: 0 <= j < i ==> !Matches(name, order[j])
    {
      var i :| 0 <= i < |order| && order[i] == c && Matches(name, c) &&
        forall j :: 0 <= j < i ==> !Matches(name, order[j]);
      FirstMatchAt(name, order, i);
    }
  }

  /** The position of the bucket the first-match rule returns: no earlier
      bucket's test passes. */
  lemma {:induction false} FirstMatchPosition(name: string, order: seq<Category>) returns (i: nat)
    requires FirstMatch(name, order).Some?
    ensures i < |order| && order[i] == FirstMatch(name, order).value
    ensures forall j :: 0 <= j < i ==> !Matches(name, order[j])
  {
    if Matches(name, order[0]) {
      i := 0;
    } else {
      var k := FirstMatchPosition(name, order[1..]);
      i := k + 1;
      forall j | 0 <= j < i
        ensures !Matches(name, order[j])
      {
        if j > 0 {
          assert order[j] == order[1..][j - 1];
        }
      }
    }
  }

  /** A passing bucket with no passing bucket before it is the one the
      first-match rule returns. */
  lemma {:induction false} FirstMatchAt(name: string, order: seq<Category>, i: nat)
    requires i < |order| && Matches(name, order[i])
    requires forall j :: 0 <= j < i ==> !Matches(name, order[j])
    ensures FirstMatch(name, order) == Some(order[i])
  {
    if i > 0 {
      assert !Matches(name, order[0]);
      forall j | 0 <= j < i - 1
        ensures !Matches(name, order[1..][j])
      {
        assert order[1..][j] == order[j + 1];
      }
      FirstMatchAt(name, order[1..], i - 1);
    }
  }

  /** The bucket a suffix of the table belongs to, told by its last character. */
  function OwnerOfLast(ch: char): Category
  {
    if ch == 'f' then Pdf else if ch == 'g' then Image else if ch == '3' then Music else Video
  }

  /** Every suffix of the table is non-empty and ends in a lower-case letter
      or a digit that tells its bucket. */
  lemma SuffixLastChar(c: Category, s: string)
    requires s in Suffixes(c)
    ensures |s| > 0 && OwnerOfLast(s[|s| - 1]) == c
    ensures 'a' <= s[|s| - 1] <= 'z' || '0' <= s[|s| - 1] <= '9'
  {
  }

  /** Different buckets accept disjoint sets of names: a name passes at most
      one bucket's test, so the order of the chain never decides. */
  lemma TestsAreExclusive(name: string, c1: Category, c2: Category)
    requires Matches(name, c1) && Matches(name, c2)
    ensures c1 == c2
  {
    var s1 :| s1 in Suffixes(c1) && EndsWith(name, s1);
    var s2 :| s2 in Suffixes(c2) && EndsWith(name, s2);
    SuffixLastChar(c1, s1);
    SuffixLastChar(c2, s2);
    LastCharOfSuffix(name, s1);
    LastCharOfSuffix(name, s2);
  }

  /** A name goes to bucket `c` exactly when it passes `c`'s test; it goes to
      no bucket exactly when it passes no test. */
  lemma ClassifyDecides(name: string, c: Category)
    ensures Classify(name) == Some(c) <==> Matches(name, c)
    ensures Classify(name) == None <==> forall d :: !Matches(name, d)
  {
    if Matches(name, c) {
      TestsAreExclusive(name, c, Classify(name).value);
    }
  }

  /** Matching is case-sensitive: a name whose last character is an upper-case
      letter passes no test, since every suffix ends in a lower-case letter or
      a digit. */
  lemma UpperCaseEndingUnsorted(name: string)
    requires |name| > 0 && 'A' <= name[|name| - 1] <= 'Z'
    ensures Classify(name) == None
  {
    forall c
      ensures !Matches(name, c)
    {
      forall s | s in Suffixes(c)
        ensures !EndsWith(name, s)
      {
        SuffixLastChar(c, s);
        LastCharMismatch(name, s);
      }
    }
  }

  /** `A.PDF` goes to no bucket, unlike `a.pdf`. */
  lemma UpperCasePdfUnsorted()
    ensures Classify("A.PDF") == None
  {
    UpperCaseEndingUnsorted("A.PDF");
  }

  /** `x.Jpg` goes to no bucket: `.Jpg` is not `.jpg`. */
  lemma MixedCaseJpgUnsorted()
    ensures Classify("x.Jpg") == None
  {
    ClassifyIsIfElifChain("x.Jpg");
    assert "x.Jpg"[1..] != ".jpg";
  }

  /** The four sub-folders, which the listing contains once they exist, go to
      no bucket, so the script never moves a folder into another. */
  lemma FolderNamesUnsorted(c: Category)
    ensures Classify(FolderName(c)) == None
  {
    var name := FolderName(c);
    ClassifyIsIfElifChain(name);
    LastCharMismatch(name, ".pdf");
    LastCharMismatch(name, ".png");
    LastCharMismatch(name, ".jpeg");
    LastCharMismatch(name, ".jpg");
    LastCharMismatch(name, ".mp3");
    LastCharMismatch(name, ".mp4");
    LastCharMismatch(name, ".webm");
  }
}
