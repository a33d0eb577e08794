// Text operations the sorter performs on names and paths: Python's
// `str.endswith` and two-argument `os.path.join` on a POSIX system.

module PathText {

  /** Python's `s.endswith(suffix)`: case-sensitive, character by character. */
  predicate EndsWith(s: string, suffix: string)
  {
    |suffix| <= |s| && s[|s| - |suffix|..] == suffix
  }

  /** A name `os.path.join` treats as absolute (it then discards the directory). */
  predicate IsAbsolute(name: string)
  {
    |name| > 0 && name[0] == '/'
  }

  /** A directory entry name as `os.listdir` returns it: no separator inside. */
  predicate IsEntryName(name: string)
  {
    '/' !in name
  }

  /** The directory part of a join: the directory with one separator after it
      unless it is empty or already ends with one. */
  function DirPrefix(dir: string): string
  {
    if dir == [] || dir[|dir| - 1] == '/' then dir else dir + "/"
  }

  /** The directory part is empty or ends with a separator, and extends the
      directory. */
  lemma DirPrefixShape(dir: string)
    ensures DirPrefix(dir) == [] || DirPrefix(dir)[|DirPrefix(dir)| - 1] == '/'
    ensures |DirPrefix(dir)| >= |dir| && DirPrefix(dir)[..|dir|] == dir
  {
  }

  /** Two-argument `os.path.join(dir, name)` of POSIX Python. */
  function Join(dir: string, name: string): string
  {
    if IsAbsolute(name) then name else DirPrefix(dir) + name
  }

  /** An absolute name replaces the directory; a relative one follows the
      directory and at most one added separator. */
  lemma JoinShape(dir: string, name: string)
    ensures IsAbsolute(name) ==> Join(dir, name) == name
    ensures !IsAbsolute(name) ==>
      Join(dir, name) == DirPrefix(dir) + name && EndsWith(Join(dir, name), name) &&
      |Join(dir, name)| == |DirPrefix(dir)| + |name| && Join(dir, name)[..|dir|] == dir
  {
    DirPrefixShape(dir);
    if !IsAbsolute(name) {
      var p := DirPrefix(dir);
      assert (p + name)[|p| + |name| - |name|..] == name;
      assert (p + name)[..|dir|] == p[..|dir|];
    }
  }

  /** A string ends with the last character of each non-empty suffix it has. */
  lemma LastCharOfSuffix(s: string, suffix: string)
    requires EndsWith(s, suffix) && |suffix| > 0
    ensures s[|s| - 1] == suffix[|suffix| - 1]
  {
    assert s[|s| - |suffix|..][|suffix| - 1] == s[|s| - 1];
  }

  /** A string whose last character differs from a non-empty suffix's last
      character does not end with that suffix. */
  lemma LastCharMismatch(s: string, suffix: string)
    requires |s| > 0 && |suffix| > 0 && s[|s| - 1] != suffix[|suffix| - 1]
    ensures !EndsWith(s, suffix)
  {
    if |suffix| <= |s| {
      assert s[|s| - |suffix|..][|suffix| - 1] == s[|s| - 1];
    }
  }

  /** Joining one directory with two relative names gives the same path
      exactly when the names are the same. */
  lemma JoinInjective(dir: string, n1: string, n2: string)
    requires !IsAbsolute(n1) && !IsAbsolute(n2)
    ensures Join(dir, n1) == Join(dir, n2) <==> n1 == n2
  {
    var p := DirPrefix(dir);
    assert Join(dir, n1) == p + n1 && Join(dir, n2) == p + n2;
    assert (p + n1)[|p|..] == n1;
    assert (p + n2)[|p|..] == n2;
  }

  /** Joining into a sub-folder is joining the path `folder/name`. */
  lemma JoinNested(dir: string, folder: string, name: string)
    requires |folder| > 0 && IsEntryName(folder) && !IsAbsolute(name)
    ensures !IsAbsolute(folder + "/" + name)
    ensures Join(Join(dir, folder), name) == Join(dir, folder + "/" + name)
  {
    NestedIsRelative(folder, name);
    var p := DirPrefix(dir);
    JoinedFolderEnds(dir, folder);
    JoinAfterDirectory(p + folder, name);
    assert (p + folder) + "/" + name == p + (folder + "/" + name);
  }

  /** `folder/name` is relative when `folder` is a non-empty entry name. */
  lemma NestedIsRelative(folder: string, name: string)
    requires |folder| > 0 && IsEntryName(folder)
    ensures !IsAbsolute(folder + "/" + name)
  {
    assert folder[0] in folder;
    assert (folder + "/" + name)[0] == folder[0];
  }

  /** A directory joined with a non-empty entry name is that name after the
      directory part, and does not end with a separator. */
  lemma JoinedFolderEnds(dir: string, folder: string)
    requires |folder| > 0 && IsEntryName(folder)
    ensures Join(dir, folder) == DirPrefix(dir) + folder
    ensures Join(dir, folder)[|Join(dir, folder)| - 1] != '/'
  {
    assert folder[0] in folder && folder[|folder| - 1] in folder;
    var inner := DirPrefix(dir) + folder;
    assert inner[|inner| - 1] == folder[|folder| - 1];
  }

  /** Joining after a directory that does not end with a separator adds one. */
  lemma JoinAfterDirectory(dir: string, name: string)
    requires |dir| > 0 && dir[|dir| - 1] != '/' && !IsAbsolute(name)
    ensures Join(dir, name) == dir + "/" + name
  {
  }

  /** In `a/b` with no separator in `a`, the first separator sits at `|a|`. */
  lemma FirstSeparator(a: string, b: string)
    requires IsEntryName(a)
    ensures (a + "/" + b)[|a|] == '/'
    ensures forall k :: 0 <= k < |a| ==> (a + "/" + b)[k] != '/'
  {
    forall k | 0 <= k < |a|
      ensures (a + "/" + b)[k] != '/'
    {
      assert (a + "/" + b)[k] == a[k];
      assert a[k] in a;
    }
  }

  /** `a/b` splits uniquely at its first separator when `a` holds none. */
  lemma SplitAtSeparator(a: string, b: string, c: string, d: string)
    requires IsEntryName(a) && IsEntryName(c)
    requires a + "/" + b == c + "/" + d
    ensures a == c && b == d
  {
    var s := a + "/" + b;
    FirstSeparator(a, b);
    FirstSeparator(c, d);
    assert |a| == |c|;
    assert a == s[..|a|] == c;
    assert b == s[|a| + 1..] == d;
  }

  /** A relative entry name joined to a directory is never a path two levels
      below that directory. */
  lemma JoinLevelsDiffer(dir: string, name: string, folder: string, inner: string)
    requires IsEntryName(name) && |folder| > 0 && IsEntryName(folder) && !IsAbsolute(inner)
    ensures Join(dir, name) != Join(Join(dir, folder), inner)
  {
    JoinNested(dir, folder, inner);
    var nested := folder + "/" + inner;
    assert nested[|folder|] == '/';
    assert '/' in nested;
    assert name != nested;
    if |name| > 0 {
      assert name[0] in name;
    }
    JoinInjective(dir, name, nested);
  }
}
