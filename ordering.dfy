/**
 * The order in which directory listings are returned and shown:
 * directories before files, and within each group by name.  The name
 * comparison is the platform's culture-aware string comparison; here it is
 * an abstract relation `before` that is assumed to be a total preorder.
 */
module Ordering {
  import opened Protocol

  /** `before` is total and transitive on names, as a string comparer is. */
  ghost predicate IsNameOrder(before: (string, string) -> bool) {
    (forall a, b :: before(a, b) || before(b, a)) &&
    (forall a, b, c :: before(a, b) && before(b, c) ==> before(a, c))
  }

  /** x may come before y: a directory before a file, or the same kind and x's name not after y's. */
  predicate Precedes(before: (string, string) -> bool, x: FileEntry, y: FileEntry) {
    (x.isDirectory && !y.isDirectory) || (x.isDirectory == y.isDirectory && before(x.name, y.name))
  }

  predicate Sorted(before: (string, string) -> bool, s: seq<FileEntry>) {
    forall i, j :: 0 <= i < j < |s| ==> Precedes(before, s[i], s[j])
  }

  lemma PrecedesTotal(before: (string, string) -> bool, x: FileEntry, y: FileEntry)
    requires IsNameOrder(before)
    ensures Precedes(before, x, y) || Precedes(before, y, x)
  {
    assert before(x.name, y.name) || before(y.name, x.name);
  }

  lemma PrecedesTransitive(before: (string, string) -> bool, x: FileEntry, y: FileEntry, z: FileEntry)
    requires IsNameOrder(before)
    requires Precedes(before, x, y) && Precedes(before, y, z)
    ensures Precedes(before, x, z)
  {
    if x.isDirectory == y.isDirectory && y.isDirectory == z.isDirectory {
      assert before(x.name, y.name) && before(y.name, z.name);
    }
  }

  /** x placed in front of the first element it may precede: equal keys keep x first. */
  function Insert(before: (string, string) -> bool, x: FileEntry, s: seq<FileEntry>): (r: seq<FileEntry>)
    ensures multiset(r) == multiset(s) + multiset{x}
  {
    if s == [] then [x]
    else if Precedes(before, x, s[0]) then [x] + s
    else
      assert s == [s[0]] + s[1..];
      [s[0]] + Insert(before, x, s[1..])
  }

  /** Every element of the result is x or an element of s. */
  lemma InsertMembers(before: (string, string) -> bool, x: FileEntry, s: seq<FileEntry>, k: int)
    requires 0 <= k < |Insert(before, x, s)|
    ensures Insert(before, x, s)[k] == x || Insert(before, x, s)[k] in s
  {
    var r := Insert(before, x, s);
    assert r[k] in multiset(r);
  }

  /** Inserting into a sorted listing keeps it sorted. */
  lemma {:induction false} InsertSorted(before: (string, string) -> bool, x: FileEntry, s: seq<FileEntry>)
    requires IsNameOrder(before) && Sorted(before, s)
    ensures Sorted(before, Insert(before, x, s))
  {
    var r := Insert(before, x, s);
    if s == [] {
    } else if Precedes(before, x, s[0]) {
      forall i, j | 0 <= i < j < |r| ensures Precedes(before, r[i], r[j]) {
        if i == 0 && j > 1 {
          PrecedesTransitive(before, x, s[0], s[j - 1]);
        }
      }
    } else {
      var t := Insert(before, x, s[1..]);
      InsertSorted(before, x, s[1..]);
      PrecedesTotal(before, x, s[0]);
      assert r == [s[0]] + t;
      forall k | 0 <= k < |t| ensures Precedes(before, s[0], t[k]) {
        InsertMembers(before, x, s[1..], k);
        if t[k] != x {
          var m :| 0 <= m < |s[1..]| && s[1..][m] == t[k];
          assert s[m + 1] == t[k];
        }
      }
      forall i, j | 0 <= i < j < |r| ensures Precedes(before, r[i], r[j]) {
        if i > 0 {
          assert r[i] == t[i - 1] && r[j] == t[j - 1];
        } else {
          assert r[j] == t[j - 1];
        }
      }
    }
  }

  /**
   * The listing order: OrderByDescending(IsDirectory).ThenBy(Name).  The
   * result is a permutation of its input and, for a total name order, sorted.
   */
  function SortEntries(before: (string, string) -> bool, s: seq<FileEntry>): (r: seq<FileEntry>)
    ensures multiset(r) == multiset(s)
    ensures IsNameOrder(before) ==> Sorted(before, r)
  {
    if s == [] then []
    else
      assert s == [s[0]] + s[1..];
      var t := SortEntries(before, s[1..]);
      assert IsNameOrder(before) ==> Sorted(before, Insert(before, s[0], t)) by {
        if IsNameOrder(before) {
          InsertSorted(before, s[0], t);
        }
      }
      Insert(before, s[0], t)
  }

  /** In a sorted listing every directory precedes every file. */
  lemma DirectoriesFirst(before: (string, string) -> bool, s: seq<FileEntry>, i: int, j: int)
    requires Sorted(before, s)
    requires 0 <= i < |s| && 0 <= j < |s|
    requires s[i].isDirectory && !s[j].isDirectory
    ensures i < j
  {
  }

  /** Within one kind, a sorted listing runs in name order. */
  lemma GroupInNameOrder(before: (string, string) -> bool, s: seq<FileEntry>, i: int, j: int)
    requires Sorted(before, s)
    requires 0 <= i < j < |s| && s[i].isDirectory == s[j].isDirectory
    ensures before(s[i].name, s[j].name)
  {
    assert Precedes(before, s[i], s[j]);
  }

  // ---------------------------------------------------------------- the client's order

  function Directories(s: seq<FileEntry>): (r: seq<FileEntry>)
    ensures forall k :: 0 <= k < |r| ==> r[k].isDirectory
    ensures multiset(r) <= multiset(s)
  {
    if s == [] then []
    else
      assert s == [s[0]] + s[1..];
      (if s[0].isDirectory then [s[0]] else []) + Directories(s[1..])
  }

  function Files(s: seq<FileEntry>): (r: seq<FileEntry>)
    ensures forall k :: 0 <= k < |r| ==> !r[k].isDirectory
    ensures multiset(r) <= multiset(s)
  {
    if s == [] then []
    else
      assert s == [s[0]] + s[1..];
      (if s[0].isDirectory then [] else [s[0]]) + Files(s[1..])
  }

  lemma {:induction false} SplitKinds(s: seq<FileEntry>)
    ensures multiset(Directories(s)) + multiset(Files(s)) == multiset(s)
  {
    if s != [] {
      SplitKinds(s[1..]);
      assert s == [s[0]] + s[1..];
    }
  }

  lemma SortedSameKind(before: (string, string) -> bool, s: seq<FileEntry>, dir: bool)
    requires IsNameOrder(before)
    requires forall k :: 0 <= k < |s| ==> s[k].isDirectory == dir
    ensures forall k :: 0 <= k < |SortEntries(before, s)| ==> SortEntries(before, s)[k].isDirectory == dir
  {
    var r := SortEntries(before, s);
    forall k | 0 <= k < |r| ensures r[k].isDirectory == dir {
      assert r[k] in multiset(r);
      assert r[k] in multiset(s);
      assert r[k] in s;
    }
  }

  /**
   * The client's display order (renderFileList): the folders sorted by name,
   * then the files sorted by name.  Like the server's order it is a sorted
   * permutation of the items it is given.
   */
  function DisplayOrder(before: (string, string) -> bool, items: seq<FileEntry>): (r: seq<FileEntry>)
    ensures multiset(r) == multiset(items)
    ensures IsNameOrder(before) ==> Sorted(before, r)
  {
    var d := SortEntries(before, Directories(items));
    var f := SortEntries(before, Files(items));
    SplitKinds(items);
    assert IsNameOrder(before) ==> Sorted(before, d + f) by {
      if IsNameOrder(before) {
        SortedSameKind(before, Directories(items), true);
        SortedSameKind(before, Files(items), false);
        var r := d + f;
        forall i, j | 0 <= i < j < |r| ensures Precedes(before, r[i], r[j]) {
          if j < |d| {
            assert r[i] == d[i] && r[j] == d[j];
          } else if i >= |d| {
            assert r[i] == f[i - |d|] && r[j] == f[j - |d|];
          } else {
            assert r[i] == d[i] && r[j] == f[j - |d|];
          }
        }
      }
    }
    d + f
  }
}
