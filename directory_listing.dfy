/**
 * The ordering `list_directory` gives its entries: directories before files,
 * and within each kind by lower-cased name, compared as Rust compares strings
 * (lexicographically; on `char`s this agrees with comparing their UTF-8 bytes).
 */
module DirectoryListing {

  datatype FileInfo = FileInfo(name: string, path: string, isDirectory: bool)

  datatype Ordering = Less | Equal | Greater

  /** ASCII lower-casing of one character. */
  function LowerChar(c: char): char {
    if 'A' <= c <= 'Z' then (c as int + 32) as char else c
  }

  /** `to_lowercase`, for ASCII letters. */
  function Lower(s: string): (r: string)
    ensures |r| == |s| && forall i :: 0 <= i < |s| ==> r[i] == LowerChar(s[i])
  {
    seq(|s|, i requires 0 <= i < |s| => LowerChar(s[i]))
  }

  /** `str::cmp`: lexicographic order, a proper prefix first. */
  function CompareStrings(s: string, t: string): Ordering {
    if s == [] then (if t == [] then Equal else Less)
    else if t == [] then Greater
    else if s[0] < t[0] then Less
    else if s[0] > t[0] then Greater
    else CompareStrings(s[1..], t[1..])
  }

  /** The comparator handed to `sort_by`. */
  function Compare(a: FileInfo, b: FileInfo): Ordering {
    if a.isDirectory == b.isDirectory then CompareStrings(Lower(a.name), Lower(b.name))
    else if a.isDirectory then Less
    else Greater
  }

  /** `a` may stand before `b` in the sorted listing. */
  predicate InOrder(a: FileInfo, b: FileInfo) {
    Compare(a, b) != Greater
  }

  predicate Sorted(s: seq<FileInfo>) {
    forall i, j :: 0 <= i < j < |s| ==> InOrder(s[i], s[j])
  }

  /** String comparison is antisymmetric, and Equal exactly on equal strings. */
  lemma {:induction false} CompareStringsFlip(s: string, t: string)
    ensures CompareStrings(s, t) == Less <==> CompareStrings(t, s) == Greater
    ensures CompareStrings(s, t) == Equal <==> s == t
  {
    if s != [] && t != [] && s[0] == t[0] {
      CompareStringsFlip(s[1..], t[1..]);
      if s[1..] == t[1..] {
        assert s == [s[0]] + s[1..] && t == [t[0]] + t[1..];
      }
    }
  }

  /** String comparison is transitive. */
  lemma {:induction false} CompareStringsTransitive(s: string, t: string, u: string)
    requires CompareStrings(s, t) != Greater && CompareStrings(t, u) != Greater
    ensures CompareStrings(s, u) != Greater
  {
    if s != [] && t != [] && u != [] && s[0] == t[0] == u[0] {
      CompareStringsTransitive(s[1..], t[1..], u[1..]);
    }
  }

  /**
   * The comparator is a total preorder: any two entries are ordered one way or
   * the other, and the order is transitive; Less one way is Greater the other.
   */
  lemma CompareIsTotalPreorder(a: FileInfo, b: FileInfo, c: FileInfo)
    ensures InOrder(a, b) || InOrder(b, a)
    ensures Compare(a, b) == Less <==> Compare(b, a) == Greater
    ensures InOrder(a, b) && InOrder(b, c) ==> InOrder(a, c)
  {
    CompareStringsFlip(Lower(a.name), Lower(b.name));
    if InOrder(a, b) && InOrder(b, c) && a.isDirectory == b.isDirectory == c.isDirectory {
      CompareStringsTransitive(Lower(a.name), Lower(b.name), Lower(c.name));
    }
  }

  /**
   * `files.sort_by(...)` in place: afterwards the entries are a permutation of
   * the old ones, ordered by the comparator, so that every directory comes
   * before every file and entries of one kind are in lower-cased name order.
   */
  method SortListing(files: array<FileInfo>)
    modifies files
    ensures Sorted(files[..])
    ensures multiset(files[..]) == old(multiset(files[..]))
    ensures forall i, j :: 0 <= i < j < files.Length && files[j].isDirectory ==> files[i].isDirectory
    ensures forall i, j :: 0 <= i < j < files.Length && files[i].isDirectory == files[j].isDirectory ==>
      CompareStrings(Lower(files[i].name), Lower(files[j].name)) != Greater
  {
    var i := 0;
    while i < files.Length
      invariant 0 <= i <= files.Length
      invariant Sorted(files[..i])
      invariant multiset(files[..]) == old(multiset(files[..]))
    {
      InsertAt(files, i);
      i := i + 1;
    }
    assert files[..i] == files[..];
  }

  /** One pass of insertion sort: sink `files[i]` into the sorted prefix before it. */
  method InsertAt(files: array<FileInfo>, i: nat)
    requires i < files.Length && Sorted(files[..i])
    modifies files
    ensures Sorted(files[..i + 1])
    ensures files[i + 1..] == old(files[i + 1..])
    ensures multiset(files[..]) == old(multiset(files[..]))
  {
    var j := i;
    while 0 < j && Compare(files[j - 1], files[j]) == Greater
      invariant 0 <= j <= i
      invariant forall k, l :: 0 <= k < l <= i && k != j && l != j ==> InOrder(files[k], files[l])
      invariant forall l :: j < l <= i ==> InOrder(files[j], files[l])
      invariant files[i + 1..] == old(files[i + 1..])
      invariant multiset(files[..]) == old(multiset(files[..]))
    {
      CompareIsTotalPreorder(files[j - 1], files[j], files[j]);
      files[j - 1], files[j] := files[j], files[j - 1];
      j := j - 1;
    }
    forall k, l | 0 <= k < l <= i ensures InOrder(files[k], files[l]) {
      if l == j && k < j - 1 {
        CompareIsTotalPreorder(files[k], files[j - 1], files[j]);
      }
    }
  }
}
