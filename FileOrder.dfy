/** The order in which the log query visits the registered log files
    (sortFileList): the caller's list is sorted in place by name, ascending
    for the auth.log family and descending for the secure family, and in the
    secure case it is then re-sliced. */
module FileOrder {
  import opened GoStrings
  import opened LogSources

  /** The comparator handed to sort.Slice: `x` goes strictly before `y`. */
  predicate Precedes(x: FileItem, y: FileItem, descending: bool) {
    if descending then Less(y.name, x.name) else Less(x.name, y.name)
  }

  /** No element goes strictly before an element to its left. */
  predicate Ordered(s: seq<FileItem>, descending: bool) {
    forall i, j :: 0 <= i < j < |s| ==> !Precedes(s[j], s[i], descending)
  }

  /** The secure family's test on the first registered file. */
  predicate IsSecure(file: FileItem) {
    HasPrefix(Base(file.name), "secure")
  }

  lemma NotPrecedesTransitive(x: FileItem, y: FileItem, z: FileItem, descending: bool)
    requires !Precedes(y, x, descending) && !Precedes(z, y, descending)
    ensures !Precedes(z, x, descending)
  {
    if descending { NotLessTransitive(z.name, y.name, x.name); }
    else { NotLessTransitive(x.name, y.name, z.name); }
  }

  lemma PrecedesAsymmetric(x: FileItem, y: FileItem, descending: bool)
    requires Precedes(x, y, descending)
    ensures !Precedes(y, x, descending)
  {
    if descending { LessAsymmetric(y.name, x.name); } else { LessAsymmetric(x.name, y.name); }
  }

  /** No element of s[lo..hi) goes strictly before an element to its left. */
  predicate SortedBetween(s: seq<FileItem>, lo: int, hi: int, descending: bool) {
    forall k, l :: 0 <= lo <= k < l < hi <= |s| ==> !Precedes(s[l], s[k], descending)
  }

  /** The state of an insertion step that is moving the element now at j
      leftwards: s[..j] and s[j + 1..i + 1] are sorted, everything left of j
      goes no later than everything right of it, and the moving element goes
      strictly before everything it has passed. */
  ghost predicate Inserting(s: seq<FileItem>, i: int, j: int, descending: bool) {
    && 0 <= j <= i < |s|
    && SortedBetween(s, 0, j, descending)
    && SortedBetween(s, j + 1, i + 1, descending)
    && (forall k, l :: 0 <= k < j < l <= i ==> !Precedes(s[l], s[k], descending))
    && (forall l :: j < l <= i ==> Precedes(s[j], s[l], descending))
  }

  lemma InsertingStart(s: seq<FileItem>, i: int, descending: bool)
    requires 0 <= i < |s| && SortedBetween(s, 0, i, descending)
    ensures Inserting(s, i, i, descending)
  {
  }

  /** Swapping the moving element with its left neighbour, which it goes
      strictly before, keeps the step's invariant one position further left. */
  lemma InsertingSwap(s: seq<FileItem>, i: int, j: int, descending: bool)
    requires Inserting(s, i, j, descending) && j > 0
    requires Precedes(s[j], s[j - 1], descending)
    ensures Inserting(s[j - 1 := s[j]][j := s[j - 1]], i, j - 1, descending)
  {
  }

  /** When the moving element may stay where it is, s[..i + 1] is sorted. */
  lemma InsertingDone(s: seq<FileItem>, i: int, j: int, descending: bool)
    requires Inserting(s, i, j, descending)
    requires j == 0 || !Precedes(s[j], s[j - 1], descending)
    ensures SortedBetween(s, 0, i + 1, descending)
  {
    forall l | j < l <= i
      ensures !Precedes(s[l], s[j], descending)
    {
      PrecedesAsymmetric(s[j], s[l], descending);
    }
    forall k | 0 <= k < j - 1
      ensures !Precedes(s[j], s[k], descending)
    {
      NotPrecedesTransitive(s[k], s[j - 1], s[j], descending);
    }
  }

  /** Exchanges a[j - 1] and a[j]. */
  method SwapAdjacent(a: array<FileItem>, j: int)
    requires 0 < j < a.Length
    modifies a
    ensures a[..] == old(a[..])[j - 1 := old(a[j])][j := old(a[j - 1])]
    ensures multiset(a[..]) == multiset(old(a[..]))
  {
    a[j - 1], a[j] := a[j], a[j - 1];
  }

  /** One insertion step: moves a[i] left past every element it goes before. */
  method InsertStep(a: array<FileItem>, i: int, descending: bool)
    requires 0 <= i < a.Length && SortedBetween(a[..], 0, i, descending)
    modifies a
    ensures SortedBetween(a[..], 0, i + 1, descending)
    ensures multiset(a[..]) == multiset(old(a[..]))
    ensures a[i + 1..] == old(a[i + 1..])
  {
    InsertingStart(a[..], i, descending);
    var j := i;
    while j > 0 && Precedes(a[j], a[j - 1], descending)
      invariant Inserting(a[..], i, j, descending)
      invariant a[i + 1..] == old(a[i + 1..])
      invariant multiset(a[..]) == multiset(old(a[..]))
    {
      InsertingSwap(a[..], i, j, descending);
      SwapAdjacent(a, j);
      j := j - 1;
    }
    InsertingDone(a[..], i, j, descending);
  }

  /** sort.Slice on the file list: sorts `a` in place by name. */
  method SortByName(a: array<FileItem>, descending: bool)
    modifies a
    ensures Ordered(a[..], descending)
    ensures multiset(a[..]) == multiset(old(a[..]))
  {
    var i := 0;
    while i < a.Length
      invariant 0 <= i <= a.Length
      invariant SortedBetween(a[..], 0, i, descending)
      invariant multiset(a[..]) == multiset(old(a[..]))
    {
      InsertStep(a, i, descending);
      i := i + 1;
    }
  }

  /** The secure family's re-slicing of the descending list: the last (least)
      name first, then the descending list without its last two entries. */
  function SecureOrder(desc: seq<FileItem>): seq<FileItem>
    requires |desc| >= 2
  {
    [desc[|desc| - 1]] + desc[..|desc| - 2]
  }

  /** sortFileList. Fewer than two files: nothing changes. Otherwise the
      first file decides: not secure, the list sorted ascending; secure, the
      list sorted descending and then re-sliced by SecureOrder. */
  method SortFileList(fileNames: array<FileItem>) returns (r: seq<FileItem>)
    modifies fileNames
    ensures fileNames.Length < 2 ==> r == old(fileNames[..]) && fileNames[..] == old(fileNames[..])
    ensures multiset(fileNames[..]) == multiset(old(fileNames[..]))
    ensures fileNames.Length >= 2 && !IsSecure(old(fileNames[0])) ==>
      Ordered(fileNames[..], false) && r == fileNames[..]
    ensures fileNames.Length >= 2 && IsSecure(old(fileNames[0])) ==>
      Ordered(fileNames[..], true) && r == SecureOrder(fileNames[..])
  {
    if fileNames.Length < 2 {
      return fileNames[..];
    }
    if IsSecure(fileNames[0]) {
      SortByName(fileNames, true);
      var n := fileNames.Length;
      r := [fileNames[n - 1]] + fileNames[..n - 2];
    } else {
      SortByName(fileNames, false);
      r := fileNames[..];
    }
  }

  /** Ascending case: the result is the input, permuted, in ascending name order. */
  lemma AscendingIsSortedPermutation(input: seq<FileItem>, sorted: seq<FileItem>)
    requires multiset(sorted) == multiset(input) && Ordered(sorted, false)
    ensures |sorted| == |input|
    ensures forall i, j :: 0 <= i < j < |sorted| ==> !Less(sorted[j].name, sorted[i].name)
    ensures forall x :: x in sorted <==> x in input
  {
    assert |multiset(sorted)| == |multiset(input)|;
    forall x ensures x in sorted <==> x in input {
      assert x in sorted <==> x in multiset(sorted);
      assert x in input <==> x in multiset(input);
    }
  }

  /** Secure case: one file fewer than the input; the first file has the
      least name; the rest is in descending order. */
  lemma SecureOrderShape(input: seq<FileItem>, desc: seq<FileItem>)
    requires |desc| >= 2 && multiset(desc) == multiset(input) && Ordered(desc, true)
    ensures |SecureOrder(desc)| == |input| - 1
    ensures forall x :: x in input ==> !Less(x.name, SecureOrder(desc)[0].name)
    ensures Ordered(SecureOrder(desc)[1..], true)
    ensures forall x :: x in SecureOrder(desc) ==> x in input
  {
    var r := SecureOrder(desc);
    assert |multiset(desc)| == |multiset(input)|;
    forall x | x in input ensures !Less(x.name, r[0].name) {
      assert x in multiset(desc);
      var k :| 0 <= k < |desc| && desc[k] == x;
      if k < |desc| - 1 {
        assert !Precedes(desc[|desc| - 1], desc[k], true);
      } else {
        LessIrreflexive(x.name);
      }
    }
    assert r[1..] == desc[..|desc| - 2];
    forall x | x in r ensures x in input {
      assert x in desc;
      assert x in multiset(desc);
    }
  }

  /** Secure case with distinct names: the second-least name is dropped. */
  lemma SecureOrderDropsSecondLeast(desc: seq<FileItem>)
    requires |desc| >= 2 && Ordered(desc, true)
    requires forall i, j :: 0 <= i < j < |desc| ==> desc[i].name != desc[j].name
    ensures desc[|desc| - 2] !in SecureOrder(desc)
    ensures forall x :: x in desc && x != desc[|desc| - 2] ==> x in SecureOrder(desc)
  {
    var n := |desc|;
    var r := SecureOrder(desc);
    forall x | x in desc && x != desc[n - 2] ensures x in r {
      var k :| 0 <= k < n && desc[k] == x;
      if k == n - 1 { assert r[0] == x; } else { assert r[k + 1] == x; }
    }
  }
}
