/** Sorting the sections of the file with that comparator. */
module SectionSort {
  import opened LibraryOrder
  import opened Lexicographic

  ghost predicate Sorted(lines: seq<string>) {
    forall i, j | 0 <= i < j < |lines| :: Compare(lines[i], lines[j]) <= 0
  }

  /** A stable sort: a line goes before the first line that is not smaller than it. */
  function Insert(x: string, sorted: seq<string>): (r: seq<string>)
    ensures |r| == |sorted| + 1
  {
    if sorted == [] || Compare(x, sorted[0]) <= 0 then [x] + sorted
    else [sorted[0]] + Insert(x, sorted[1..])
  }

  function StableSort(lines: seq<string>): (r: seq<string>)
    ensures |r| == |lines|
  {
    if lines == [] then [] else Insert(lines[0], StableSort(lines[1..]))
  }

  /** The lines that compare equal to `x`, in order. */
  function Ties(lines: seq<string>, x: string): seq<string> {
    if lines == [] then []
    else (if Compare(lines[0], x) == 0 then [lines[0]] else []) + Ties(lines[1..], x)
  }

  lemma {:induction false} InsertPermutes(x: string, sorted: seq<string>)
    ensures multiset(Insert(x, sorted)) == multiset(sorted) + multiset{x}
  {
    if sorted != [] && Compare(x, sorted[0]) > 0 {
      InsertPermutes(x, sorted[1..]);
      assert sorted == [sorted[0]] + sorted[1..];
    }
  }

  lemma HeadAndTail(lines: seq<string>)
    requires lines != []
    ensures multiset(lines) == multiset(lines[1..]) + multiset{lines[0]}
  {
    assert lines == [lines[0]] + lines[1..];
  }

  lemma {:induction false} SortPermutes(lines: seq<string>)
    ensures multiset(StableSort(lines)) == multiset(lines)
  {
    if lines != [] {
      SortPermutes(lines[1..]);
      InsertPermutes(lines[0], StableSort(lines[1..]));
      HeadAndTail(lines);
    }
  }

  /** The lines of one sequence all occur in another. */
  ghost predicate Within(lines: seq<string>, section: seq<string>) {
    forall x | x in lines :: x in section
  }

  lemma PermutationWithin(lines: seq<string>, section: seq<string>)
    requires multiset(lines) == multiset(section)
    ensures Within(lines, section) && Within(section, lines)
  {
    forall x | x in lines ensures x in section {
      assert x in multiset(lines);
      assert x in multiset(section);
    }
    forall x | x in section ensures x in lines {
      assert x in multiset(section);
      assert x in multiset(lines);
    }
  }

  lemma SortWithin(lines: seq<string>, section: seq<string>)
    requires Within(lines, section)
    ensures Within(StableSort(lines), section)
  {
    SortPermutes(lines);
    PermutationWithin(StableSort(lines), lines);
  }

  lemma OrderTransitive(section: seq<string>, x: string, y: string, z: string)
    requires NoClash(section) && x in section && y in section && z in section
    requires Compare(x, y) <= 0 && Compare(y, z) <= 0
    ensures Compare(x, z) <= 0
    ensures Compare(x, y) < 0 || Compare(y, z) < 0 ==> Compare(x, z) < 0
  {
    CompareIsKeyOrder(section, x, y);
    CompareIsKeyOrder(section, y, z);
    CompareIsKeyOrder(section, x, z);
    LexTransitive(Key(section, x), Key(section, y), Key(section, z));
  }

  lemma {:induction false} InsertSorts(section: seq<string>, x: string, sorted: seq<string>)
    requires NoClash(section) && x in section && Within(sorted, section) && Sorted(sorted)
    ensures Sorted(Insert(x, sorted))
  {
    if sorted == [] {
    } else if Compare(x, sorted[0]) <= 0 {
      forall j | 0 <= j < |sorted| ensures Compare(x, sorted[j]) <= 0 {
        if j > 0 {
          OrderTransitive(section, x, sorted[0], sorted[j]);
        }
      }
    } else {
      CompareAntisymmetric(x, sorted[0]);
      InsertSorts(section, x, sorted[1..]);
      var r := Insert(x, sorted[1..]);
      InsertPermutes(x, sorted[1..]);
      forall y | y in r ensures Compare(sorted[0], y) <= 0 {
        assert y in multiset(r);
        if y != x {
          assert y in multiset(sorted[1..]);
          var j :| 0 <= j < |sorted| - 1 && sorted[1..][j] == y;
          assert sorted[j + 1] == y;
        }
      }
    }
  }

  /** A section that the comparator orders comes out sorted. */
  lemma {:induction false} SortSorts(section: seq<string>, lines: seq<string>)
    requires NoClash(section) && Within(lines, section)
    ensures Sorted(StableSort(lines))
  {
    if lines != [] {
      assert Within(lines[1..], section);
      SortSorts(section, lines[1..]);
      SortWithin(lines[1..], section);
      InsertSorts(section, lines[0], StableSort(lines[1..]));
    }
  }

  /** Sorting again changes nothing. */
  lemma {:induction false} SortFixesSorted(lines: seq<string>)
    requires Sorted(lines)
    ensures StableSort(lines) == lines
  {
    if lines != [] {
      SortedTail(lines);
      SortFixesSorted(lines[1..]);
      assert lines == [lines[0]] + lines[1..];
    }
  }

  lemma SortedTail(lines: seq<string>)
    requires Sorted(lines) && lines != []
    ensures Sorted(lines[1..])
    ensures lines[1..] == [] || Compare(lines[0], lines[1..][0]) <= 0
  {
    var tail := lines[1..];
    assert forall i | 0 <= i < |tail| :: tail[i] == lines[i + 1];
  }

  lemma SortIdempotent(section: seq<string>)
    requires NoClash(section)
    ensures StableSort(StableSort(section)) == StableSort(section)
  {
    SortSorts(section, section);
    SortFixesSorted(StableSort(section));
  }

  // ---- Stability, and that it pins the sort down -----------------------------------------------------

  lemma {:induction false} InsertKeepsTies(section: seq<string>, x: string, sorted: seq<string>, y: string)
    requires NoClash(section) && x in section && y in section && Within(sorted, section) && Sorted(sorted)
    ensures Ties(Insert(x, sorted), y) == Ties([x] + sorted, y)
  {
    if sorted != [] && Compare(x, sorted[0]) > 0 {
      assert Within(sorted[1..], section);
      InsertKeepsTies(section, x, sorted[1..], y);
      var r := Insert(x, sorted[1..]);
      assert ([sorted[0]] + r)[1..] == r && ([x] + sorted)[1..] == sorted && ([x] + sorted[1..])[1..] == sorted[1..];
      if Compare(x, y) == 0 && Compare(sorted[0], y) == 0 {
        CompareAntisymmetric(sorted[0], y);
        OrderTransitive(section, x, y, sorted[0]);
      }
    }
  }

  /** Lines that compare equal keep their order. */
  lemma {:induction false} SortStable(section: seq<string>, lines: seq<string>, y: string)
    requires NoClash(section) && Within(lines, section) && y in section
    ensures Ties(StableSort(lines), y) == Ties(lines, y)
  {
    if lines != [] {
      assert Within(lines[1..], section);
      SortStable(section, lines[1..], y);
      SortSorts(section, lines[1..]);
      SortWithin(lines[1..], section);
      InsertKeepsTies(section, lines[0], StableSort(lines[1..]), y);
      var s := StableSort(lines[1..]);
      assert ([lines[0]] + s)[1..] == s;
    }
  }

  lemma {:induction false} TieIsPresent(lines: seq<string>, x: string)
    ensures Ties(lines, x) != [] ==> exists i :: 0 <= i < |lines| && Compare(lines[i], x) == 0
    ensures forall i | 0 <= i < |lines| && Compare(lines[i], x) == 0 :: Ties(lines, x) != []
  {
    if lines != [] {
      TieIsPresent(lines[1..], x);
      assert forall i | 0 < i < |lines| :: lines[i] == lines[1..][i - 1];
    }
  }

  /** Any sorted list whose ties agree with another's has the same head. */
  lemma SameHead(section: seq<string>, a: seq<string>, b: seq<string>)
    requires NoClash(section) && Within(a, section) && Within(b, section) && Sorted(a) && Sorted(b)
    requires a != [] && b != []
    requires forall x | x in section :: Ties(a, x) == Ties(b, x)
    ensures a[0] == b[0]
  {
    HeadNotAfter(section, a, b);
    HeadNotAfter(section, b, a);
    CompareAntisymmetric(a[0], b[0]);
    CompareAntisymmetric(a[0], a[0]);
    assert Ties(a, a[0])[0] == a[0] && Ties(b, a[0])[0] == b[0];
  }

  lemma HeadNotAfter(section: seq<string>, a: seq<string>, b: seq<string>)
    requires NoClash(section) && Within(a, section) && Within(b, section) && Sorted(a)
    requires a != [] && b != []
    requires forall x | x in section :: Ties(a, x) == Ties(b, x)
    ensures Compare(a[0], b[0]) <= 0
  {
    CompareAntisymmetric(b[0], b[0]);
    TieIsPresent(b, b[0]);
    assert Ties(a, b[0]) == Ties(b, b[0]);
    TieIsPresent(a, b[0]);
    var i :| 0 <= i < |a| && Compare(a[i], b[0]) == 0;
    if i > 0 {
      OrderTransitive(section, a[0], a[i], b[0]);
    }
  }

  lemma TailTies(a: seq<string>, b: seq<string>, x: string)
    requires a != [] && b != [] && a[0] == b[0] && Ties(a, x) == Ties(b, x)
    ensures Ties(a[1..], x) == Ties(b[1..], x)
  {
    var h := if Compare(a[0], x) == 0 then [a[0]] else [];
    assert Ties(a, x) == h + Ties(a[1..], x) && Ties(b, x) == h + Ties(b[1..], x);
    assert Ties(a[1..], x) == Ties(a, x)[|h|..] && Ties(b[1..], x) == Ties(b, x)[|h|..];
  }

  /** Lists whose ties agree are empty together. */
  lemma EmptyTogether(section: seq<string>, a: seq<string>, b: seq<string>)
    requires Within(a, section) && forall x | x in section :: Ties(a, x) == Ties(b, x)
    ensures a != [] ==> b != []
  {
    if a != [] {
      CompareAntisymmetric(a[0], a[0]);
      assert Ties(b, a[0]) == Ties(a, a[0]) != [];
    }
  }

  /** There is only one stable sort: a sorted list with the same ties as the section's is its stable sort,
      whatever algorithm produced it. */
  lemma {:induction false} SortedWithTiesUnique(section: seq<string>, a: seq<string>, b: seq<string>)
    requires NoClash(section) && Within(a, section) && Within(b, section) && Sorted(a) && Sorted(b)
    requires forall x | x in section :: Ties(a, x) == Ties(b, x)
    ensures a == b
    decreases |a|
  {
    EmptyTogether(section, a, b);
    EmptyTogether(section, b, a);
    if a != [] {
      SameHead(section, a, b);
      forall x | x in section ensures Ties(a[1..], x) == Ties(b[1..], x) {
        TailTies(a, b, x);
      }
      assert Within(a[1..], section) && Within(b[1..], section);
      SortedWithTiesUnique(section, a[1..], b[1..]);
      assert a == [a[0]] + a[1..] && b == [b[0]] + b[1..];
    }
  }

  lemma StableSortUnique(section: seq<string>, sorted: seq<string>)
    requires NoClash(section) && Within(sorted, section) && Sorted(sorted)
    requires forall x | x in section :: Ties(sorted, x) == Ties(section, x)
    ensures sorted == StableSort(section)
  {
    forall x | x in section ensures Ties(StableSort(section), x) == Ties(section, x) {
      SortStable(section, section, x);
    }
    SortSorts(section, section);
    SortWithin(section, section);
    SortedWithTiesUnique(section, sorted, StableSort(section));
  }

  // ---- Directories form blocks -----------------------------------------------------------------------

  predicate IsDirectory(d: string) {
    d != "" && d[|d| - 1] == '/'
  }

  /** The line, its dash apart, lies in the directory or below it. */
  predicate Under(d: string, x: string) {
    x != "" && d <= Strip(x)
  }

  /** A line without a slash that spells the directory. */
  predicate Names(x: string, d: string) {
    !HasSlash(Strip(x)) && Strip(x) + "/" == d
  }

  lemma UnderInKey(section: seq<string>, d: string, x: string)
    requires IsDirectory(d) && Under(d, x)
    ensures HasSlash(Strip(x)) && d <= DirOf(Strip(x))
    ensures [0] + Codes(d) <= Key(section, x)
  {
    var a := Strip(x);
    assert a[|d| - 1] == '/';
    assert HasSlash(a);
    forall k | |DirOf(a)| <= k < |a| ensures a[k] != '/' {
      assert a[k] == a[|DirOf(a)|..][k - |DirOf(a)|];
    }
    assert Codes(d) <= Codes(DirOf(a)) by { CodesInjective(d, DirOf(a)); }
    assert Codes(d) <= Body(section, a);
  }

  lemma BodyUnderSlash(section: seq<string>, d: string, a: string)
    requires HasSlash(a) && Codes(d) <= Body(section, a)
    ensures d <= a
  {
    var body, n := Body(section, a), |DirOf(a)|;
    assert n < |body| && body[n] == MARK + 1;
    assert forall k | 0 <= k < |d| :: body[k] == Codes(d)[k] < MARK;
    assert body[..n] == Codes(a)[..n];
    assert Codes(d) == body[..n][..|d|] == Codes(a)[..n][..|d|];
    CodesInjective(d, a);
  }

  lemma BodyUnderFree(section: seq<string>, d: string, a: string)
    requires IsDirectory(d) && !HasSlash(a) && Codes(d) <= Body(section, a)
    ensures a + "/" == d
  {
    var body := Body(section, a);
    CodesConcat(a, "/");
    assert NamesDirectory(section, a) ==> |body| == |a| + 2 && body[|a| + 1] == MARK;
    assert forall k | 0 <= k < |d| :: body[k] == Codes(d)[k] < MARK;
    assert Codes(d) == Codes(a + "/")[..|d|];
    CodesInjective(d, a + "/");
    NoDirectoryInside(a, d);
  }

  lemma KeyUnder(section: seq<string>, d: string, x: string)
    requires IsDirectory(d) && [0] + Codes(d) <= Key(section, x)
    ensures x != "" && (Under(d, x) || Names(x, d))
  {
    assert x != "" by { assert |[0] + Codes(d)| > 0; }
    var a := Strip(x);
    assert ([0] + Body(section, a))[1..] == Body(section, a) && ([0] + Codes(d))[1..] == Codes(d);
    assert Codes(d) <= Body(section, a);
    if HasSlash(a) {
      BodyUnderSlash(section, d, a);
    } else {
      BodyUnderFree(section, d, a);
    }
  }

  lemma BetweenUnder(section: seq<string>, d: string, x: string, y: string, z: string)
    requires NoClash(section) && IsDirectory(d) && x in section && y in section && z in section
    requires Compare(x, y) <= 0 && Compare(y, z) <= 0 && Under(d, x) && Under(d, z)
    ensures y != "" && (Under(d, y) || Names(y, d))
  {
    CompareIsKeyOrder(section, x, y);
    CompareIsKeyOrder(section, y, z);
    UnderInKey(section, d, x);
    UnderInKey(section, d, z);
    LexConvex([0] + Codes(d), Key(section, x), Key(section, y), Key(section, z));
    KeyUnder(section, d, y);
  }

  lemma OwnFileNotFirst(section: seq<string>, d: string, x: string, z: string)
    requires NoClash(section) && IsDirectory(d) && x in section && z in section
    requires Compare(x, z) <= 0 && Under(d, x) && Under(d, z) && Dir(Strip(x)) == d
    ensures Dir(Strip(z)) == d
  {
    UnderInKey(section, d, x);
    UnderInKey(section, d, z);
    if DirOf(Strip(z)) != d {
      CompareAntisymmetric(x, z);
      SubDirectoryFirst(section, Strip(z), Strip(x));
      CompareIsKeyOrder(section, z, x);
      LexCommonPrefix([0], Body(section, Strip(z)), Body(section, Strip(x)));
    }
  }

  /** In the sorted section the lines under a directory are contiguous: between two of them there is
      nothing but other such lines, and possibly the slash-free line that spells the directory itself.
      Within the block, the directory's own files come last. */
  lemma DirectoriesAreBlocks(section: seq<string>, d: string)
    requires NoClash(section) && IsDirectory(d)
    ensures var r := StableSort(section);
            && (forall i, j, k | 0 <= i < j < k < |r| && Under(d, r[i]) && Under(d, r[k]) ::
                  r[j] != "" && (Under(d, r[j]) || Names(r[j], d)))
            && (forall i, k | 0 <= i < k < |r| && Under(d, r[i]) && Under(d, r[k]) && Dir(Strip(r[i])) == d ::
                  Dir(Strip(r[k])) == d)
  {
    var r := StableSort(section);
    SortSorts(section, section);
    SortWithin(section, section);
    forall i, j, k | 0 <= i < j < k < |r| && Under(d, r[i]) && Under(d, r[k])
      ensures r[j] != "" && (Under(d, r[j]) || Names(r[j], d))
    {
      BetweenUnder(section, d, r[i], r[j], r[k]);
    }
    forall i, k | 0 <= i < k < |r| && Under(d, r[i]) && Under(d, r[k]) && Dir(Strip(r[i])) == d
      ensures Dir(Strip(r[k])) == d
    {
      OwnFileNotFirst(section, d, r[i], r[k]);
    }
  }

  /** The script's loop: each section is sorted by itself, and the sections keep their places. On a
      section with a clash the comparator is no order and sorting algorithms need not agree, so only the
      permutation is promised there. */
  method SortSections(sections: seq<seq<string>>) returns (ordered: seq<seq<string>>)
    ensures |ordered| == |sections|
    ensures forall i | 0 <= i < |sections| ::
              && multiset(ordered[i]) == multiset(sections[i])
              && (NoClash(sections[i]) ==> Sorted(ordered[i]) && ordered[i] == StableSort(sections[i]))
  {
    ordered := [];
    for i := 0 to |sections|
      invariant |ordered| == i
      invariant forall j | 0 <= j < i :: ordered[j] == StableSort(sections[j])
    {
      var lines := StableSort(sections[i]);
      ordered := ordered + [lines];
    }
    forall i | 0 <= i < |sections|
      ensures multiset(ordered[i]) == multiset(sections[i]) && (NoClash(sections[i]) ==> Sorted(ordered[i]))
    {
      SortPermutes(sections[i]);
      if NoClash(sections[i]) {
        SortSorts(sections[i], sections[i]);
      }
    }
  }
}
