/** The comparator that orders the lines of a section: sub-directories before the directory's own files. */
module LibraryOrder {
  import opened Lexicographic
  import opened Sequences

  function Codes(s: string): seq<int> {
    seq(|s|, i requires 0 <= i < |s| => s[i] as int)
  }

  /** Collation in the "C" locale. */
  function StrColl(a: string, b: string): int {
    Lex(Codes(a), Codes(b))
  }

  /** A leading dash marks a build target and does not take part in the order. */
  function Strip(s: string): string {
    if s != "" && s[0] == '-' then s[1..] else s
  }

  predicate HasSlash(s: string) {
    '/' in s
  }

  /** Everything up to the last slash, included. */
  function DirOf(s: string): (d: string)
    requires HasSlash(s)
    ensures d != "" && d <= s && d[|d| - 1] == '/' && !HasSlash(s[|d|..])
  {
    if s[|s| - 1] == '/' then s else DirOf(s[..|s| - 1])
  }

  function Dir(s: string): string {
    if HasSlash(s) then DirOf(s) else s + "/"
  }

  function CompareStripped(a: string, b: string): int {
    if !HasSlash(a) && !HasSlash(b) then StrColl(a, b)
    else if Dir(a) == Dir(b) then StrColl(a, b)
    else if Dir(b) <= Dir(a) then -1
    else if Dir(a) <= Dir(b) then 1
    else StrColl(a, b)
  }

  function Compare(x: string, y: string): int {
    if x == "" || y == "" then StrColl(x, y) else CompareStripped(Strip(x), Strip(y))
  }

  lemma {:induction false} CodesConcat(a: string, b: string)
    ensures Codes(a + b) == Codes(a) + Codes(b)
  {
  }

  lemma CodesInjective(a: string, b: string)
    ensures Codes(a) == Codes(b) <==> a == b
    ensures Codes(a) <= Codes(b) <==> a <= b
  {
    if Codes(a) <= Codes(b) {
      forall i | 0 <= i < |a| ensures a[i] == b[i] {
        assert Codes(a)[i] == Codes(b)[i];
      }
    }
  }

  lemma StrippedAntisymmetric(a: string, b: string)
    ensures CompareStripped(a, b) == -CompareStripped(b, a)
    ensures CompareStripped(a, b) == 0 <==> a == b
  {
    LexAntisymmetric(Codes(a), Codes(b));
    CodesInjective(a, b);
  }

  /** One of the lines is the other with one dash more, which the other has none of. */
  predicate DashApart(x: string, y: string) {
    x != "" && y != "" && ((x == "-" + y && y[0] != '-') || (y == "-" + x && x[0] != '-'))
  }

  lemma SameStripped(x: string, y: string)
    requires x != "" && y != ""
    ensures Strip(x) == Strip(y) <==> x == y || DashApart(x, y)
  {
    assert x == [x[0]] + x[1..] && y == [y[0]] + y[1..];
  }

  /** Swapping the arguments flips the sign; equality means equal up to one leading dash. */
  lemma CompareAntisymmetric(x: string, y: string)
    ensures Compare(x, y) == -Compare(y, x)
    ensures Compare(x, y) == 0 <==> x == y || DashApart(x, y)
  {
    if x == "" || y == "" {
      LexAntisymmetric(Codes(x), Codes(y));
      CodesInjective(x, y);
    } else {
      StrippedAntisymmetric(Strip(x), Strip(y));
      SameStripped(x, y);
    }
  }

  // ---- The comparator, line by line --------------------------------------------------------------------

  /** One leading dash makes no difference to the order, on either side and against any line; a second one
      does. */
  lemma DashIsIgnored(x: string, y: string)
    requires x != "" && x[0] != '-'
    ensures Compare("-" + x, y) == Compare(x, y) && Compare(y, "-" + x) == Compare(y, x)
    ensures Compare("-" + x, x) == 0 && Compare("--" + x, "-" + x) != 0
  {
    assert ("-" + x)[1..] == x;
    CompareAntisymmetric("-" + x, x);
    assert |"--" + x| == |"-" + x| + 1 && ("-" + x)[0] == '-';
    CompareAntisymmetric("--" + x, "-" + x);
  }

  /** Collation goes by the first character that differs, and a proper prefix comes first. */
  lemma StrCollMeans(a: string, b: string)
    ensures StrColl(a, b) == 0 <==> a == b
    ensures StrColl(a, b) == -1 <==> a < b || exists i :: FirstDiffersAt(a, b, i) && a[i] < b[i]
    ensures StrColl(a, b) == 1 <==> b < a || exists i :: FirstDiffersAt(a, b, i) && a[i] > b[i]
  {
    LexAntisymmetric(Codes(a), Codes(b));
    CodesInjective(a, b);
    CodesInjective(b, a);
    if a <= b {
      if a < b {
        PrefixCollatesFirst(a, b);
      }
    } else if b <= a {
      PrefixCollatesFirst(b, a);
      LexAntisymmetric(Codes(b), Codes(a));
    } else {
      var i := FirstDifference(a, b);
      DifferenceDecides(a, b, i);
    }
    forall i | FirstDiffersAt(a, b, i) ensures StrColl(a, b) == if a[i] < b[i] then -1 else 1 {
      DifferenceDecides(a, b, i);
    }
  }

  predicate FirstDiffersAt(a: string, b: string, i: int) {
    0 <= i < |a| && i < |b| && a[..i] == b[..i] && a[i] != b[i]
  }

  lemma DifferenceDecides(a: string, b: string, i: int)
    requires FirstDiffersAt(a, b, i)
    ensures StrColl(a, b) == if a[i] < b[i] then -1 else 1
  {
    forall k | 0 <= k < i ensures Codes(a)[k] == Codes(b)[k] {
      assert a[..i][k] == b[..i][k];
    }
    LexFirstDifference(Codes(a), Codes(b), i);
  }

  lemma PrefixCollatesFirst(a: string, b: string)
    requires a < b
    ensures StrColl(a, b) == -1
  {
    assert Codes(b)[..|a|] == Codes(a);
    LexProperPrefix(Codes(a), Codes(b));
  }

  /** A directory as the comparator sees it: it ends with a slash and starts with no dash. */
  predicate IsPath(d: string) {
    d != "" && d[|d| - 1] == '/' && d[0] != '-'
  }

  lemma SplitAtLastSlash(d: string, f: string)
    requires IsPath(d) && '/' !in f
    ensures HasSlash(d + f) && DirOf(d + f) == d && Strip(d + f) == d + f
  {
    var s := d + f;
    assert s[|d| - 1] == '/';
    var n := |DirOf(s)|;
    assert forall k | |d| <= k < |s| :: s[k] == f[k - |d|] != '/';
    assert forall k | n <= k < |s| :: s[k] == s[n..][k - n] != '/';
    assert n == |d|;
  }

  /** Two files in directories: in one directory by collation of the file names; a sub-directory first; and
      otherwise by collation of the lines. */
  lemma CompareInDirectories(d: string, f: string, e: string, g: string)
    requires IsPath(d) && IsPath(e) && '/' !in f && '/' !in g
    ensures Compare(d + f, e + g)
            == if d == e then StrColl(f, g)
               else if e < d then -1
               else if d < e then 1
               else StrColl(d + f, e + g)
  {
    SplitAtLastSlash(d, f);
    SplitAtLastSlash(e, g);
    CodesConcat(d, f);
    CodesConcat(e, g);
    LexCommonPrefix(Codes(d), Codes(f), Codes(g));
  }

  /** A line without a slash against one with: after what lies strictly below the directory it spells, and
      otherwise by collation. Two lines without, by collation; the empty line first. */
  lemma CompareSlashFree(f: string, e: string, g: string)
    requires f != "" && f[0] != '-' && '/' !in f && '/' !in g
    ensures IsPath(e) ==> Compare(f, e + g) == if f + "/" < e then 1 else StrColl(f, e + g)
    ensures g != "" && g[0] != '-' ==> Compare(f, g) == StrColl(f, g)
    ensures Compare("", f) == -1 && Compare("", "") == 0
  {
    if IsPath(e) {
      SplitAtLastSlash(e, g);
      if e <= f + "/" {
        NoDirectoryInside(f, e);
      }
    }
  }

  // ---- When the comparator is an order ---------------------------------------------------------------

  /** `b` lies in a strict sub-directory of the directory that `a` names. */
  predicate StrictlyBelow(b: string, a: string) {
    HasSlash(b) && a + "/" < DirOf(b)
  }

  /** `b` continues `a` with a character that sorts before the slash. */
  predicate JumpsAhead(b: string, a: string) {
    |b| > |a| && b[..|a|] == a && b[|a|] < '/'
  }

  /** A line without a slash, a line in a strict sub-directory of the directory it would name, and a line
      that continues it with a character before the slash. */
  predicate Clash(x: string, below: string, ahead: string) {
    && x != "" && below != "" && ahead != ""
    && !HasSlash(Strip(x))
    && StrictlyBelow(Strip(below), Strip(x))
    && JumpsAhead(Strip(ahead), Strip(x))
  }

  ghost predicate NoClash(section: seq<string>) {
    forall x, y, z | x in section && y in section && z in section :: !Clash(x, y, z)
  }

  ghost predicate TransitiveOn(section: seq<string>) {
    forall x, y, z | x in section && y in section && z in section ::
      Compare(x, y) <= 0 && Compare(y, z) <= 0 ==> Compare(x, z) <= 0
  }

  /** Above the code of every character. */
  const MARK: int := 0x11_0000

  /** Some line of the section lies strictly below the directory that `a` would name. */
  ghost predicate NamesDirectory(section: seq<string>, a: string) {
    exists y :: y in section && y != "" && StrictlyBelow(Strip(y), a)
  }

  /** What a line is ordered by. A line with a slash: its directory, an end marker above every character,
      its file name. A line without one: the directory it names and a marker just below, if the section
      has anything strictly below that directory; itself otherwise. */
  ghost function Body(section: seq<string>, a: string): seq<int> {
    if HasSlash(a) then Codes(DirOf(a)) + [MARK + 1] + Codes(a[|DirOf(a)|..])
    else if NamesDirectory(section, a) then Codes(a + "/") + [MARK]
    else Codes(a)
  }

  ghost function Key(section: seq<string>, x: string): seq<int> {
    if x == "" then [] else [0] + Body(section, Strip(x))
  }

  /** How far a body agrees, character by character, with the line itself. */
  function Reach(a: string): nat {
    if HasSlash(a) then |DirOf(a)| else |a|
  }

  lemma BodyFollowsLine(section: seq<string>, a: string)
    ensures Reach(a) <= |a| && Reach(a) <= |Body(section, a)|
    ensures forall k | 0 <= k < Reach(a) :: Body(section, a)[k] == a[k] as int
    ensures !HasSlash(a) && |a| < |Body(section, a)| ==> Body(section, a)[|a|] == '/' as int
  {
  }

  /** A slash-free line has no directory as a prefix, not even with a slash after it, save its own. */
  lemma NoDirectoryInside(a: string, d: string)
    requires !HasSlash(a) && d != "" && d[|d| - 1] == '/' && d <= a + "/"
    ensures d == a + "/"
  {
    assert forall k | 0 <= k < |a| :: (a + "/")[k] == a[k] != '/';
    assert (a + "/")[|d| - 1] == '/';
  }

  /** If two lines differ at a place that both bodies still follow, collation and bodies agree. */
  lemma DifferWithinReach(section: seq<string>, a: string, b: string, i: nat)
    requires i < Reach(a) && i < Reach(b) && a[..i] == b[..i] && a[i] != b[i]
    ensures StrColl(a, b) == Lex(Body(section, a), Body(section, b))
  {
    BodyFollowsLine(section, a);
    BodyFollowsLine(section, b);
    forall k | 0 <= k < i ensures a[k] == b[k] {
      assert a[..i][k] == b[..i][k];
    }
    LexFirstDifference(Codes(a), Codes(b), i);
    LexFirstDifference(Body(section, a), Body(section, b), i);
  }

  lemma SameDirectory(section: seq<string>, a: string, b: string)
    requires HasSlash(a) && HasSlash(b) && DirOf(a) == DirOf(b)
    ensures StrColl(a, b) == Lex(Body(section, a), Body(section, b))
  {
    var d := DirOf(a);
    var f, g := a[|d|..], b[|d|..];
    assert a == d + f && b == d + g;
    CodesConcat(d, f);
    CodesConcat(d, g);
    assert Body(section, a) == Codes(d) + [MARK + 1] + Codes(f);
    assert Body(section, b) == Codes(d) + [MARK + 1] + Codes(g);
    LexCommonPrefix(Codes(d), Codes(f), Codes(g));
    LexCommonPrefix(Codes(d) + [MARK + 1], Codes(f), Codes(g));
  }

  lemma SubDirectoryFirst(section: seq<string>, a: string, b: string)
    requires HasSlash(a) && HasSlash(b) && DirOf(b) < DirOf(a)
    ensures Lex(Body(section, a), Body(section, b)) == -1
  {
    var i, ka, kb := |DirOf(b)|, Body(section, a), Body(section, b);
    assert ka[..i] == Codes(DirOf(a))[..i] == Codes(DirOf(b)) == kb[..i];
    assert ka[i] == DirOf(a)[i] as int && kb[i] == MARK + 1;
    LexFirstDifference(ka, kb, i);
  }

  lemma SlashAgainstSlash(section: seq<string>, a: string, b: string)
    requires HasSlash(a) && HasSlash(b)
    ensures CompareStripped(a, b) == Lex(Body(section, a), Body(section, b))
  {
    if DirOf(a) == DirOf(b) {
      SameDirectory(section, a, b);
    } else if DirOf(b) <= DirOf(a) {
      SubDirectoryFirst(section, a, b);
    } else if DirOf(a) <= DirOf(b) {
      SubDirectoryFirst(section, b, a);
      LexAntisymmetric(Body(section, a), Body(section, b));
    } else {
      var i := FirstDifference(DirOf(a), DirOf(b));
      assert a[..i] == DirOf(a)[..i] == DirOf(b)[..i] == b[..i];
      DifferWithinReach(section, a, b, i);
    }
  }

  /** A slash-free line that is a proper prefix of the other line's followed part comes first. */
  lemma ShorterFirst(section: seq<string>, a: string, b: string)
    requires !HasSlash(a) && |a| < Reach(b) && a == b[..|a|] && b[|a|] != '/'
    requires NamesDirectory(section, a) ==> !JumpsAhead(b, a)
    ensures StrColl(a, b) == -1 == Lex(Body(section, a), Body(section, b))
  {
    BodyFollowsLine(section, a);
    BodyFollowsLine(section, b);
    var i, ka, kb := |a|, Body(section, a), Body(section, b);
    assert Codes(a) == Codes(b)[..i];
    LexProperPrefix(Codes(a), Codes(b));
    assert kb[..i] == Codes(b)[..i];
    if NamesDirectory(section, a) {
      assert ka[..i] == Codes(a);
      LexFirstDifference(ka, kb, i);
    } else {
      LexProperPrefix(ka, kb);
    }
  }

  lemma OwnDirectory(section: seq<string>, a: string, b: string)
    requires !HasSlash(a) && HasSlash(b) && DirOf(b) == a + "/"
    ensures StrColl(a, b) == -1 == Lex(Body(section, a), Body(section, b))
  {
    var file := [MARK + 1] + Codes(b[|DirOf(b)|..]);
    assert a < b by { assert (a + "/")[..|a|] == b[..|a|]; }
    PrefixCollatesFirst(a, b);
    CodesConcat(a, "/");
    assert Body(section, b) == Codes(a + "/") + file;
    if NamesDirectory(section, a) {
      LexCommonPrefix(Codes(a + "/"), [MARK], file);
    } else {
      Associate(Codes(a), Codes("/"), file);
      LexCommonPrefix(Codes(a), [], Codes("/") + file);
      assert Codes(a) + [] == Codes(a);
    }
  }

  lemma BelowComesFirst(section: seq<string>, a: string, b: string)
    requires !HasSlash(a) && StrictlyBelow(b, a) && NamesDirectory(section, a)
    ensures Lex(Body(section, a), Body(section, b)) == 1
  {
    var d := DirOf(b);
    var below := d[|a| + 1..];
    assert d == a + "/" + below;
    CodesConcat(a + "/", below);
    var head, tail := Codes(a + "/"), [MARK + 1] + Codes(b[|d|..]);
    Associate(Codes(d), [MARK + 1], Codes(b[|d|..]));
    Associate(head, Codes(below), tail);
    assert Body(section, b) == head + (Codes(below) + tail);
    LexCommonPrefix(head, [MARK], Codes(below) + tail);
    assert (Codes(below) + tail)[0] == Codes(below)[0] < MARK;
  }

  lemma FreeAgainstSlash(section: seq<string>, a: string, b: string)
    requires !HasSlash(a) && HasSlash(b)
    requires StrictlyBelow(b, a) ==> NamesDirectory(section, a)
    requires NamesDirectory(section, a) ==> !JumpsAhead(b, a)
    ensures CompareStripped(a, b) == Lex(Body(section, a), Body(section, b))
  {
    var d := DirOf(b);
    if d == a + "/" {
      OwnDirectory(section, a, b);
    } else if a + "/" <= d {
      BelowComesFirst(section, a, b);
    } else {
      if d <= a + "/" {
        NoDirectoryInside(a, d);
      }
      var i := FirstDifference(a + "/", d);
      assert (a + "/")[..i] == d[..i] == b[..i];
      if i < |a| {
        assert a[..i] == (a + "/")[..i] && a[i] == (a + "/")[i];
        DifferWithinReach(section, a, b, i);
      } else {
        assert (a + "/")[..i] == a;
        ShorterFirst(section, a, b);
      }
    }
  }

  lemma FreeAgainstFree(section: seq<string>, a: string, b: string)
    requires !HasSlash(a) && !HasSlash(b)
    requires NamesDirectory(section, a) ==> !JumpsAhead(b, a)
    requires NamesDirectory(section, b) ==> !JumpsAhead(a, b)
    ensures CompareStripped(a, b) == Lex(Body(section, a), Body(section, b))
  {
    LexAntisymmetric(Codes(a), Codes(b));
    LexAntisymmetric(Body(section, a), Body(section, b));
    if a == b {
    } else if a <= b {
      ShorterFirst(section, a, b);
    } else if b <= a {
      ShorterFirst(section, b, a);
    } else {
      var i := FirstDifference(a, b);
      DifferWithinReach(section, a, b, i);
    }
  }

  lemma StrippedIsBodyOrder(section: seq<string>, a: string, b: string)
    requires StrictlyBelow(b, a) ==> NamesDirectory(section, a)
    requires StrictlyBelow(a, b) ==> NamesDirectory(section, b)
    requires !HasSlash(a) && NamesDirectory(section, a) ==> !JumpsAhead(b, a)
    requires !HasSlash(b) && NamesDirectory(section, b) ==> !JumpsAhead(a, b)
    ensures CompareStripped(a, b) == Lex(Body(section, a), Body(section, b))
  {
    if HasSlash(a) && HasSlash(b) {
      SlashAgainstSlash(section, a, b);
    } else if HasSlash(b) {
      FreeAgainstSlash(section, a, b);
    } else if HasSlash(a) {
      FreeAgainstSlash(section, b, a);
      StrippedAntisymmetric(a, b);
      LexAntisymmetric(Body(section, a), Body(section, b));
    } else {
      FreeAgainstFree(section, a, b);
    }
  }

  /** In a section without clashes the comparator is the lexicographic order of keys. */
  lemma CompareIsKeyOrder(section: seq<string>, x: string, y: string)
    requires NoClash(section) && x in section && y in section
    ensures Compare(x, y) == Lex(Key(section, x), Key(section, y))
  {
    if x == "" || y == "" {
      LexAntisymmetric(Codes(x), Codes(y));
      LexAntisymmetric(Key(section, x), Key(section, y));
    } else {
      var a, b := Strip(x), Strip(y);
      NoJumpPastDirectory(section, x, y);
      NoJumpPastDirectory(section, y, x);
      StrippedIsBodyOrder(section, a, b);
      LexCommonPrefix([0], Body(section, a), Body(section, b));
    }
  }

  lemma NoJumpPastDirectory(section: seq<string>, x: string, y: string)
    requires NoClash(section) && x in section && y in section && x != "" && y != ""
    ensures !HasSlash(Strip(x)) && NamesDirectory(section, Strip(x)) ==> !JumpsAhead(Strip(y), Strip(x))
    ensures StrictlyBelow(Strip(y), Strip(x)) ==> NamesDirectory(section, Strip(x))
  {
    if !HasSlash(Strip(x)) && NamesDirectory(section, Strip(x)) {
      var z :| z in section && z != "" && StrictlyBelow(Strip(z), Strip(x));
      assert !Clash(x, z, y);
    }
  }

  /** A clash is a cycle: the slash-free line comes before the one that jumps ahead, that one before the
      one below, and that one before the first. */
  lemma ClashIsCycle(x: string, below: string, ahead: string)
    requires Clash(x, below, ahead)
    ensures Compare(x, ahead) < 0 && Compare(ahead, below) < 0 && Compare(below, x) < 0
  {
    var a, s, t := Strip(x), Strip(below), Strip(ahead);
    var i := |a|;
    assert s[..i] == a && s[i] == '/' by {
      assert a + "/" <= s;
      assert (a + "/")[..i] == s[..i];
    }
    assert t[..i] == a && t[i] < '/';
    assert !(Dir(t) <= a + "/") && !(a + "/" <= Dir(t)) by {
      assert i < |Dir(t)| && Dir(t)[i] == t[i] by { JumpIsInDirectory(t, a); }
    }
    assert !(Dir(t) <= Dir(s)) && !(Dir(s) <= Dir(t)) by {
      assert i < |Dir(t)| && Dir(t)[i] == t[i] by { JumpIsInDirectory(t, a); }
      assert i < |Dir(s)| && Dir(s)[i] == '/';
    }
    assert Codes(t)[..i] == Codes(s)[..i] == Codes(a);
    LexFirstDifference(Codes(t), Codes(s), i);
    LexProperPrefix(Codes(a), Codes(t));
  }

  lemma JumpIsInDirectory(t: string, a: string)
    requires !HasSlash(a) && JumpsAhead(t, a)
    ensures |a| < |Dir(t)| && Dir(t)[|a|] == t[|a|]
  {
    assert forall k | 0 <= k < |a| :: t[k] == a[k] != '/';
    if HasSlash(t) {
      assert t[|DirOf(t)| - 1] == '/';
    }
  }

  /** The comparator orders a section exactly when the section has no clash. */
  lemma OrderIffNoClash(section: seq<string>)
    ensures TransitiveOn(section) <==> NoClash(section)
  {
    if NoClash(section) {
      forall x, y, z | x in section && y in section && z in section && Compare(x, y) <= 0 && Compare(y, z) <= 0
        ensures Compare(x, z) <= 0
      {
        CompareIsKeyOrder(section, x, y);
        CompareIsKeyOrder(section, y, z);
        CompareIsKeyOrder(section, x, z);
        LexTransitive(Key(section, x), Key(section, y), Key(section, z));
      }
    } else {
      var x, y, z :| x in section && y in section && z in section && Clash(x, y, z);
      ClashIsCycle(x, y, z);
      CompareAntisymmetric(x, y);
    }
  }

  /** In particular when every line has a slash, or none has. */
  lemma UniformSectionsHaveNoClash(section: seq<string>)
    requires (forall x | x in section :: HasSlash(x)) || (forall x | x in section :: !HasSlash(x))
    ensures NoClash(section) && TransitiveOn(section)
  {
    forall x, y, z | x in section && y in section && z in section ensures !Clash(x, y, z) {
      SlashSurvivesStrip(x);
      SlashSurvivesStrip(y);
    }
    OrderIffNoClash(section);
  }

  lemma SlashSurvivesStrip(x: string)
    ensures HasSlash(Strip(x)) <==> HasSlash(x)
  {
    if HasSlash(x) {
      var i :| 0 <= i < |x| && x[i] == '/';
      assert i > 0 && x[0] == '-' ==> x[1..][i - 1] == '/';
    }
  }

  /** A comment-like line among paths can make the comparator cyclic. */
  lemma CyclicSection()
    ensures Compare("foo", "foo-bar") < 0 && Compare("foo-bar", "foo/d/x") < 0 && Compare("foo/d/x", "foo") < 0
    ensures !TransitiveOn(["foo", "foo-bar", "foo/d/x"])
  {
    var x, ahead, below := "foo", "foo-bar", "foo/d/x";
    assert below[..6] == "foo/d/" && below[6..] == "x" && !HasSlash("x");
    assert DirOf(below) == "foo/d/" by { assert DirOf("foo/d/") == "foo/d/"; assert below[..|below| - 1] == "foo/d/"; }
    assert "foo" + "/" == "foo/d/"[..4];
    assert ahead[..3] == "foo" && ahead[3] == '-';
    assert Clash(x, below, ahead);
    ClashIsCycle(x, below, ahead);
    assert Clash(x, below, ahead) && ["foo", "foo-bar", "foo/d/x"][0] == x && ["foo", "foo-bar", "foo/d/x"][1] == ahead
           && ["foo", "foo-bar", "foo/d/x"][2] == below;
    OrderIffNoClash(["foo", "foo-bar", "foo/d/x"]);
  }
}
