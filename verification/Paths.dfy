/**
 * Folders as backend/src/paths.rs compares them: the Unix ones a container sees, and Windows drives
 * and shares, whatever their case, their separators and the spaces around them.
 */
module Paths {
  import opened Texts

  /** White space, and lower case taken character by character. */
  datatype Text = Text(space: char -> bool, lower: char -> char)

  predicate Letter(c: char) {
    'a' <= c <= 'z' || 'A' <= c <= 'Z'
  }

  /** A character a path is read by: a separator, the colon of a drive, or the dot of a step. */
  predicate Reserved(c: char) {
    c == '/' || c == '\\' || c == ':' || c == '.'
  }

  ghost predicate Lawful(t: Text) {
    (forall c {:trigger t.lower(t.lower(c))} :: t.lower(t.lower(c)) == t.lower(c)) &&
    (forall c {:trigger t.space(t.lower(c))} :: t.space(t.lower(c)) == t.space(c)) &&
    (forall c {:trigger t.lower(c)} :: Reserved(c) || Reserved(t.lower(c)) ==> t.lower(c) == c) &&
    (forall c | Letter(c) :: Letter(t.lower(c))) &&
    forall c | Reserved(c) || Letter(c) :: !t.space(c)
  }

  function TrimStart(t: Text, s: string): (r: string)
    ensures |r| <= |s|
    ensures r != [] ==> !t.space(r[0])
  {
    if s != [] && t.space(s[0]) then TrimStart(t, s[1..]) else s
  }

  function TrimEnd(t: Text, s: string): (r: string)
    ensures |r| <= |s|
    ensures r != [] ==> !t.space(r[|r| - 1])
  {
    if s != [] && t.space(s[|s| - 1]) then TrimEnd(t, s[..|s| - 1]) else s
  }

  function Trim(t: Text, s: string): string {
    TrimEnd(t, TrimStart(t, s))
  }

  function Unclosed(s: string, separator: char): (r: string)
    ensures |r| <= |s|
    ensures r != [] ==> r[|r| - 1] != separator
    ensures forall i | |r| <= i < |s| :: s[i] == separator
  {
    if s != [] && s[|s| - 1] == separator then Unclosed(s[..|s| - 1], separator) else s
  }

  function Backslashed(s: string): (r: string)
    ensures |r| == |s| && forall i | 0 <= i < |s| :: r[i] == if s[i] == '/' then '\\' else s[i]
  {
    seq(|s|, i requires 0 <= i < |s| => if s[i] == '/' then '\\' else s[i])
  }

  function Lowered(t: Text, s: string): (r: string)
    ensures |r| == |s| && forall i | 0 <= i < |s| :: r[i] == t.lower(s[i])
  {
    seq(|s|, i requires 0 <= i < |s| => t.lower(s[i]))
  }

  predicate Drive(s: string) {
    |s| >= 2 && Letter(s[0]) && s[1] == ':'
  }

  predicate Share(s: string) {
    |s| >= 2 && s[0] == '\\' && s[1] == '\\'
  }

  predicate Opens(s: string) {
    Drive(s) || Share(s)
  }

  predicate IsWindows(t: Text, path: string) {
    Opens(Trim(t, path))
  }

  /** A Windows path opens with `X:` or two backslashes, so two characters left are a drive alone. */
  function Closed(s: string): string {
    var rest := Unclosed(s, '\\');
    if |rest| == 2 then rest + "\\" else rest
  }

  /** What has no space around it without the separators that close it, a root keeping the one it needs. */
  function Standing(s: string): string {
    if Opens(s) then Closed(Backslashed(s))
    else
      var rest := Unclosed(s, '/');
      if rest == "" && s != "" && s[0] == '/' then "/" else rest
  }

  function Trimmed(t: Text, path: string): string {
    Standing(Trim(t, path))
  }

  function Key(t: Text, path: string): string {
    var trimmed := Trimmed(t, path);
    if IsWindows(t, trimmed) then Lowered(t, trimmed) else trimmed
  }

  predicate Same(t: Text, a: string, b: string) {
    Key(t, a) == Key(t, b)
  }

  function Separators(t: Text, path: string): set<char> {
    if IsWindows(t, path) then {'\\', '/'} else {'/'}
  }

  predicate Climbs(t: Text, path: string) {
    exists segment | segment in Split(path, Separators(t, path)) :: segment == "." || segment == ".."
  }

  function Separator(t: Text, folder: string): char {
    if IsWindows(t, folder) then '\\' else '/'
  }

  /** `path` is the folder, or goes on after it past a separator, both as keys. */
  predicate Under(path: string, folder: string, separator: char) {
    path == folder ||
    (folder <= path &&
     ((folder != "" && folder[|folder| - 1] == separator) || (|path| > |folder| && path[|folder|] == separator)))
  }

  predicate Within(t: Text, path: string, folder: string) {
    IsWindows(t, path) == IsWindows(t, folder) && !Climbs(t, path) && !Climbs(t, folder) &&
    Under(Key(t, path), Key(t, folder), Separator(t, Key(t, folder)))
  }

  predicate IsAbsolute(t: Text, path: string) {
    var s := Trim(t, path);
    if Share(s) then |Named(Split(s[2..], {'\\', '/'}))| >= 2
    else if Opens(s) then |s| > 2 && (s[2] == '\\' || s[2] == '/')
    else s != "" && s[0] == '/'
  }

  function Named(parts: seq<string>): seq<string> {
    if parts == [] then [] else (if parts[0] == "" then [] else [parts[0]]) + Named(parts[1..])
  }

  lemma {:induction false} TrimEndStarts(t: Text, s: string)
    ensures TrimEnd(t, s) <= s
  {
    if s != "" && t.space(s[|s| - 1]) {
      TrimEndStarts(t, s[..|s| - 1]);
    }
  }

  lemma {:induction false} UnclosedStarts(s: string, separator: char)
    ensures Unclosed(s, separator) <= s
  {
    if s != "" && s[|s| - 1] == separator {
      UnclosedStarts(s[..|s| - 1], separator);
    }
  }

  // ----- an order

  /** A path that does not climb is within itself. */
  lemma WithinItself(t: Text, path: string)
    ensures Within(t, path, path) <==> !Climbs(t, path)
  {
  }

  lemma WithinEachOther(t: Text, a: string, b: string)
    requires Within(t, a, b) && Within(t, b, a)
    ensures Same(t, a, b)
  {
    assert Key(t, a) <= Key(t, b) && Key(t, b) <= Key(t, a);
  }

  lemma WithinPasses(t: Text, a: string, b: string, c: string)
    requires Within(t, a, b) && Within(t, b, c)
    ensures Within(t, a, c)
  {
    var x, y, z := Key(t, a), Key(t, b), Key(t, c);
    if y != z && x != y {
      assert z <= y <= x;
    }
  }

  lemma UnderOneAnother(path: string, x: string, y: string, sx: char, sy: char)
    requires Under(path, x, sx) && Under(path, y, sy) && |x| <= |y|
    ensures Under(y, x, sx)
  {
    assert x == path[..|x|] && y == path[..|y|];
    assert x == y[..|x|];
    if |x| < |y| {
      assert y[|x|] == path[|x|];
    }
  }

  /** The folders that hold one path hold one another. */
  lemma FoldersOfAPath(t: Text, path: string, a: string, b: string)
    requires Within(t, path, a) && Within(t, path, b)
    ensures Within(t, a, b) || Within(t, b, a)
  {
    var p, x, y := Key(t, path), Key(t, a), Key(t, b);
    if |x| <= |y| {
      UnderOneAnother(p, x, y, Separator(t, x), Separator(t, y));
    } else {
      UnderOneAnother(p, y, x, Separator(t, y), Separator(t, x));
    }
  }

  // ----- one key for one folder

  lemma {:induction false} TrimEndKeeps(t: Text, s: string, i: nat)
    requires i < |s| && !t.space(s[i])
    ensures |TrimEnd(t, s)| > i
  {
    if t.space(s[|s| - 1]) {
      TrimEndKeeps(t, s[..|s| - 1], i);
    }
  }

  /** Nothing to trim. */
  lemma TrimmedAlready(t: Text, s: string)
    requires s == "" || (!t.space(s[0]) && !t.space(s[|s| - 1]))
    ensures Trim(t, s) == s
  {
  }

  lemma TrimHasNoSpace(t: Text, s: string)
    ensures var r := Trim(t, s); |r| <= |s| && (r == "" || (!t.space(r[0]) && !t.space(r[|r| - 1])))
    ensures Trim(t, Trim(t, s)) == Trim(t, s)
  {
    var start := TrimStart(t, s);
    if start != "" {
      TrimEndKeeps(t, start, 0);
      TrimEndStarts(t, start);
    }
    TrimmedAlready(t, Trim(t, s));
  }

  lemma ASpaceAfter(t: Text, s: string)
    requires t.space(' ') && s != "" && !t.space(s[0]) && !t.space(s[|s| - 1])
    ensures Trim(t, s + " ") == Trim(t, s)
  {
    assert TrimStart(t, s + " ") == s + " " && TrimStart(t, s) == s;
    assert (s + " ")[..|s|] == s;
  }

  /** A space after a last `..` hides it: the key is the one of a path that climbs, and the path does not. */
  lemma ASpaceHidesAClimb(t: Text)
    requires Lawful(t) && t.space(' ')
    ensures Same(t, ".." + " ", "..") && Within(t, ".." + " ", ".." + " ") && !Within(t, "..", "..")
  {
    assert Reserved('.');
    ASpaceAfter(t, "..");
    TrimmedAlready(t, "..");
    SplitUncut("..", {'/'});
    SplitUncut(".." + " ", {'/'});
    assert ".." in Split("..", {'/'});
    assert ".." + " " != "..";
  }

  predicate EndsInSpace(t: Text, s: string) {
    s != "" && t.space(s[|s| - 1])
  }

  /** What stands on Linux: closed by a separator only when that is all. */
  ghost predicate UnixStands(r: string) {
    !Opens(r) && (r == "/" || r == "" || r[|r| - 1] != '/')
  }

  /** What stands on Windows: no slash, and closed by a separator only as a drive's root. */
  ghost predicate WindowsStands(r: string) {
    '/' !in r &&
    (r == "" || (|r| > 2 && Share(r) && r[|r| - 1] != '\\') ||
     (|r| > 2 && Drive(r) && (r[|r| - 1] != '\\' || |r| == 3)))
  }

  lemma UnixStanding(s: string)
    requires !Opens(s)
    ensures UnixStands(Standing(s)) && Standing(s) <= s
  {
    UnclosedStarts(s, '/');
  }

  lemma ClosedDrive(b: string)
    requires '/' !in b && Drive(b)
    ensures var r := Closed(b);
      WindowsStands(r) && Drive(r) && r[0] == b[0] && (|b| > 2 && b[2] == '\\' ==> r[2] == '\\')
  {
    var rest := Unclosed(b, '\\');
    UnclosedStarts(b, '\\');
    assert |rest| >= 2 by {
      assert b[1] != '\\';
    }
    assert rest[..2] == b[..2];
    if |rest| > 2 {
      assert rest[2] == b[2];
    }
  }

  lemma ClosedShare(b: string)
    requires '/' !in b && Share(b)
    ensures var r := Closed(b); WindowsStands(r) && (r == "" || Share(r))
    ensures forall i | 2 <= i < |b| && b[i] != '\\' :: Closed(b) != ""
  {
    var rest := Unclosed(b, '\\');
    UnclosedStarts(b, '\\');
    if rest != "" {
      assert rest[|rest| - 1] == b[|rest| - 1];
      assert |rest| > 2;
      assert rest[..2] == b[..2];
    }
  }

  lemma WindowsStanding(s: string)
    requires Opens(s)
    ensures var r := Standing(s);
      WindowsStands(r) &&
      (Drive(s) ==> Drive(r) && r[0] == s[0] && (|s| > 2 && (s[2] == '/' || s[2] == '\\') ==> r[2] == '\\')) &&
      (Share(s) ==> (r == "" || Share(r)) && (r == "" ==> forall i | 2 <= i < |s| :: s[i] == '/' || s[i] == '\\'))
  {
    var b := Backslashed(s);
    if Drive(s) {
      ClosedDrive(b);
    } else {
      ClosedShare(b);
      if Closed(b) == "" {
        forall i | 2 <= i < |s| ensures s[i] == '/' || s[i] == '\\' {
          assert b[i] == '\\';
        }
      }
    }
  }

  /** What stands stays as it is. */
  lemma StandsStill(r: string)
    requires UnixStands(r) || WindowsStands(r)
    ensures Standing(r) == r
  {
    if Opens(r) {
      assert Backslashed(r) == r;
      if r[|r| - 1] == '\\' {
        assert r[..2] + "\\" == r && r[..2][1] != '\\';
        assert Unclosed(r, '\\') == r[..2];
      }
    } else {
      assert Unclosed(r, '/') == if r == "/" then "" else r;
    }
  }

  /** Spaces at the end do not change what opens a path. */
  lemma OpensAllTheSame(t: Text, r: string)
    requires Lawful(t) && (r == "" || !t.space(r[0]))
    ensures IsWindows(t, r) == Opens(r)
  {
    if Opens(r) {
      assert !t.space(r[1]);
      TrimEndKeeps(t, r, 1);
    }
    TrimEndStarts(t, r);
  }

  function LowerIfOpen(t: Text, r: string): string {
    if Opens(r) then Lowered(t, r) else r
  }

  lemma StandingOpensUnspaced(t: Text, s: string)
    requires Lawful(t) && (s == "" || !t.space(s[0]))
    ensures Standing(s) == "" || !t.space(Standing(s)[0])
  {
    if Opens(s) {
      WindowsStanding(s);
      var r := Standing(s);
      assert r != "" ==> Letter(r[0]) || Reserved(r[0]);
    } else {
      UnixStanding(s);
    }
  }

  lemma KeyIs(t: Text, path: string)
    requires Lawful(t)
    ensures Key(t, path) == LowerIfOpen(t, Standing(Trim(t, path)))
  {
    var s := Trim(t, path);
    TrimHasNoSpace(t, path);
    StandingOpensUnspaced(t, s);
    OpensAllTheSame(t, Standing(s));
  }

  lemma LoweredStands(t: Text, r: string)
    requires Lawful(t) && WindowsStands(r)
    ensures var l := Lowered(t, r);
      WindowsStands(l) && Lowered(t, l) == l && Drive(l) == Drive(r) && Share(l) == Share(r)
  {
    var l := Lowered(t, r);
    forall i | 0 <= i < |l| ensures l[i] != '/' && (l[i] == '\\' <==> r[i] == '\\') && (l[i] == ':' <==> r[i] == ':') {
      assert Reserved(l[i]) ==> l[i] == r[i];
      assert r[i] != '/';
    }
  }

  lemma LoweredEndsAlike(t: Text, r: string)
    requires Lawful(t)
    ensures EndsInSpace(t, LowerIfOpen(t, r)) <==> EndsInSpace(t, r)
    ensures |LowerIfOpen(t, r)| == |r|
  {
    if r != "" {
      assert t.space(t.lower(r[|r| - 1])) == t.space(r[|r| - 1]);
    }
  }

  /** What stands, in lower case where it opens as Windows does, with no space in front. */
  ghost predicate Keyed(t: Text, k: string) {
    (UnixStands(k) || WindowsStands(k)) && LowerIfOpen(t, k) == k && (k == "" || !t.space(k[0]))
  }

  lemma KeyedIsKey(t: Text, k: string)
    requires Lawful(t) && Keyed(t, k) && !EndsInSpace(t, k)
    ensures Key(t, k) == k
  {
    TrimmedAlready(t, k);
    StandsStill(k);
    KeyIs(t, k);
  }

  lemma LoweredIsKeyed(t: Text, s: string)
    requires Lawful(t) && (s == "" || !t.space(s[0]))
    ensures Keyed(t, LowerIfOpen(t, Standing(s)))
  {
    var r := Standing(s);
    StandingOpensUnspaced(t, s);
    if Opens(s) {
      WindowsStanding(s);
      LoweredStands(t, r);
      assert r != "" ==> t.space(t.lower(r[0])) == t.space(r[0]);
    } else {
      UnixStanding(s);
    }
  }

  lemma KeyIsKeyed(t: Text, path: string)
    requires Lawful(t)
    ensures Keyed(t, Key(t, path))
    ensures EndsInSpace(t, Key(t, path)) <==> EndsInSpace(t, Trimmed(t, path))
  {
    KeyIs(t, path);
    TrimHasNoSpace(t, path);
    LoweredIsKeyed(t, Trim(t, path));
    LoweredEndsAlike(t, Standing(Trim(t, path)));
  }

  lemma TrimLosesTheEnd(t: Text, k: string)
    requires EndsInSpace(t, k)
    ensures |Trim(t, k)| < |k|
  {
  }

  /** A path left standing is no longer, unless a drive alone was given its separator back. */
  lemma StandingIsShorter(s: string)
    ensures |Standing(s)| <= |s| || (|Standing(s)| == 3 && Standing(s)[2] == '\\')
  {
  }

  lemma KeyLosesASpace(t: Text, k: string)
    requires Lawful(t) && EndsInSpace(t, k)
    ensures Key(t, k) != k
  {
    var r := Standing(Trim(t, k));
    KeyIs(t, k);
    TrimLosesTheEnd(t, k);
    StandingIsShorter(Trim(t, k));
    LoweredEndsAlike(t, r);
    if |r| >= |k| {
      assert r[|r| - 1] == '\\' && Reserved('\\');
    }
  }

  /**
   * A key is the key of itself exactly when no white space stood before the separators the path is
   * closed with.
   */
  lemma KeyAgain(t: Text, path: string)
    requires Lawful(t)
    ensures Key(t, Key(t, path)) == Key(t, path) <==> !EndsInSpace(t, Trimmed(t, path))
  {
    KeyIsKeyed(t, path);
    KeyOfAKey(t, Key(t, path));
  }

  lemma KeyOfAKey(t: Text, k: string)
    requires Lawful(t) && Keyed(t, k)
    ensures Key(t, k) == k <==> !EndsInSpace(t, k)
  {
    if EndsInSpace(t, k) {
      KeyLosesASpace(t, k);
    } else {
      KeyedIsKey(t, k);
    }
  }

  // ----- climbing, from one writing of a key to another

  predicate IsStep(segment: string) {
    segment == "." || segment == ".."
  }

  lemma ClimbsByAStep(t: Text, path: string)
    ensures Climbs(t, path) <==> HasStep(Split(path, Separators(t, path)))
  {
    var parts := Split(path, Separators(t, path));
    if Climbs(t, path) {
      var segment :| segment in parts && IsStep(segment);
      var k :| 0 <= k < |parts| && parts[k] == segment;
    }
    if HasStep(parts) {
      var k :| 0 <= k < |parts| && IsStep(parts[k]);
      assert parts[k] in parts;
    }
  }

  ghost predicate HasStep(parts: seq<string>) {
    exists k :: 0 <= k < |parts| && IsStep(parts[k])
  }

  lemma {:induction false} SplitClosedOnce(s: string, c: char, separators: set<char>)
    requires c in separators
    ensures Split(s + [c], separators) == Split(s, separators) + [""]
  {
    if s == "" {
      assert [c][1..] == "";
    } else {
      SplitClosedOnce(s[1..], c, separators);
      assert (s + [c])[1..] == s[1..] + [c];
    }
  }

  /** The separators that close a path name no step. */
  lemma {:induction false} UnclosedSteps(s: string, c: char, separators: set<char>)
    requires c in separators
    ensures HasStep(Split(Unclosed(s, c), separators)) <==> HasStep(Split(s, separators))
  {
    if s != "" && s[|s| - 1] == c {
      var rest := s[..|s| - 1];
      assert rest + [c] == s;
      UnclosedSteps(rest, c, separators);
      OneMoreEmpty(Split(rest, separators));
      SplitClosedOnce(rest, c, separators);
    }
  }

  lemma OneMoreEmpty(parts: seq<string>)
    ensures HasStep(parts + [""]) <==> HasStep(parts)
  {
    if HasStep(parts) {
      var k :| 0 <= k < |parts| && IsStep(parts[k]);
      assert IsStep((parts + [""])[k]);
    }
  }

  /** Letter for letter, the two have their separators and their dots at the same places. */
  ghost predicate DotsAlike(a: string, b: string, separators: set<char>) {
    |a| == |b| && forall i | 0 <= i < |a| :: DotAlike(a[i], b[i], separators)
  }

  ghost predicate DotAlike(a: char, b: char, separators: set<char>) {
    (a in separators <==> b in separators) && (a == '.' <==> b == '.')
  }

  ghost predicate SegmentsAlike(p: seq<string>, q: seq<string>) {
    |p| == |q| && forall k | 0 <= k < |p| :: SegmentAlike(p[k], q[k])
  }

  ghost predicate SegmentAlike(a: string, b: string) {
    |a| == |b| && forall i | 0 <= i < |a| :: a[i] == '.' <==> b[i] == '.'
  }

  lemma SegmentStep(a: string, b: string)
    requires SegmentAlike(a, b)
    ensures IsStep(a) <==> IsStep(b)
  {
  }

  lemma SegmentsFurther(p: seq<string>, q: seq<string>, a: char, b: char)
    requires p != [] && SegmentsAlike(p, q) && (a == '.' <==> b == '.')
    ensures SegmentsAlike([""] + p, [""] + q)
    ensures SegmentsAlike([[a] + p[0]] + p[1..], [[b] + q[0]] + q[1..])
  {
    assert SegmentAlike(p[0], q[0]) && SegmentAlike("", "");
    assert SegmentAlike([a] + p[0], [b] + q[0]);
  }

  lemma {:induction false} SplitAlike(a: string, b: string, separators: set<char>)
    requires DotsAlike(a, b, separators)
    ensures SegmentsAlike(Split(a, separators), Split(b, separators))
  {
    if a == "" {
      assert SegmentAlike("", "");
    } else {
      assert DotAlike(a[0], b[0], separators);
      forall i | 0 <= i < |a| - 1 ensures DotAlike(a[1..][i], b[1..][i], separators) {
        assert DotAlike(a[i + 1], b[i + 1], separators);
      }
      SplitAlike(a[1..], b[1..], separators);
      SegmentsFurther(Split(a[1..], separators), Split(b[1..], separators), a[0], b[0]);
    }
  }

  lemma StepsAlike(p: seq<string>, q: seq<string>)
    requires SegmentsAlike(p, q)
    ensures HasStep(p) <==> HasStep(q)
  {
    forall k | 0 <= k < |p| ensures IsStep(p[k]) <==> IsStep(q[k]) {
      assert SegmentAlike(p[k], q[k]);
      SegmentStep(p[k], q[k]);
    }
  }

  lemma WindowsSteps(s: string)
    requires Opens(s) && Standing(s) != ""
    ensures HasStep(Split(Standing(s), {'\\', '/'})) <==> HasStep(Split(s, {'\\', '/'}))
  {
    var b := Backslashed(s);
    assert forall i | 0 <= i < |s| :: DotAlike(s[i], b[i], {'\\', '/'});
    SplitAlike(s, b, {'\\', '/'});
    StepsAlike(Split(s, {'\\', '/'}), Split(b, {'\\', '/'}));
    UnclosedSteps(b, '\\', {'\\', '/'});
    var rest := Unclosed(b, '\\');
    SplitClosedOnce(rest, '\\', {'\\', '/'});
    OneMoreEmpty(Split(rest, {'\\', '/'}));
    assert rest + "\\" == rest + ['\\'];
  }

  lemma {:induction false} SeparatorsAreNoStep(s: string)
    requires forall i | 0 <= i < |s| :: s[i] == '/' || s[i] == '\\'
    ensures forall k | 0 <= k < |Split(s, {'\\', '/'})| :: Split(s, {'\\', '/'})[k] == ""
  {
    if s != "" {
      SeparatorsAreNoStep(s[1..]);
    }
  }

  lemma LoweredSteps(t: Text, r: string, separators: set<char>)
    requires Lawful(t) && separators <= {'\\', '/'}
    ensures HasStep(Split(Lowered(t, r), separators)) <==> HasStep(Split(r, separators))
  {
    var l := Lowered(t, r);
    forall i | 0 <= i < |r| ensures DotAlike(r[i], l[i], separators) {
      assert Reserved(r[i]) || Reserved(l[i]) ==> l[i] == r[i];
    }
    SplitAlike(r, l, separators);
    StepsAlike(Split(r, separators), Split(l, separators));
  }

  lemma UnixSteps(s: string)
    requires !Opens(s)
    ensures HasStep(Split(Standing(s), {'/'})) <==> HasStep(Split(s, {'/'}))
  {
    var rest := Unclosed(s, '/');
    UnclosedSteps(s, '/', {'/'});
    if Standing(s) != rest {
      SplitClosedOnce("", '/', {'/'});
      OneMoreEmpty(Split("", {'/'}));
      assert Standing(s) == "" + ['/'];
    }
  }

  /** A key climbs exactly where the path does, read without the spaces around it. */
  lemma KeyClimbs(t: Text, path: string)
    requires Lawful(t)
    ensures Climbs(t, Key(t, path)) <==> Climbs(t, Trim(t, path))
  {
    var s := Trim(t, path);
    var r, k := Standing(s), Key(t, path);
    KeyIs(t, path);
    KeyIsKeyed(t, path);
    TrimHasNoSpace(t, path);
    OpensAllTheSame(t, s);
    OpensAllTheSame(t, k);
    if !Opens(s) {
      UnixStanding(s);
      UnixSteps(s);
    } else if r == "" {
      WindowsStanding(s);
      assert s[0] == '\\' && s[1] == '\\';
      SeparatorsAreNoStep(s);
      assert Split("", {'/'}) == [""];
    } else {
      WindowsStanding(s);
      LoweredStands(t, r);
      WindowsSteps(s);
      LoweredSteps(t, r, {'\\', '/'});
    }
    ClimbsByAStep(t, k);
    ClimbsByAStep(t, s);
  }

  lemma {:induction false} SplitLed(lead: string, s: string, separators: set<char>)
    requires forall i | 0 <= i < |lead| :: lead[i] !in separators
    ensures var parts, led := Split(s, separators), Split(lead + s, separators);
      |led| == |parts| && led[0] == lead + parts[0] && forall k | 0 < k < |parts| :: led[k] == parts[k]
  {
    if lead == "" {
      assert lead + s == s;
    } else {
      SplitLed(lead[1..], s, separators);
      assert (lead + s)[1..] == lead[1..] + s;
      assert [lead[0]] + (lead[1..] + Split(s, separators)[0]) == lead + Split(s, separators)[0];
    }
  }

  /** The segments `parts` with `trail` written after the last. */
  ghost predicate Trailed(parts: seq<string>, whole: seq<string>, trail: string) {
    |whole| == |parts| &&
    forall k | 0 <= k < |parts| :: whole[k] == if k + 1 == |parts| then parts[k] + trail else parts[k]
  }

  lemma TrailedGrown(more: seq<string>, whole: seq<string>, trail: string, c: char)
    requires more != [] && Trailed(more, whole, trail)
    ensures Trailed([""] + more, [""] + whole, trail)
    ensures Trailed([[c] + more[0]] + more[1..], [[c] + whole[0]] + whole[1..], trail)
  {
    assert [c] + (more[0] + trail) == ([c] + more[0]) + trail;
  }

  lemma {:induction false} SplitTrailed(s: string, trail: string, separators: set<char>)
    requires forall i | 0 <= i < |trail| :: trail[i] !in separators
    ensures Trailed(Split(s, separators), Split(s + trail, separators), trail)
  {
    if s == "" {
      SplitUncut(trail, separators);
      assert s + trail == trail && "" + trail == trail;
    } else {
      SplitTrailed(s[1..], trail, separators);
      assert (s + trail)[1..] == s[1..] + trail;
      TrailedGrown(Split(s[1..], separators), Split(s[1..] + trail, separators), trail, s[0]);
    }
  }

  lemma {:induction false} TrimStartLeads(t: Text, s: string) returns (lead: string)
    ensures s == lead + TrimStart(t, s) && forall i | 0 <= i < |lead| :: t.space(lead[i])
    ensures lead == "" <==> TrimStart(t, s) == s
  {
    if s != "" && t.space(s[0]) {
      var rest := TrimStartLeads(t, s[1..]);
      lead := [s[0]] + rest;
    } else {
      lead := "";
    }
  }

  lemma {:induction false} TrimEndTrails(t: Text, s: string) returns (trail: string)
    ensures s == TrimEnd(t, s) + trail && forall i | 0 <= i < |trail| :: t.space(trail[i])
    ensures trail == "" <==> TrimEnd(t, s) == s
  {
    if s != "" && t.space(s[|s| - 1]) {
      var rest := TrimEndTrails(t, s[..|s| - 1]);
      trail := rest + [s[|s| - 1]];
      assert s == s[..|s| - 1] + [s[|s| - 1]];
    } else {
      trail := "";
    }
  }

  lemma SpacedIsNoStep(t: Text, lead: string, segment: string, trail: string)
    requires Lawful(t) && forall i | 0 <= i < |lead| :: t.space(lead[i])
    requires forall i | 0 <= i < |trail| :: t.space(trail[i])
    ensures IsStep(lead + segment + trail) <==> lead == "" && trail == "" && IsStep(segment)
  {
    assert Reserved('.');
    var whole := lead + segment + trail;
    if lead != "" {
      assert whole[0] == lead[0];
    } else if trail != "" {
      assert whole[|whole| - 1] == trail[|trail| - 1];
    } else {
      assert whole == segment;
    }
  }

  lemma EndsAlike(t: Text, path: string, lead: string, start: string)
    requires path == lead + start && start != ""
    ensures TrimEnd(t, path) == path <==> TrimEnd(t, start) == start
  {
    assert path[|path| - 1] == start[|start| - 1];
  }

  /** The step `k` of a trimmed path still is one with the spaces the path was written with: none touches it. */
  ghost predicate Untouched(t: Text, path: string, parts: seq<string>, k: nat) {
    (k == 0 ==> TrimStart(t, path) == path) && (k + 1 == |parts| ==> TrimEnd(t, path) == path)
  }

  lemma SplitAround(lead: string, s: string, trail: string, separators: set<char>)
    requires forall i | 0 <= i < |lead| :: lead[i] !in separators
    requires forall i | 0 <= i < |trail| :: trail[i] !in separators
    ensures var parts, whole := Split(s, separators), Split(lead + (s + trail), separators);
      |whole| == |parts| && forall k | 0 <= k < |parts| ::
        whole[k] == (if k == 0 then lead else "") + parts[k] + (if k + 1 == |parts| then trail else "")
  {
    SplitTrailed(s, trail, separators);
    SplitLed(lead, s + trail, separators);
  }

  /** Exactly when a path climbs as it is written: by a step of the trimmed path no space around it touches. */
  lemma ClimbsAsWritten(t: Text, path: string)
    requires Lawful(t)
    ensures var parts := Split(Trim(t, path), Separators(t, path));
      Climbs(t, path) <==> exists k :: 0 <= k < |parts| && IsStep(parts[k]) && Untouched(t, path, parts, k)
  {
    var separators := Separators(t, path);
    var start, s := TrimStart(t, path), Trim(t, path);
    var parts, whole := Split(s, separators), Split(path, separators);
    var lead := TrimStartLeads(t, path);
    var trail := TrimEndTrails(t, start);
    assert forall c | c in separators :: Reserved(c);
    assert path == lead + (s + trail);
    SplitAround(lead, s, trail, separators);
    forall k | 0 <= k < |parts| ensures IsStep(whole[k]) <==> IsStep(parts[k]) && Untouched(t, path, parts, k) {
      StepAsWritten(t, path, lead, start, trail, parts, k);
    }
    ClimbsByAStep(t, path);
  }

  lemma StepAsWritten(t: Text, path: string, lead: string, start: string, trail: string, parts: seq<string>, k: nat)
    requires Lawful(t) && k < |parts| && path == lead + start && start == TrimStart(t, path)
    requires forall i | 0 <= i < |lead| :: t.space(lead[i])
    requires forall i | 0 <= i < |trail| :: t.space(trail[i])
    requires trail == "" <==> TrimEnd(t, start) == start
    requires start == "" ==> parts == [""]
    ensures var whole := (if k == 0 then lead else "") + parts[k] + (if k + 1 == |parts| then trail else "");
      IsStep(whole) <==> IsStep(parts[k]) && Untouched(t, path, parts, k)
  {
    var l, r := (if k == 0 then lead else ""), (if k + 1 == |parts| then trail else "");
    SpacedIsNoStep(t, l, parts[k], r);
    assert lead == "" <==> start == path;
    if start != "" {
      EndsAlike(t, path, lead, start);
    }
  }

  /** Written without spaces around them, two paths of one key climb together. */
  lemma OneKeyClimbsAlike(t: Text, a: string, b: string)
    requires Lawful(t) && Same(t, a, b) && Trim(t, a) == a && Trim(t, b) == b
    ensures Climbs(t, a) <==> Climbs(t, b)
  {
    KeyClimbs(t, a);
    KeyClimbs(t, b);
  }

  lemma KeyOpensAlike(t: Text, path: string)
    requires Lawful(t) && Key(t, path) != ""
    ensures IsWindows(t, path) <==> IsWindows(t, Key(t, path))
  {
    var s := Trim(t, path);
    KeyIs(t, path);
    KeyIsKeyed(t, path);
    OpensAllTheSame(t, Key(t, path));
    if Opens(s) {
      WindowsStanding(s);
      LoweredStands(t, Standing(s));
    } else {
      UnixStanding(s);
    }
  }

  /** Neither writing is refused where the other is not, for climbing or as another system's. */
  predicate Interchangeable(t: Text, a: string, b: string) {
    Climbs(t, a) == Climbs(t, b) && (!Climbs(t, a) ==> IsWindows(t, a) == IsWindows(t, b))
  }

  /** Exactly when two writings of one key lie in the same folders, and exactly when they hold the same paths. */
  lemma WithinByKey(t: Text, a: string, b: string)
    requires Same(t, a, b)
    ensures (forall f :: Within(t, a, f) <==> Within(t, b, f)) <==> Interchangeable(t, a, b)
    ensures (forall f :: Within(t, f, a) <==> Within(t, f, b)) <==> Interchangeable(t, a, b)
  {
    WithinItself(t, a);
    WithinItself(t, b);
  }

  /** Separators alone, from the two that open a share. */
  predicate NamelessShare(s: string) {
    Share(s) && forall i | 2 <= i < |s| :: s[i] == '/' || s[i] == '\\'
  }

  lemma {:induction false} UnclosedWhole(s: string, separator: char)
    requires forall i | 0 <= i < |s| :: s[i] == separator
    ensures Unclosed(s, separator) == ""
  {
    if s != "" {
      UnclosedWhole(s[..|s| - 1], separator);
    }
  }

  /** The empty key is of no path at all, and of a share that names nothing. */
  lemma EmptyKey(t: Text, path: string)
    requires Lawful(t)
    ensures Key(t, path) == "" <==> Trim(t, path) == "" || NamelessShare(Trim(t, path))
    ensures Key(t, path) == "" ==> (IsWindows(t, path) <==> Trim(t, path) != "")
  {
    var s := Trim(t, path);
    KeyIs(t, path);
    if Opens(s) {
      WindowsStanding(s);
      if NamelessShare(s) {
        UnclosedWhole(Backslashed(s), '\\');
      }
    } else if s != "" && Unclosed(s, '/') == "" {
      assert s[0] == '/';
    }
  }

  /** One key is of two systems only as the empty path and a share that names nothing. */
  predicate TwoSystems(t: Text, a: string, b: string) {
    (Trim(t, a) == "" && NamelessShare(Trim(t, b))) || (NamelessShare(Trim(t, a)) && Trim(t, b) == "")
  }

  lemma SystemsOfOneKey(t: Text, a: string, b: string)
    requires Lawful(t) && Same(t, a, b)
    ensures IsWindows(t, a) != IsWindows(t, b) <==> TwoSystems(t, a, b)
  {
    EmptyKey(t, a);
    EmptyKey(t, b);
    if Key(t, a) != "" {
      KeyOpensAlike(t, a);
      KeyOpensAlike(t, b);
    }
  }

  /** Of paths without spaces around them every writing of a key stands for another, those two apart. */
  lemma TrimmedByKey(t: Text, a: string, b: string)
    requires Lawful(t) && Same(t, a, b) && Trim(t, a) == a && Trim(t, b) == b
    ensures Interchangeable(t, a, b) <==> !TwoSystems(t, a, b)
  {
    OneKeyClimbsAlike(t, a, b);
    SystemsOfOneKey(t, a, b);
    EmptyKey(t, a);
    KeyClimbs(t, a);
    EmptyDoesNotClimb(t);
  }

  lemma EmptyDoesNotClimb(t: Text)
    ensures !Climbs(t, "")
  {
    assert Split("", Separators(t, "")) == [""];
  }

  /** Two backslashes and nothing at all: one key, and one holds itself while the other is not in it. */
  lemma TwoSystemsOfOneKey(t: Text)
    requires Lawful(t)
    ensures Trim(t, "\\\\") == "\\\\" && Trim(t, "") == "" && Same(t, "\\\\", "")
    ensures Within(t, "\\\\", "\\\\") && !Within(t, "", "\\\\")
  {
    assert Reserved('\\');
    TrimmedAlready(t, "\\\\");
    EmptyKey(t, "\\\\");
    EmptyKey(t, "");
    KeyClimbs(t, "\\\\");
    EmptyDoesNotClimb(t);
    WithinItself(t, "\\\\");
  }

  // ----- folders as lists of names

  datatype System = Unix | DriveLetter | NetworkShare

  function SystemOf(t: Text, path: string): System {
    var s := Trim(t, path);
    if Drive(s) then DriveLetter else if Share(s) then NetworkShare else Unix
  }

  /** The names a key goes through from its root. */
  function Names(system: System, key: string): seq<string>
    requires key != "" && (system.NetworkShare? ==> |key| > 2)
  {
    match system
    case Unix => if key == "/" then [] else Split(key[1..], {'/'})
    case DriveLetter => Split(Unclosed(key, '\\'), {'\\'})
    case NetworkShare => Split(key[2..], {'\\'})
  }

  predicate After(path: string, folder: string, separator: char) {
    path == folder || (folder <= path && |path| > |folder| && path[|folder|] == separator)
  }

  /** To go on past a separator is to start with the same names. */
  lemma {:induction false} AfterIsPrefix(path: string, folder: string, separator: char)
    ensures After(path, folder, separator) <==> Split(folder, {separator}) <= Split(path, {separator})
    decreases |folder|
  {
    var f, p := Split(folder, {separator}), Split(path, {separator});
    if folder == "" {
      assert path != "" && path[0] != separator ==> p[0] != "";
    } else if path == "" {
      assert folder[0] == separator ==> |f| > 1;
      assert folder[0] != separator ==> f[0] != "";
    } else {
      var g, q := Split(folder[1..], {separator}), Split(path[1..], {separator});
      OneMoreInFront(path, folder, separator);
      if (folder[0] == separator) != (path[0] == separator) {
        assert (f[0] == "") != (p[0] == "");
      } else if folder[0] == separator {
        AfterIsPrefix(path[1..], folder[1..], separator);
        PrefixOfOneMore("", g, "", q);
      } else {
        AfterIsPrefix(path[1..], folder[1..], separator);
        PrefixOfOneMore([folder[0]] + g[0], g[1..], [path[0]] + q[0], q[1..]);
        PrefixOfOneMore(g[0], g[1..], q[0], q[1..]);
        assert g == [g[0]] + g[1..] && q == [q[0]] + q[1..];
        OneLetterMore(folder[0], g[0], path[0], q[0]);
      }
    }
  }

  lemma OneLetterMore(a: char, s: string, b: char, r: string)
    ensures [a] + s == [b] + r <==> (a == b && s == r)
  {
    assert ([a] + s)[0] == a && ([b] + r)[0] == b;
    assert ([a] + s)[1..] == s && ([b] + r)[1..] == r;
  }

  lemma PrefixOfOneMore(a: string, s: seq<string>, b: string, r: seq<string>)
    ensures [a] + s <= [b] + r <==> (a == b && s <= r)
  {
    assert ([a] + s)[0] == a && ([b] + r)[0] == b;
    assert ([a] + s)[1..] == s && ([b] + r)[1..] == r;
    if a == b && s <= r {
      assert r == s + r[|s|..];
      assert [b] + r == ([a] + s) + r[|s|..];
    }
    if [a] + s <= [b] + r {
      assert ([b] + r)[..|s| + 1] == [a] + s;
      assert r[..|s|] == s;
    }
  }

  lemma OneMoreInFront(path: string, folder: string, separator: char)
    requires path != "" && folder != ""
    ensures After(path, folder, separator) <==> (path[0] == folder[0] && After(path[1..], folder[1..], separator))
  {
    assert path == [path[0]] + path[1..] && folder == [folder[0]] + folder[1..];
    assert folder <= path <==> (path[0] == folder[0] && folder[1..] <= path[1..]);
  }

  /** What the key of an absolute path looks like. */
  ghost predicate Absolute(system: System, k: string) {
    match system
    case Unix => k != "" && k[0] == '/' && (k == "/" || k[|k| - 1] != '/')
    case DriveLetter => |k| > 2 && Drive(k) && k[2] == '\\' && (|k| == 3 || k[|k| - 1] != '\\')
    case NetworkShare => |k| > 2 && Share(k) && k[|k| - 1] != '\\'
  }

  lemma {:induction false} SeparatorsAlone(s: string)
    requires forall i | 0 <= i < |s| :: s[i] == '/' || s[i] == '\\'
    ensures Named(Split(s, {'\\', '/'})) == []
  {
    if s != "" {
      SeparatorsAlone(s[1..]);
      var more := Split(s[1..], {'\\', '/'});
      assert Split(s, {'\\', '/'}) == [""] + more;
      assert ([""] + more)[1..] == more;
    }
  }

  lemma AbsoluteStanding(s: string)
    requires if Share(s) then exists i :: 2 <= i < |s| && s[i] != '/' && s[i] != '\\'
      else if Drive(s) then |s| > 2 && (s[2] == '\\' || s[2] == '/') else s != "" && s[0] == '/'
    ensures Absolute(if Drive(s) then DriveLetter else if Share(s) then NetworkShare else Unix, Standing(s))
  {
    if Opens(s) {
      WindowsStanding(s);
    } else {
      UnixStanding(s);
      var r := Standing(s);
      assert r != "";
      assert r[0] == s[0];
    }
  }

  lemma LoweredAbsolute(t: Text, system: System, r: string)
    requires Lawful(t) && Absolute(system, r)
    ensures Absolute(system, LowerIfOpen(t, r)) && LowerIfOpen(t, r)[0] == t.lower(r[0])
  {
    var k := LowerIfOpen(t, r);
    assert Reserved('\\') && Reserved(':') && Reserved('/');
    assert t.lower(r[0]) == k[0];
    var last := r[|r| - 1];
    assert t.lower(last) == '\\' ==> last == '\\';
  }

  lemma AbsoluteKey(t: Text, path: string)
    requires Lawful(t) && IsAbsolute(t, path)
    ensures Absolute(SystemOf(t, path), Key(t, path))
  {
    var s := Trim(t, path);
    if Share(s) {
      if forall i | 0 <= i < |s[2..]| :: s[2..][i] == '/' || s[2..][i] == '\\' {
        SeparatorsAlone(s[2..]);
      } else {
        var i :| 0 <= i < |s[2..]| && s[2..][i] != '/' && s[2..][i] != '\\';
        assert s[i + 2] == s[2..][i];
      }
    }
    AbsoluteStanding(s);
    KeyIs(t, path);
    LoweredAbsolute(t, SystemOf(t, path), Standing(s));
  }

  predicate Slash(c: char) {
    c == '/' || c == '\\'
  }

  /** A slash at `j`, and a character of a name after it at `k`. */
  predicate NameAfter(s: string, j: nat, k: nat) {
    j < k < |s| && Slash(s[j]) && !Slash(s[k])
  }

  predicate NameBefore(s: string, i: nat, j: nat, k: nat) {
    i < j && NameAfter(s, j, k) && !Slash(s[i])
  }

  lemma {:induction false} SomeName(s: string)
    ensures Named(Split(s, {'\\', '/'})) != [] <==> exists k | 0 <= k < |s| :: !Slash(s[k])
  {
    if s != "" {
      SomeName(s[1..]);
      NamedFirst(s);
      if k :| 0 <= k < |s| && !Slash(s[k]) {
        assert k > 0 ==> !Slash(s[1..][k - 1]);
      }
    }
  }

  lemma NamedFirst(s: string)
    requires s != ""
    ensures var parts, more := Split(s, {'\\', '/'}), Split(s[1..], {'\\', '/'});
      if Slash(s[0]) then parts[1..] == more && Named(parts) == Named(more)
      else parts[1..] == more[1..] && |Named(parts)| == 1 + |Named(more[1..])|
  {
    var parts, more := Split(s, {'\\', '/'}), Split(s[1..], {'\\', '/'});
    if Slash(s[0]) {
      assert parts == [""] + more;
    } else {
      assert parts == [[s[0]] + more[0]] + more[1..];
    }
  }

  lemma {:induction false} SomeNameAfter(s: string)
    ensures Named(Split(s, {'\\', '/'})[1..]) != [] <==> exists j: nat, k: nat :: NameAfter(s, j, k)
  {
    if s != "" {
      NamedFirst(s);
      if Slash(s[0]) {
        SomeName(s[1..]);
        if k :| 0 <= k < |s[1..]| && !Slash(s[1..][k]) {
          assert NameAfter(s, 0, k + 1);
        }
        if j: nat, k: nat :| NameAfter(s, j, k) {
          assert !Slash(s[1..][k - 1]);
        }
      } else {
        SomeNameAfter(s[1..]);
        if j: nat, k: nat :| NameAfter(s[1..], j, k) {
          assert NameAfter(s, j + 1, k + 1);
        }
        if j: nat, k: nat :| NameAfter(s, j, k) {
          assert NameAfter(s[1..], j - 1, k - 1);
        }
      }
    }
  }

  /** Two names are two characters of none with a slash in between. */
  lemma {:induction false} TwoNames(s: string)
    ensures |Named(Split(s, {'\\', '/'}))| >= 2 <==> exists i: nat, j: nat, k: nat :: NameBefore(s, i, j, k)
  {
    if s != "" {
      NamedFirst(s);
      if Slash(s[0]) {
        TwoNames(s[1..]);
        if i: nat, j: nat, k: nat :| NameBefore(s[1..], i, j, k) {
          assert NameBefore(s, i + 1, j + 1, k + 1);
        }
        if i: nat, j: nat, k: nat :| NameBefore(s, i, j, k) {
          assert NameBefore(s[1..], i - 1, j - 1, k - 1);
        }
      } else {
        SomeNameAfter(s[1..]);
        if j: nat, k: nat :| NameAfter(s[1..], j, k) {
          assert NameBefore(s, 0, j + 1, k + 1);
        }
        if i: nat, j: nat, k: nat :| NameBefore(s, i, j, k) {
          assert NameAfter(s[1..], j - 1, k - 1);
        }
      }
    }
  }

  /** A letter and a colon, and a separator after them: a drive, and its root. */
  lemma DriveIs(s: string)
    ensures Drive(s) <==>
      |s| >= 2 && s[1] == ':' && (65 <= s[0] as int <= 90 || 97 <= s[0] as int <= 122)
  {
  }

  lemma RelativeStands(s: string)
    requires !Share(s) && if Drive(s) then |s| > 2 && !Slash(s[2]) else s == "" || s[0] != '/'
    ensures !Absolute(if Drive(s) then DriveLetter else Unix, Standing(s)) && (Drive(s) ==> Drive(Standing(s)))
    ensures !Drive(s) ==> !Opens(Standing(s))
  {
    if Drive(s) {
      var b := Backslashed(s);
      UnclosedStarts(b, '\\');
      assert b[2] != '\\';
      assert |Unclosed(b, '\\')| > 2;
      assert Standing(s)[..3] == b[..3];
      assert Standing(s)[2] == b[2];
    } else {
      UnixStanding(s);
    }
  }

  lemma RelativeKey(t: Text, system: System, r: string)
    requires Lawful(t) && !system.NetworkShare? && !Absolute(system, r)
    requires if system.DriveLetter? then Drive(r) else !Opens(r)
    ensures !Absolute(system, LowerIfOpen(t, r))
  {
    if system.DriveLetter? && |r| > 2 {
      var k := LowerIfOpen(t, r);
      assert Reserved(k[2]) ==> k[2] == r[2];
      assert Reserved('\\');
      assert t.lower(r[|r| - 1]) == k[|r| - 1];
    }
  }

  /**
   * A path is absolute exactly when its key is, save a drive alone, whose key has its root, and a share
   * without a name on its server.
   */
  lemma AbsoluteExactly(t: Text, path: string)
    requires Lawful(t)
    ensures var s := Trim(t, path);
      IsAbsolute(t, path) <==> (Absolute(SystemOf(t, path), Key(t, path)) && (Drive(s) ==> |s| > 2) &&
        (Share(s) ==> exists i: nat, j: nat, k: nat :: NameBefore(s[2..], i, j, k)))
  {
    var s := Trim(t, path);
    if IsAbsolute(t, path) {
      AbsoluteKey(t, path);
    }
    if Share(s) {
      TwoNames(s[2..]);
      if i: nat, j: nat, k: nat :| NameBefore(s[2..], i, j, k) {
        assert s[2 + k] == s[2..][k];
        AbsoluteStanding(s);
      }
    } else if !IsAbsolute(t, path) && (Drive(s) ==> |s| > 2) {
      KeyIs(t, path);
      RelativeStands(s);
      RelativeKey(t, SystemOf(t, path), Standing(s));
    }
  }

  lemma UnixNames(p: string, f: string)
    requires Absolute(Unix, p) && Absolute(Unix, f)
    ensures Under(p, f, '/') <==> Names(Unix, f) <= Names(Unix, p)
  {
    if f != "/" && p != "/" {
      AfterIsPrefix(p[1..], f[1..], '/');
      OneMoreInFront(p, f, '/');
    }
  }

  lemma ShareNames(p: string, f: string)
    requires Absolute(NetworkShare, p) && Absolute(NetworkShare, f)
    ensures Under(p, f, '\\') <==> Names(NetworkShare, f) <= Names(NetworkShare, p)
  {
    AfterIsPrefix(p[2..], f[2..], '\\');
    OneMoreInFront(p, f, '\\');
    OneMoreInFront(p[1..], f[1..], '\\');
    assert p[1..][1..] == p[2..] && f[1..][1..] == f[2..];
  }

  lemma DriveNames(p: string, f: string)
    requires Absolute(DriveLetter, p) && Absolute(DriveLetter, f)
    ensures Under(p, f, '\\') <==> Names(DriveLetter, f) <= Names(DriveLetter, p)
  {
    var q, g := Unclosed(p, '\\'), Unclosed(f, '\\');
    DriveUnclosed(p);
    DriveUnclosed(f);
    AfterIsPrefix(q, g, '\\');
    if |f| == 3 {
      assert Under(p, f, '\\') <==> p[0] == f[0] by {
        if p[0] == f[0] {
          assert p[..3] == f;
        }
      }
      assert After(q, g, '\\') <==> p[0] == f[0] by {
        if p[0] == f[0] {
          assert q[..2] == g;
        }
      }
    }
  }

  lemma DriveUnclosed(k: string)
    requires Absolute(DriveLetter, k)
    ensures Unclosed(k, '\\') == if |k| == 3 then k[..2] else k
  {
    if |k| == 3 {
      assert k[..2][1] != '\\';
    }
  }

  function SeparatorIn(system: System): char {
    if system.Unix? then '/' else '\\'
  }

  lemma UnderIsFirstNames(sp: System, p: string, sf: System, f: string)
    requires Absolute(sp, p) && Absolute(sf, f) && (sp.Unix? <==> sf.Unix?)
    ensures Under(p, f, SeparatorIn(sf)) <==> (sp == sf && Names(sf, f) <= Names(sp, p))
  {
    if sp == sf {
      match sf
      case Unix => UnixNames(p, f);
      case DriveLetter => DriveNames(p, f);
      case NetworkShare => ShareNames(p, f);
    } else {
      assert p[0] != f[0];
    }
  }

  lemma SeparatorOfKey(t: Text, path: string)
    requires Lawful(t) && IsAbsolute(t, path)
    ensures Separator(t, Key(t, path)) == SeparatorIn(SystemOf(t, path))
  {
    AbsoluteKey(t, path);
    KeyIsKeyed(t, path);
    OpensAllTheSame(t, Key(t, path));
  }

  ghost predicate FirstNames(sp: System, p: string, sf: System, f: string)
    requires Absolute(sp, p) && Absolute(sf, f)
  {
    sp == sf && Names(sf, f) <= Names(sp, p)
  }

  lemma UnderAsKeys(t: Text, path: string, folder: string)
    requires Lawful(t) && IsAbsolute(t, path) && IsAbsolute(t, folder)
    requires IsWindows(t, path) == IsWindows(t, folder)
    ensures Absolute(SystemOf(t, path), Key(t, path)) && Absolute(SystemOf(t, folder), Key(t, folder))
    ensures Under(Key(t, path), Key(t, folder), Separator(t, Key(t, folder))) <==>
      FirstNames(SystemOf(t, path), Key(t, path), SystemOf(t, folder), Key(t, folder))
  {
    AbsoluteKey(t, path);
    AbsoluteKey(t, folder);
    SeparatorOfKey(t, folder);
    UnderIsFirstNames(SystemOf(t, path), Key(t, path), SystemOf(t, folder), Key(t, folder));
  }

  /**
   * Of absolute paths that do not climb, one is within another exactly when both are of one system
   * and the names of the folder are the first names of the path.
   */
  lemma WithinIsFirstNames(t: Text, path: string, folder: string)
    requires Lawful(t) && IsAbsolute(t, path) && IsAbsolute(t, folder) && !Climbs(t, path) && !Climbs(t, folder)
    ensures Absolute(SystemOf(t, path), Key(t, path)) && Absolute(SystemOf(t, folder), Key(t, folder))
    ensures Within(t, path, folder) <==>
      FirstNames(SystemOf(t, path), Key(t, path), SystemOf(t, folder), Key(t, folder))
  {
    if IsWindows(t, path) == IsWindows(t, folder) {
      UnderAsKeys(t, path, folder);
    } else {
      AbsoluteKey(t, path);
      AbsoluteKey(t, folder);
      assert SystemOf(t, path) != SystemOf(t, folder);
    }
  }

  // ----- the collation

  datatype Ordering = Less | Equal | Greater

  /** Strings compared character by character, the shorter of two alike first. */
  function Compare(a: string, b: string): Ordering {
    if a == "" then if b == "" then Equal else Less
    else if b == "" then Greater
    else if a[0] < b[0] then Less
    else if a[0] > b[0] then Greater
    else Compare(a[1..], b[1..])
  }

  function Collate(t: Text, a: string, b: string): Ordering {
    Compare(Key(t, a), Key(t, b))
  }

  lemma {:induction false} EqualIsAlike(a: string, b: string)
    ensures Compare(a, b).Equal? <==> a == b
    ensures Compare(a, b).Less? <==> Compare(b, a).Greater?
  {
    if a != "" && b != "" && a[0] == b[0] {
      EqualIsAlike(a[1..], b[1..]);
      assert a == [a[0]] + a[1..] && b == [b[0]] + b[1..];
    }
  }

  lemma {:induction false} NotGreaterPasses(a: string, b: string, c: string)
    requires !Compare(a, b).Greater? && !Compare(b, c).Greater?
    ensures !Compare(a, c).Greater?
  {
    if a != "" && b != "" && c != "" && a[0] == b[0] == c[0] {
      NotGreaterPasses(a[1..], b[1..], c[1..]);
    }
  }

  /** The collation sorts every list of paths, and ties exactly those that name one folder. */
  lemma CollateSorts(t: Text, a: string, b: string, c: string)
    ensures Collate(t, a, b).Equal? <==> Same(t, a, b)
    ensures Collate(t, a, b).Less? <==> Collate(t, b, a).Greater?
    ensures !Collate(t, a, b).Greater? && !Collate(t, b, c).Greater? ==> !Collate(t, a, c).Greater?
  {
    EqualIsAlike(Key(t, a), Key(t, b));
    if !Collate(t, a, b).Greater? && !Collate(t, b, c).Greater? {
      NotGreaterPasses(Key(t, a), Key(t, b), Key(t, c));
    }
  }
}
