/** Migration files: the versions their names give, and when the order of paths is the order of versions. */
module MigrationFiles {
  import opened Wrappers
  import opened Strings

  // ----- Versions

  datatype Version = Version(major: nat, minor: nat, patch: nat)

  predicate Less(a: Version, b: Version)
  {
    a.major < b.major || (a.major == b.major && (a.minor < b.minor || (a.minor == b.minor && a.patch < b.patch)))
  }

  predicate AtMost(a: Version, b: Version) { !Less(b, a) }

  /** What an empty recorded version is read as. */
  const EMPTY := Version(0, 0, 0)
  const MINIMUM := Version(0, 22, 0)

  /** A number as versions write it: without leading zeros. */
  predicate Canonical(s: string) { AllDigits(s) && (|s| == 1 || s[0] != '0') }

  /** The number pair of a directory name; other names are no versions. */
  function ParseMinor(name: string): Option<(nat, nat)>
  {
    var parts := Split(name, '.');
    if |parts| == 2 && Canonical(parts[0]) && Canonical(parts[1]) then
      DigitsHaveValue(parts[0]);
      DigitsHaveValue(parts[1]);
      Some((DigitsValue(parts[0]).value, DigitsValue(parts[1]).value))
    else None
  }

  function BeforeMark(s: string): string
  {
    if s == "" || "__" <= s then "" else [s[0]] + BeforeMark(s[1..])
  }

  datatype Error = BadPath | BadPatch | Downgrade | TooOld

  /** The version a migration file leads to; no version compares below every version. */
  function ScriptVersion(path: string): Result<Option<Version>, Error>
  {
    var elements := Split(path, '/');
    if |elements| < 2 then Err(BadPath)
    else
      match Atoi(BeforeMark(elements[|elements| - 1]))
      case None => Err(BadPatch)
      case Some(patch) =>
        match ParseMinor(elements[|elements| - 2])
        case Some((major, minor)) => Ok(if patch + 1 >= 0 then Some(Version(major, minor, patch + 1)) else None)
        case None => Ok(None)
  }

  // ----- File names

  /** `base/major.minor/prefix__rest` */
  datatype FileName = FileName(base: string, major: string, minor: string, prefix: string, rest: string)

  function MinorName(f: FileName): string { f.major + "." + f.minor }

  function Path(f: FileName): string { f.base + "/" + (MinorName(f) + "/" + (f.prefix + "__" + f.rest)) }

  ghost predicate WellNamed(f: FileName)
  {
    && Canonical(f.major) && Canonical(f.minor) && '/' !in f.rest
    && AllDigits(f.prefix) && DigitsValue(f.prefix).Some? && DigitsValue(f.prefix).value <= MAX_INT
  }

  ghost function VersionOf(f: FileName): Version
    requires WellNamed(f)
  {
    DigitsHaveValue(f.major);
    DigitsHaveValue(f.minor);
    Version(DigitsValue(f.major).value, DigitsValue(f.minor).value, DigitsValue(f.prefix).value + 1)
  }

  lemma {:induction false} MarkAfterDigits(p: string, rest: string)
    requires forall k :: 0 <= k < |p| ==> IsDigit(p[k])
    ensures BeforeMark(p + "__" + rest) == p
  {
    var s := p + "__" + rest;
    if p == "" {
      assert s[..2] == "__";
    } else {
      assert s[0] == p[0] && !("__" <= s);
      assert s[1..] == p[1..] + "__" + rest;
      MarkAfterDigits(p[1..], rest);
    }
  }

  lemma NoCharInDigits(s: string, c: char)
    requires (forall k :: 0 <= k < |s| ==> IsDigit(s[k])) && !IsDigit(c)
    ensures c !in s
  {
  }

  lemma ParsesMinor(f: FileName)
    requires WellNamed(f)
    ensures ParseMinor(MinorName(f)) == Some((VersionOf(f).major, VersionOf(f).minor))
    ensures '/' !in MinorName(f)
  {
    NoCharInDigits(f.major, '.');
    NoCharInDigits(f.minor, '.');
    assert f.major + ['.'] + f.minor == MinorName(f);
    SplitFirst(f.major, f.minor, '.');
    SplitOne(f.minor, '.');
    NoCharInDigits(f.major, '/');
    NoCharInDigits(f.minor, '/');
  }

  lemma AtoiOfDigits(s: string)
    requires AllDigits(s) && DigitsValue(s).Some? && DigitsValue(s).value <= MAX_INT
    ensures Atoi(s) == Some(DigitsValue(s).value)
  {
    assert IsDigit(s[0]);
  }

  /** A well-named file leads to the version its name says: its patch number plus one. */
  lemma PathGivesVersion(f: FileName)
    requires WellNamed(f)
    ensures ScriptVersion(Path(f)) == Ok(Some(VersionOf(f)))
  {
    hide Canonical, ParseMinor, DigitsValue;
    var file := f.prefix + "__" + f.rest;
    ParsesMinor(f);
    NoCharInDigits(f.prefix, '/');
    assert '/' !in file;
    SplitAround(f.base, MinorName(f) + "/" + file, '/');
    SplitFirst(MinorName(f), file, '/');
    SplitOne(file, '/');
    assert MinorName(f) + ['/'] + file == MinorName(f) + "/" + file;
    assert f.base + ['/'] + (MinorName(f) + "/" + file) == Path(f);
    MarkAfterDigits(f.prefix, f.rest);
    AtoiOfDigits(f.prefix);
    var elements := Split(Path(f), '/');
    assert elements[|elements| - 1] == file && elements[|elements| - 2] == MinorName(f);
  }

  // ----- The order of files

  predicate SameWidths(a: FileName, b: FileName)
  {
    a.base == b.base && |a.major| == |b.major| && |a.minor| == |b.minor| && |a.prefix| == |b.prefix|
  }

  lemma PiecesDecide(x: string, y: string, sep: string, a: string, b: string)
    requires |x| == |y|
    ensures TextLess(x + sep + a, y + sep + b) <==> TextLess(x, y) || (x == y && TextLess(a, b))
  {
    assert x + sep + a == x + (sep + a) && y + sep + b == y + (sep + b);
    TextLessByPieces(x, y, sep + a, sep + b);
    TextLessByPieces(sep, sep, a, b);
    NotBelowItself(sep);
  }

  lemma {:induction false} NotBelowItself(s: string)
    ensures !TextLess(s, s)
  {
    if s != "" { NotBelowItself(s[1..]); }
  }

  /** With names of equal width, the order of paths is the order of versions, and then of the rest of
      the names. */
  lemma PathOrderIsVersionOrder(a: FileName, b: FileName)
    requires WellNamed(a) && WellNamed(b) && SameWidths(a, b)
    ensures TextLess(Path(a), Path(b)) <==>
            Less(VersionOf(a), VersionOf(b)) || (VersionOf(a) == VersionOf(b) && TextLess(a.rest, b.rest))
  {
    hide TextLess, DigitsValue, AllDigits;
    var fileA, fileB := a.prefix + "__" + a.rest, b.prefix + "__" + b.rest;
    var dirA, dirB := MinorName(a) + "/" + fileA, MinorName(b) + "/" + fileB;
    PiecesDecide(a.base, b.base, "/", dirA, dirB);
    NotBelowItself(a.base);
    PiecesDecide(MinorName(a), MinorName(b), "/", fileA, fileB);
    PiecesDecide(a.major, b.major, ".", a.minor, b.minor);
    PiecesDecide(a.prefix, b.prefix, "__", a.rest, b.rest);
    EqualWidthOrder(a.major, b.major);
    EqualWidthOrder(a.minor, b.minor);
    EqualWidthOrder(a.prefix, b.prefix);
    MinorNamesDiffer(a, b);
    assert a.base + "/" + dirA == Path(a) && b.base + "/" + dirB == Path(b);
  }

  lemma MinorNamesDiffer(a: FileName, b: FileName)
    requires |a.major| == |b.major|
    ensures MinorName(a) == MinorName(b) <==> a.major == b.major && a.minor == b.minor
  {
    assert MinorName(a)[..|a.major|] == a.major && MinorName(b)[..|b.major|] == b.major;
    assert MinorName(a)[|a.major| + 1..] == a.minor && MinorName(b)[|b.major| + 1..] == b.minor;
  }

  // ----- The order of files, exactly

  function Value(s: string): nat
    requires AllDigits(s)
  {
    DigitsHaveValue(s);
    DigitsValue(s).value
  }

  /** The number of the first `n` digits of `s`. */
  function Lead(s: string, n: nat): nat
    requires AllDigits(s) && 0 < n <= |s|
  {
    Value(s[..n])
  }

  /** Whether the text of `x` comes first, when a character below the digits follows both. */
  predicate NameFirst(x: string, y: string)
    requires AllDigits(x) && AllDigits(y)
  {
    if |x| == |y| then Value(x) < Value(y)
    else if |x| < |y| then Value(x) <= Lead(y, |x|)
    else Lead(x, |y|) < Value(y)
  }

  /** The same when a character above the digits follows both. */
  predicate PrefixFirst(x: string, y: string)
    requires AllDigits(x) && AllDigits(y)
  {
    if |x| == |y| then Value(x) < Value(y)
    else if |x| < |y| then Value(x) < Lead(y, |x|)
    else Lead(x, |y|) <= Value(y)
  }

  lemma EqualTexts(x: string, y: string)
    requires AllDigits(x) && AllDigits(y) && |x| == |y|
    ensures TextLess(x, y) <==> Value(x) < Value(y)
    ensures x == y <==> Value(x) == Value(y)
  {
    EqualWidthOrder(x, y);
  }

  /** A shorter run of digits against a longer one: the digits both have decide first, and then the
      character that ends the shorter one. */
  lemma ShorterAndLonger(x: string, y: string, c: char, a: string, b: string)
    requires AllDigits(x) && AllDigits(y) && |x| < |y| && !IsDigit(c)
    ensures var p, q := x + ([c] + a), y + ([c] + b);
            && (TextLess(p, q) <==> Value(x) < Lead(y, |x|) || (Value(x) == Lead(y, |x|) && c < '0'))
            && (TextLess(q, p) <==> Lead(y, |x|) < Value(x) || (Value(x) == Lead(y, |x|) && c > '9'))
  {
    var n := |x|;
    var y1, y2 := y[..n], y[n..];
    var r, t := [c] + a, y2 + ([c] + b);
    assert y + ([c] + b) == y1 + t;
    assert IsDigit(y[n]) && t[0] == y[n] && r[0] == c;
    EqualTexts(x, y1);
    EqualTexts(y1, x);
    TextLessByPieces(x, y1, r, t);
    TextLessByPieces(y1, x, t, r);
  }

  lemma NamesDecide(x: string, y: string, sep: string, a: string, b: string)
    requires AllDigits(x) && AllDigits(y) && x != y && (sep == "." || sep == "/")
    ensures TextLess(x + sep + a, y + sep + b) <==> NameFirst(x, y)
  {
    hide TextLess, Lead, Value;
    assert x + sep + a == x + ([sep[0]] + a) && y + sep + b == y + ([sep[0]] + b);
    if |x| == |y| {
      PiecesDecide(x, y, sep, a, b);
      EqualTexts(x, y);
    } else if |x| < |y| {
      ShorterAndLonger(x, y, sep[0], a, b);
    } else {
      ShorterAndLonger(y, x, sep[0], b, a);
    }
  }

  lemma PrefixesDecide(x: string, y: string, a: string, b: string)
    requires AllDigits(x) && AllDigits(y) && x != y
    ensures TextLess(x + "__" + a, y + "__" + b) <==> PrefixFirst(x, y)
  {
    hide TextLess, Lead, Value;
    assert x + "__" + a == x + (['_'] + ("_" + a)) && y + "__" + b == y + (['_'] + ("_" + b));
    if |x| == |y| {
      PiecesDecide(x, y, "__", a, b);
      EqualTexts(x, y);
    } else if |x| < |y| {
      ShorterAndLonger(x, y, '_', "_" + a, "_" + b);
    } else {
      ShorterAndLonger(y, x, '_', "_" + b, "_" + a);
    }
  }

  function Power10(n: nat): nat { if n == 0 then 1 else 10 * Power10(n - 1) }

  lemma {:induction false} ValueBelow(s: string)
    requires AllDigits(s)
    ensures Value(s) < Power10(|s|)
  {
    if |s| > 1 {
      DigitsHaveValue(s[..|s| - 1]);
      ValueBelow(s[..|s| - 1]);
    }
  }

  lemma {:induction false} ValueFrom(s: string)
    requires AllDigits(s) && s[0] != '0'
    ensures Value(s) >= Power10(|s| - 1)
  {
    if |s| > 1 {
      DigitsHaveValue(s[..|s| - 1]);
      ValueFrom(s[..|s| - 1]);
    }
  }

  lemma {:induction false} PowersGrow(m: nat, n: nat)
    requires m <= n
    ensures Power10(m) <= Power10(n)
  {
    if m < n { PowersGrow(m, n - 1); }
  }

  /** Without leading zeros, the shorter of two numbers is the smaller one. */
  lemma ShorterIsSmaller(x: string, y: string)
    requires Canonical(x) && Canonical(y) && |x| < |y|
    ensures Value(x) < Value(y)
  {
    ValueBelow(x);
    ValueFrom(y);
    PowersGrow(|x|, |y| - 1);
  }

  lemma {:induction false} LeadBelow(s: string, n: nat)
    requires AllDigits(s) && 0 < n <= |s|
    ensures Lead(s, n) <= Value(s)
  {
    if n < |s| {
      var t := s[..|s| - 1];
      DigitsHaveValue(t);
      assert t[..n] == s[..n];
      LeadBelow(t, n);
    } else {
      assert s[..n] == s;
    }
  }

  /** For two numbers without leading zeros: the longer does not start with a smaller one. */
  predicate NamesAgree(x: string, y: string)
    requires AllDigits(x) && AllDigits(y)
  {
    && (|x| < |y| ==> Value(x) <= Lead(y, |x|))
    && (|y| < |x| ==> Value(y) <= Lead(x, |y|))
  }

  /** For two prefixes: the longer starts with a greater number, or is itself no greater. */
  predicate PrefixesAgree(x: string, y: string)
    requires AllDigits(x) && AllDigits(y)
  {
    && (|x| < |y| ==> Value(x) < Lead(y, |x|) || Value(y) <= Value(x))
    && (|y| < |x| ==> Value(y) < Lead(x, |y|) || Value(x) <= Value(y))
  }

  /** The names of two files agree in the first part in which they differ. */
  ghost predicate FilesAgree(a: FileName, b: FileName)
    requires WellNamed(a) && WellNamed(b)
  {
    if a.major != b.major then NamesAgree(a.major, b.major)
    else if a.minor != b.minor then NamesAgree(a.minor, b.minor)
    else PrefixesAgree(a.prefix, b.prefix)
  }

  /** Where the versions of two files differ, their paths are in the same order. */
  ghost predicate OrderedAsVersions(a: FileName, b: FileName)
    requires WellNamed(a) && WellNamed(b)
  {
    && (Less(VersionOf(a), VersionOf(b)) ==> TextLess(Path(a), Path(b)))
    && (Less(VersionOf(b), VersionOf(a)) ==> TextLess(Path(b), Path(a)))
  }

  lemma CanonicalDiffer(x: string, y: string)
    requires Canonical(x) && Canonical(y)
    ensures x == y <==> Value(x) == Value(y)
    ensures x != y ==> (Value(x) < Value(y) ==> NameFirst(x, y)) && (Value(y) < Value(x) ==> NameFirst(y, x)) <==>
              NamesAgree(x, y)
  {
    hide Value, Lead;
    if |x| < |y| {
      ShorterIsSmaller(x, y);
    } else if |y| < |x| {
      ShorterIsSmaller(y, x);
    } else {
      EqualTexts(x, y);
    }
  }

  lemma PrefixesDiffer(x: string, y: string)
    requires AllDigits(x) && AllDigits(y) && x != y
    ensures (Value(x) < Value(y) ==> PrefixFirst(x, y)) && (Value(y) < Value(x) ==> PrefixFirst(y, x)) <==>
              PrefixesAgree(x, y)
  {
    hide Value, Lead;
    if |x| < |y| { LeadBelow(y, |x|); }
    if |y| < |x| { LeadBelow(x, |y|); }
  }

  /** The order of two paths, part by part. */
  lemma PathOrder(a: FileName, b: FileName)
    requires WellNamed(a) && WellNamed(b) && a.base == b.base
    ensures a.major != b.major ==> (TextLess(Path(a), Path(b)) <==> NameFirst(a.major, b.major))
    ensures a.major == b.major && a.minor != b.minor ==> (TextLess(Path(a), Path(b)) <==> NameFirst(a.minor, b.minor))
    ensures a.major == b.major && a.minor == b.minor && a.prefix != b.prefix ==>
              (TextLess(Path(a), Path(b)) <==> PrefixFirst(a.prefix, b.prefix))
  {
    hide TextLess, NameFirst, PrefixFirst;
    var fileA, fileB := a.prefix + "__" + a.rest, b.prefix + "__" + b.rest;
    var dirA, dirB := MinorName(a) + "/" + fileA, MinorName(b) + "/" + fileB;
    PiecesDecide(a.base, b.base, "/", dirA, dirB);
    NotBelowItself(a.base);
    assert a.base + "/" + dirA == Path(a) && b.base + "/" + dirB == Path(b);
    if a.major != b.major {
      assert dirA == a.major + "." + (a.minor + "/" + fileA) && dirB == b.major + "." + (b.minor + "/" + fileB);
      NamesDecide(a.major, b.major, ".", a.minor + "/" + fileA, b.minor + "/" + fileB);
    } else if a.minor != b.minor {
      assert dirA == a.major + "." + (a.minor + "/" + fileA) && dirB == b.major + "." + (b.minor + "/" + fileB);
      PiecesDecide(a.major, b.major, ".", a.minor + "/" + fileA, b.minor + "/" + fileB);
      NotBelowItself(a.major);
      NamesDecide(a.minor, b.minor, "/", fileA, fileB);
    } else if a.prefix != b.prefix {
      PiecesDecide(MinorName(a), MinorName(b), "/", fileA, fileB);
      NotBelowItself(MinorName(a));
      PrefixesDecide(a.prefix, b.prefix, a.rest, b.rest);
    }
  }

  /** Two files are in version order if and only if their names agree in the first part in which they
      differ. */
  lemma PathOrderExactly(a: FileName, b: FileName)
    requires WellNamed(a) && WellNamed(b) && a.base == b.base
    ensures OrderedAsVersions(a, b) <==> FilesAgree(a, b)
  {
    hide TextLess, NameFirst, PrefixFirst, NamesAgree, PrefixesAgree, Path;
    PathOrder(a, b);
    PathOrder(b, a);
    CanonicalDiffer(a.major, b.major);
    CanonicalDiffer(a.minor, b.minor);
    if a.prefix != b.prefix { PrefixesDiffer(a.prefix, b.prefix); } else { SamePrefix(a.prefix); }
  }

  lemma SamePrefix(x: string)
    requires AllDigits(x)
    ensures PrefixesAgree(x, x)
  {
  }

  lemma SomeNumbers()
    ensures DigitsValue("0") == Some(0) && DigitsValue("2") == Some(2) && DigitsValue("00") == Some(0)
            && DigitsValue("10") == Some(10)
  {
    assert "00"[..1] == "0" && "10"[..1] == "1";
    assert DigitsValue("1") == Some(1);
  }

  lemma FirstCharsDecide(p: string, a: string, b: string)
    requires a != "" && b != "" && a[0] < b[0]
    ensures TextLess(p + a, p + b)
  {
    TextLessByPieces(p, p, a, b);
  }

  /** With names of different width it is not: files of 0.10 come before those of 0.2. */
  lemma TenComesBeforeTwo(rest: string)
    requires '/' !in rest
    ensures var a, b := FileName("migration/sqlite", "0", "10", "00", rest),
            FileName("migration/sqlite", "0", "2", "00", rest);
            WellNamed(a) && WellNamed(b) && TextLess(Path(a), Path(b)) && Less(VersionOf(b), VersionOf(a))
  {
    hide TextLess, DigitsValue;
    SomeNumbers();
    var a, b := FileName("migration/sqlite", "0", "10", "00", rest), FileName("migration/sqlite", "0", "2", "00", rest);
    FirstCharsDecide("migration/sqlite/0.", "10/00__" + rest, "2/00__" + rest);
    assert Path(a) == "migration/sqlite/0." + ("10/00__" + rest);
    assert Path(b) == "migration/sqlite/0." + ("2/00__" + rest);
  }

  /** The first file of 0.22 leads to 0.22.1, which comes after 0.9.30 and 0.22.0 and before 1.0.0. */
  lemma FirstOfRelease(base: string, rest: string)
    requires '/' !in rest
    ensures ScriptVersion(base + "/" + ("0.22" + "/" + ("00" + "__" + rest))) == Ok(Some(Version(0, 22, 1)))
    ensures Less(Version(0, 9, 30), Version(0, 22, 1)) && Less(Version(0, 22, 0), Version(0, 22, 1))
    ensures Less(Version(0, 22, 1), Version(1, 0, 0)) && MINIMUM == Version(0, 22, 0)
  {
    var f := FileName(base, "0", "22", "00", rest);
    KnownNumerals();
    hide DigitsValue, ScriptVersion;
    assert WellNamed(f) && VersionOf(f) == Version(0, 22, 1);
    PathGivesVersion(f);
    assert MinorName(f) == "0.22";
  }

  lemma KnownNumerals()
    ensures DigitsValue("0") == Some(0) && DigitsValue("22") == Some(22) && DigitsValue("00") == Some(0)
  {
    assert "22"[..1] == "2" && "00"[..1] == "0";
    assert DigitsValue("2") == Some(2);
  }

  // ----- The schema version a release asks for

  function GetMinorVersion(release: string): string
  {
    var parts := Split(release, '.');
    if |parts| < 2 then "" else parts[0] + "." + parts[1]
  }

  /** The minor version of a release is its first two parts. */
  lemma MinorOfRelease(a: string, b: string, rest: string)
    requires '.' !in a && '.' !in b
    ensures GetMinorVersion(a + "." + b + "." + rest) == a + "." + b && GetMinorVersion(a + "." + b) == a + "." + b
    ensures GetMinorVersion(a) == ""
  {
    assert a + ['.'] + (b + ['.'] + rest) == a + "." + b + "." + rest && a + ['.'] + b == a + "." + b;
    SplitFirst(a, b + ['.'] + rest, '.');
    SplitFirst(b, rest, '.');
    SplitFirst(a, b, '.');
    SplitOne(b, '.');
    SplitOne(a, '.');
  }

  /** A file of the directory itself. */
  predicate IsIn(path: string, dir: string) { dir + "/" <= path && '/' !in path[|dir| + 1..] }

  function FilesIn(paths: seq<string>, dir: string): seq<string>
  {
    if paths == [] then []
    else
      var last := |paths| - 1;
      FilesIn(paths[..last], dir) + if IsIn(paths[last], dir) then [paths[last]] else []
  }

  /** The version of the last file in the directory of the release, or patch 0 of an empty one. */
  function CurrentSchemaVersion(paths: seq<string>, base: string, release: string): Result<Option<Version>, Error>
  {
    var minor := GetMinorVersion(release);
    var files := FilesIn(paths, base + "/" + minor);
    if files != [] then ScriptVersion(files[|files| - 1])
    else
      match ParseMinor(minor)
      case Some((a, b)) => Ok(Some(Version(a, b, 0)))
      case None => Ok(None)
  }

  /** The last file of a directory is the last path that is in it. */
  lemma {:induction false} LastFileIn(paths: seq<string>, dir: string) returns (i: nat)
    ensures FilesIn(paths, dir) == [] ==> forall j :: 0 <= j < |paths| ==> !IsIn(paths[j], dir)
    ensures FilesIn(paths, dir) != [] ==>
              && i < |paths| && IsIn(paths[i], dir) && FilesIn(paths, dir)[|FilesIn(paths, dir)| - 1] == paths[i]
              && forall j :: i < j < |paths| ==> !IsIn(paths[j], dir)
  {
    hide IsIn;
    i := 0;
    if paths != [] {
      var last := |paths| - 1;
      i := LastFileIn(paths[..last], dir);
      if IsIn(paths[last], dir) { i := last; }
    }
  }

  /** A well-named file is in exactly the directory of its version. */
  lemma InDirectory(f: FileName, minor: string)
    requires WellNamed(f) && '/' !in minor
    ensures IsIn(Path(f), f.base + "/" + minor) <==> MinorName(f) == minor
  {
    var dir, file := f.base + "/" + minor, f.prefix + "__" + f.rest;
    ParsesMinor(f);
    NoCharInDigits(f.prefix, '/');
    assert '/' !in file;
    var tail := MinorName(f) + "/" + file;
    assert Path(f) == f.base + "/" + tail;
    if MinorName(f) == minor {
      assert Path(f) == (dir + "/") + file;
    }
    if IsIn(Path(f), dir) {
      var rest := Path(f)[|dir| + 1..];
      assert Path(f) == (dir + "/") + rest;
      assert f.base + "/" + tail == f.base + "/" + (minor + "/" + rest);
      assert tail == (f.base + "/" + tail)[|f.base| + 1..] == minor + "/" + rest;
      SplitsOnce(MinorName(f), file, minor, rest, '/');
    }
  }

  /** The parts of a directory name. */
  lemma SameMinorName(a: FileName, b: FileName)
    requires WellNamed(a) && WellNamed(b) && MinorName(a) == MinorName(b)
    ensures a.major == b.major && a.minor == b.minor
  {
    NoCharInDigits(a.major, '.');
    NoCharInDigits(b.major, '.');
    SplitsOnce(a.major, a.minor, b.major, b.minor, '.');
  }

  /** Between 0.22 and 0.100, directory names have one digit and two. */
  lemma ModernNames(f: FileName)
    requires WellNamed(f) && VersionOf(f).major == 0 && 22 <= VersionOf(f).minor < 100
    ensures |f.major| == 1 && |f.minor| == 2
  {
    NumberWidth(f.major);
    NumberWidth(f.minor);
  }

  lemma NumberWidth(x: string)
    requires Canonical(x)
    ensures Value(x) < 10 ==> |x| == 1
    ensures 10 <= Value(x) < 100 ==> |x| == 2
  {
    ValueBelow(x);
    if |x| == 1 { assert Power10(1) == 10 * Power10(0); }
    if |x| > 1 {
      ValueFrom(x);
      PowersGrow(1, |x| - 1);
      assert Power10(1) == 10;
    }
    if |x| > 2 {
      PowersGrow(2, |x| - 1);
      assert Power10(2) == 10 * Power10(1);
    }
  }
}
