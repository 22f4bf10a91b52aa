/** Schema migration: which files run, in what order, and what stops between commit and version write
    can do. */
module Migrator {
  import opened Wrappers
  import opened Strings
  import opened MigrationFiles

  // ----- Which files run

  /** A file runs when it leads beyond the recorded version and not beyond the target. */
  predicate ShouldApply(v: Option<Version>, current: Version, target: Version)
  {
    v.Some? && Less(current, v.value) && AtMost(v.value, target)
  }

  function Parsed(path: string): Option<Version> { if ScriptVersion(path).Ok? then ScriptVersion(path).value else None }

  /** The files that run, in the order of the paths. */
  function Selected(paths: seq<string>, current: Version, target: Version): seq<string>
  {
    if paths == [] then []
    else if ShouldApply(Parsed(paths[0]), current, target) then [paths[0]] + Selected(paths[1..], current, target)
    else Selected(paths[1..], current, target)
  }

  predicate AllParse(paths: seq<string>) { forall k :: 0 <= k < |paths| ==> ScriptVersion(paths[k]).Ok? }

  /** Later files never lead to earlier versions. */
  ghost predicate InVersionOrder(paths: seq<string>)
  {
    forall i, j :: 0 <= i < j < |paths| && Parsed(paths[i]).Some? && Parsed(paths[j]).Some? ==>
        AtMost(Parsed(paths[i]).value, Parsed(paths[j]).value)
  }

  ghost predicate StrictlySorted(paths: seq<string>)
  {
    forall i, j :: 0 <= i < j < |paths| ==> TextLess(paths[i], paths[j])
  }

  function Paths(files: seq<FileName>): seq<string>
  {
    seq(|files|, i requires 0 <= i < |files| => Path(files[i]))
  }

  /** Files of one dialect, sorted by path. */
  ghost predicate SortedFiles(files: seq<FileName>)
  {
    && (forall i :: 0 <= i < |files| ==> WellNamed(files[i]) && files[i].base == files[0].base)
    && StrictlySorted(Paths(files))
  }

  lemma SortedFilesParse(files: seq<FileName>)
    requires SortedFiles(files)
    ensures forall i :: 0 <= i < |files| ==> ScriptVersion(Paths(files)[i]) == Ok(Some(VersionOf(files[i])))
    ensures AllParse(Paths(files))
  {
    hide WellNamed, Path, TextLess, ScriptVersion;
    forall i | 0 <= i < |files| ensures ScriptVersion(Paths(files)[i]) == Ok(Some(VersionOf(files[i]))) {
      PathGivesVersion(files[i]);
    }
  }

  /** Sorted files are in version order if and only if the names of any two agree in the first part in
      which they differ. */
  lemma SortedFilesInVersionOrder(files: seq<FileName>)
    requires SortedFiles(files)
    ensures InVersionOrder(Paths(files)) <==> forall i, j :: 0 <= i < j < |files| ==> FilesAgree(files[i], files[j])
  {
    hide WellNamed, Path, TextLess, ScriptVersion, FilesAgree;
    SortedFilesParse(files);
    var paths := Paths(files);
    forall i, j | 0 <= i < j < |files| ensures FilesAgree(files[i], files[j]) <==>
        AtMost(VersionOf(files[i]), VersionOf(files[j])) {
      assert TextLess(paths[i], paths[j]);
      TextOrderIsStrict(paths[i], paths[j]);
      PathOrderExactly(files[i], files[j]);
    }
    if InVersionOrder(paths) {
      forall i, j | 0 <= i < j < |files| ensures FilesAgree(files[i], files[j]) {
        assert Parsed(paths[i]) == Some(VersionOf(files[i])) && Parsed(paths[j]) == Some(VersionOf(files[j]));
      }
    }
  }

  /** When the prefixes in its directory agree, a release asks for the highest version there. */
  lemma CurrentVersionIsHighest(files: seq<FileName>, base: string, release: string)
    requires SortedFiles(files) && forall i :: 0 <= i < |files| ==> files[i].base == base
    requires ParseMinor(GetMinorVersion(release)).Some?
    requires forall i, j | 0 <= i < j < |files|
             && MinorName(files[i]) == MinorName(files[j]) == GetMinorVersion(release) ::
               PrefixesAgree(files[i].prefix, files[j].prefix)
    ensures var minor := GetMinorVersion(release);
            var r := CurrentSchemaVersion(Paths(files), base, release);
            && r.Ok? && r.value.Some? && (r.value.value.major, r.value.value.minor) == ParseMinor(minor).value
            && (forall i :: 0 <= i < |files| && MinorName(files[i]) == minor ==>
                AtMost(VersionOf(files[i]), r.value.value))
            && (r.value.value.patch == 0 || exists i ::
                  0 <= i < |files| && MinorName(files[i]) == minor && VersionOf(files[i]) == r.value.value)
  {
    hide Path, TextLess, ScriptVersion, IsIn, FilesIn, WellNamed, PrefixesAgree;
    var minor := GetMinorVersion(release);
    var paths, dir := Paths(files), base + "/" + minor;
    MinorHasNoSlash(minor);
    SortedFilesParse(files);
    forall i | 0 <= i < |files| ensures IsIn(paths[i], dir) <==> MinorName(files[i]) == minor {
      InDirectory(files[i], minor);
    }
    var last := LastFileIn(paths, dir);
    if FilesIn(paths, dir) != [] {
      ParsesMinor(files[last]);
      forall i | 0 <= i < |files| && MinorName(files[i]) == minor
        ensures AtMost(VersionOf(files[i]), VersionOf(files[last])) {
        if i < last { SameDirectoryOrder(files, i, last); }
      }
    }
  }

  lemma MinorHasNoSlash(minor: string)
    requires ParseMinor(minor).Some?
    ensures '/' !in minor
  {
    var parts := Split(minor, '.');
    SplitRejoins(minor, '.');
    NoCharInDigits(parts[0], '/');
    NoCharInDigits(parts[1], '/');
    assert minor == parts[0] + "." + parts[1];
  }

  lemma SameDirectoryOrder(files: seq<FileName>, i: nat, j: nat)
    requires SortedFiles(files) && i < j < |files| && MinorName(files[i]) == MinorName(files[j])
    requires PrefixesAgree(files[i].prefix, files[j].prefix)
    ensures AtMost(VersionOf(files[i]), VersionOf(files[j]))
  {
    hide Path, TextLess, PrefixesAgree;
    SameMinorName(files[i], files[j]);
    assert TextLess(Paths(files)[i], Paths(files)[j]);
    TextOrderIsStrict(Paths(files)[i], Paths(files)[j]);
    PathOrderExactly(files[i], files[j]);
  }

  /** From 0.22 on and below 0.100, the files that run are in version order as soon as the prefixes in
      each directory agree, as two-digit prefixes do. */
  lemma ModernFilesInVersionOrder(files: seq<FileName>, current: Version, target: Version)
    requires SortedFiles(files) && AtMost(MINIMUM, current) && Less(target, Version(0, 100, 0))
    requires forall i, j | 0 <= i < j < |files| && MinorName(files[i]) == MinorName(files[j]) ::
               PrefixesAgree(files[i].prefix, files[j].prefix)
    ensures InVersionOrder(Selected(Paths(files), current, target))
  {
    hide Path, TextLess, ScriptVersion, PrefixesAgree, WellNamed;
    SortedFilesParse(files);
    var paths := Paths(files);
    forall i, j | 0 <= i < j < |paths| && ShouldApply(Parsed(paths[i]), current, target)
      && ShouldApply(Parsed(paths[j]), current, target)
      ensures AtMost(Parsed(paths[i]).value, Parsed(paths[j]).value)
    {
      assert Parsed(paths[i]) == Some(VersionOf(files[i])) && Parsed(paths[j]) == Some(VersionOf(files[j]));
      ModernPair(files, i, j);
    }
    SelectedInOrder(paths, current, target);
  }

  lemma ModernPair(files: seq<FileName>, i: nat, j: nat)
    requires SortedFiles(files) && i < j < |files|
    requires Less(MINIMUM, VersionOf(files[i])) && Less(VersionOf(files[i]), Version(0, 100, 0))
    requires Less(MINIMUM, VersionOf(files[j])) && Less(VersionOf(files[j]), Version(0, 100, 0))
    requires MinorName(files[i]) == MinorName(files[j]) ==> PrefixesAgree(files[i].prefix, files[j].prefix)
    ensures AtMost(VersionOf(files[i]), VersionOf(files[j]))
  {
    hide Path, TextLess, PrefixesAgree;
    var a, b := files[i], files[j];
    ModernNames(a);
    ModernNames(b);
    CanonicalDiffer(a.major, b.major);
    assert FilesAgree(a, b);
    assert TextLess(Paths(files)[i], Paths(files)[j]);
    TextOrderIsStrict(Paths(files)[i], Paths(files)[j]);
    PathOrderExactly(a, b);
  }

  lemma {:induction false} SelectedInOrder(paths: seq<string>, current: Version, target: Version)
    requires forall i, j | 0 <= i < j < |paths| ::
               ShouldApply(Parsed(paths[i]), current, target) && ShouldApply(Parsed(paths[j]), current, target) ==>
                 AtMost(Parsed(paths[i]).value, Parsed(paths[j]).value)
    ensures InVersionOrder(Selected(paths, current, target))
  {
    if paths != [] {
      assert forall i :: 0 < i < |paths| ==> paths[i] == paths[1..][i - 1];
      hide Parsed, AtMost, Less;
      SelectedInOrder(paths[1..], current, target);
      SelectedAre(paths[1..], current, target);
    }
  }

  lemma {:induction false} SelectedAre(paths: seq<string>, current: Version, target: Version)
    ensures var run := Selected(paths, current, target);
            && (forall p :: p in run <==> p in paths && ShouldApply(Parsed(p), current, target))
            && |run| <= |paths|
  {
    hide ShouldApply, Parsed;
    if paths != [] { SelectedAre(paths[1..], current, target); }
  }

  lemma {:induction false} SelectedOnce(paths: seq<string>, current: Version, target: Version)
    requires forall i, j :: 0 <= i < j < |paths| ==> paths[i] != paths[j]
    ensures var run := Selected(paths, current, target);
            && (forall i, j :: 0 <= i < j < |run| ==> run[i] != run[j])
            && (InVersionOrder(paths) ==> InVersionOrder(run))
  {
    hide ShouldApply, Parsed;
    if paths != [] {
      SelectedOnce(paths[1..], current, target);
      SelectedAre(paths[1..], current, target);
      assert forall i :: 0 < i < |paths| ==> paths[i] == paths[1..][i - 1];
    }
  }

  lemma {:induction false} NoneSelected(paths: seq<string>, current: Version, target: Version)
    requires forall p :: p in paths ==> !ShouldApply(Parsed(p), current, target)
    ensures Selected(paths, current, target) == []
  {
    hide ShouldApply, Parsed;
    if paths != [] { NoneSelected(paths[1..], current, target); }
  }

  /** Migrating to `middle` and then to `target` runs the same files in the same order as migrating to
      `target` at once, provided the files to run are in version order. */
  lemma {:induction false} MigratingInTwoSteps(paths: seq<string>, current: Version, middle: Version, target: Version)
    requires InVersionOrder(Selected(paths, current, target)) && AtMost(current, middle) && AtMost(middle, target)
    ensures Selected(paths, current, middle) + Selected(paths, middle, target) == Selected(paths, current, target)
  {
    if paths != [] {
      var v, rest, all := Parsed(paths[0]), Selected(paths[1..], current, target), Selected(paths, current, target);
      OneOrTheOther(v, current, middle, target);
      hide Parsed, ShouldApply, InVersionOrder, AtMost, Less;
      assert all == if ShouldApply(v, current, target) then [paths[0]] + rest else rest;
      if ShouldApply(v, current, target) { LaterInOrder(paths[0], rest); }
      MigratingInTwoSteps(paths[1..], current, middle, target);
      if ShouldApply(v, middle, target) {
        LaterOnly(paths, current, middle, target);
        NoneSelected(paths, current, middle);
        NoneSelected(paths[1..], current, middle);
      }
    }
  }

  lemma OneOrTheOther(v: Option<Version>, current: Version, middle: Version, target: Version)
    requires AtMost(current, middle) && AtMost(middle, target)
    ensures ShouldApply(v, current, target) <==> ShouldApply(v, current, middle) || ShouldApply(v, middle, target)
    ensures !(ShouldApply(v, current, middle) && ShouldApply(v, middle, target))
  {
  }

  lemma LaterInOrder(p: string, rest: seq<string>)
    requires InVersionOrder([p] + rest)
    ensures InVersionOrder(rest)
  {
    hide Parsed;
    var all := [p] + rest;
    forall i, j | 0 <= i < j < |rest| && Parsed(rest[i]).Some? && Parsed(rest[j]).Some?
      ensures AtMost(Parsed(rest[i]).value, Parsed(rest[j]).value)
    {
      assert all[i + 1] == rest[i] && all[j + 1] == rest[j];
    }
  }

  /** When the first file is beyond `middle`, so are the others to run. */
  lemma LaterOnly(paths: seq<string>, current: Version, middle: Version, target: Version)
    requires paths != [] && InVersionOrder(Selected(paths, current, target)) && AtMost(current, middle)
             && AtMost(middle, target)
    requires ShouldApply(Parsed(paths[0]), middle, target)
    ensures forall p :: p in paths ==> !ShouldApply(Parsed(p), current, middle)
  {
    hide Parsed;
    SelectedAre(paths, current, target);
    var all := Selected(paths, current, target);
    assert all[0] == paths[0];
    forall p | p in paths ensures !ShouldApply(Parsed(p), current, middle) {
      if p in all {
        var i :| 0 <= i < |all| && all[i] == p;
        assert AtMost(Parsed(all[0]).value, Parsed(all[i]).value);
      }
    }
  }

  // ----- Sorted lists are determined by their elements

  lemma {:induction false} TextOrderIsStrict(a: string, b: string)
    requires TextLess(a, b)
    ensures !TextLess(b, a) && a != b
  {
    if a != "" && a[0] == b[0] { TextOrderIsStrict(a[1..], b[1..]); }
  }

  lemma {:induction false} SortedListsAgree(a: seq<string>, b: seq<string>)
    requires StrictlySorted(a) && StrictlySorted(b) && forall p :: p in a <==> p in b
    ensures a == b
    decreases |a|
  {
    hide TextLess;
    assert b != [] ==> a != [] by { if b != [] { assert b[0] in a; } }
    if a == [] {
    } else {
      assert a[0] in b && b != [];
      FirstAgrees(a, b);
      forall p ensures p in a[1..] <==> p in b[1..] {
        RestWithoutFirst(a);
        RestWithoutFirst(b);
        assert p in a <==> p == a[0] || p in a[1..] by { assert a == [a[0]] + a[1..]; }
        assert p in b <==> p == b[0] || p in b[1..] by { assert b == [b[0]] + b[1..]; }
      }
      SortedListsAgree(a[1..], b[1..]);
      assert a == [a[0]] + a[1..] && b == [b[0]] + b[1..];
    }
  }

  lemma RestWithoutFirst(a: seq<string>)
    requires StrictlySorted(a) && a != []
    ensures a[0] !in a[1..]
  {
    hide TextLess;
    forall i | 0 < i < |a| ensures a[i] != a[0] { TextOrderIsStrict(a[0], a[i]); }
  }

  lemma FirstAgrees(a: seq<string>, b: seq<string>)
    requires StrictlySorted(a) && StrictlySorted(b) && a != [] && b != [] && a[0] in b && b[0] in a
    ensures a[0] == b[0]
  {
    hide TextLess;
    var j :| 0 <= j < |b| && b[j] == a[0];
    var i :| 0 <= i < |a| && a[i] == b[0];
    if j > 0 && i > 0 { TextOrderIsStrict(a[0], b[0]); }
  }

  lemma {:induction false} SelectedIsSorted(paths: seq<string>, current: Version, target: Version)
    requires StrictlySorted(paths)
    ensures StrictlySorted(Selected(paths, current, target))
  {
    hide ShouldApply, Parsed, TextLess;
    if paths != [] {
      assert forall i :: 0 < i < |paths| ==> paths[i] == paths[1..][i - 1];
      SelectedIsSorted(paths[1..], current, target);
      SelectedAre(paths[1..], current, target);
      var rest := Selected(paths[1..], current, target);
      forall k | 0 <= k < |rest| ensures TextLess(paths[0], rest[k]) {
        assert rest[k] in paths[1..];
      }
    }
  }

  // ----- Migrating a database

  /** What was committed: a migration file, or the latest schema of a binary. */
  datatype Effect = Ran(path: string) | Latest(target: Version)

  datatype State = State(initialized: bool, log: seq<Effect>, recorded: Version)

  /** The migration files of a release, sorted, and the schema version it asks for (see
      CurrentSchemaVersion). */
  datatype Binary = Binary(paths: seq<string>, target: Version)

  /** Where a transaction and the version write after it stop. */
  datatype Stop = Never | BeforeCommit | BeforeWrite

  datatype Outcome = Done | Refused(e: Error) | Stopped

  function Rans(paths: seq<string>): seq<Effect> { seq(|paths|, i requires 0 <= i < |paths| => Ran(paths[i])) }

  function FirstError(paths: seq<string>): Option<Error>
  {
    if paths == [] then None
    else match ScriptVersion(paths[0]) case Err(e) => Some(e) case Ok(_) => FirstError(paths[1..])
  }

  function AfterPre(s: State, b: Binary, stop: Stop): (State, Outcome)
  {
    if !s.initialized && stop == BeforeCommit then (s, Stopped)
    else if !s.initialized && stop == BeforeWrite then (State(true, s.log + [Latest(b.target)], s.recorded), Stopped)
    else
      var s' := if s.initialized then s else State(true, s.log + [Latest(b.target)], b.target);
      (s', if s'.recorded != EMPTY && Less(s'.recorded, MINIMUM) then Refused(TooOld) else Done)
  }

  function AfterApply(s: State, b: Binary, stop: Stop): (State, Outcome)
  {
    if FirstError(b.paths).Some? then (s, Refused(FirstError(b.paths).value))
    else if stop == BeforeCommit then (s, Stopped)
    else
      var log := s.log + Rans(Selected(b.paths, s.recorded, b.target));
      if stop == BeforeWrite then (s.(log := log), Stopped) else (s.(log := log, recorded := b.target), Done)
  }

  function AfterMigrate(s: State, b: Binary, pre: Stop, apply: Stop): (State, Outcome)
  {
    var (s', o) := AfterPre(s, b, pre);
    if o != Done then (s', o)
    else if s'.recorded != EMPTY && Less(b.target, s'.recorded) then (s', Refused(Downgrade))
    else if s'.recorded == EMPTY || Less(s'.recorded, b.target) then AfterApply(s', b, apply)
    else (s', Done)
  }

  class Database {
    var initialized: bool
    var log: seq<Effect>
    var recorded: Version

    constructor ()
      ensures Now() == State(false, [], EMPTY)
    {
      initialized, log, recorded := false, [], EMPTY;
    }

    ghost function Now(): State
      reads this
    {
      State(initialized, log, recorded)
    }

    method Migrate(b: Binary, pre: Stop, apply: Stop) returns (o: Outcome)
      modifies this
      ensures (Now(), o) == AfterMigrate(old(Now()), b, pre, apply)
      ensures o == Done ==> initialized && recorded == b.target
    {
      o := PreMigrate(b, pre);
      if o != Done { return; }
      if recorded != EMPTY && Less(b.target, recorded) { return Refused(Downgrade); }
      if recorded == EMPTY || Less(recorded, b.target) {
        o := ApplyMigrations(b, apply);
      }
    }

    method PreMigrate(b: Binary, stop: Stop) returns (o: Outcome)
      modifies this
      ensures (Now(), o) == AfterPre(old(Now()), b, stop)
      ensures old(initialized) || stop == BeforeCommit ==> Now() == old(Now())
      ensures !old(initialized) && stop != BeforeCommit ==>
                initialized && log == old(log) + [Latest(b.target)]
                && recorded == if stop == BeforeWrite then old(recorded) else b.target
      ensures !old(initialized) && stop != Never ==> o == Stopped
      ensures old(initialized) || stop == Never ==>
                o == if recorded != Version(0, 0, 0) && Less(recorded, Version(0, 22, 0)) then Refused(TooOld) else Done
    {
      if !initialized {
        if stop == BeforeCommit { return Stopped; }
        log, initialized := log + [Latest(b.target)], true;
        if stop == BeforeWrite { return Stopped; }
        recorded := b.target;
      }
      if recorded != EMPTY && AtMost(MINIMUM, recorded) { return Done; }
      if recorded != EMPTY && !AtMost(MINIMUM, recorded) { return Refused(TooOld); }
      return Done;
    }

    /** One transaction for all files; what it has executed is lost unless it commits. */
    method ApplyMigrations(b: Binary, stop: Stop) returns (o: Outcome)
      modifies this`log, this`recorded
      ensures (Now(), o) == AfterApply(old(Now()), b, stop)
      ensures o.Refused? <==> exists k :: 0 <= k < |b.paths| && ScriptVersion(b.paths[k]).Err?
      ensures o.Refused? ==>
                && log == old(log) && recorded == old(recorded)
                && exists k :: 0 <= k < |b.paths| && ScriptVersion(b.paths[k]) == Err(o.e)
                               && forall j :: 0 <= j < k ==> ScriptVersion(b.paths[j]).Ok?
      ensures !o.Refused? && stop == BeforeCommit ==> o == Stopped && log == old(log) && recorded == old(recorded)
      ensures !o.Refused? && stop != BeforeCommit ==>
                && log == old(log) + Rans(Selected(b.paths, old(recorded), b.target))
                && o == (if stop == BeforeWrite then Stopped else Done)
                && recorded == if stop == BeforeWrite then old(recorded) else b.target
    {
      hide ScriptVersion, ShouldApply;
      var tx: seq<Effect> := [];
      for i := 0 to |b.paths|
        invariant log == old(log) && recorded == old(recorded)
        invariant FirstError(b.paths) == FirstError(b.paths[i..])
        invariant forall j :: 0 <= j < i ==> ScriptVersion(b.paths[j]).Ok?
        invariant Rans(Selected(b.paths, recorded, b.target)) == tx + Rans(Selected(b.paths[i..], recorded, b.target))
      {
        var path := b.paths[i];
        assert b.paths[i..][1..] == b.paths[i + 1..];
        var fileVersion := ScriptVersion(path);
        if fileVersion.Err? { return Refused(fileVersion.error); }
        if ShouldApply(fileVersion.value, recorded, b.target) {
          tx := tx + [Ran(path)];
        }
      }
      assert b.paths[|b.paths|..] == [] && Rans([]) == [];
      assert tx == Rans(Selected(b.paths, recorded, b.target));
      if stop == BeforeCommit { return Stopped; }
      log := log + tx;
      if stop == BeforeWrite { return Stopped; }
      recorded := b.target;
      return Done;
    }
  }

  // ----- What every run keeps

  predicate IsMigration(p: string) { Parsed(p).Some? && Less(EMPTY, Parsed(p).value) }

  /** A migration is in effect when it ran, or when a schema that contains it was installed. */
  ghost predicate InEffect(log: seq<Effect>, p: string)
    requires IsMigration(p)
  {
    Ran(p) in log || exists t :: Latest(t) in log && AtMost(Parsed(p).value, t)
  }

  /** A release has the migrations of the history up to its version. */
  ghost predicate Belongs(b: Binary, history: seq<string>)
  {
    FirstError(b.paths).None? &&
    forall p :: IsMigration(p) && AtMost(Parsed(p).value, b.target) ==> (p in b.paths <==> p in history)
  }

  /** A recorded version means that every migration up to it is in effect. */
  ghost predicate Sound(history: seq<string>, s: State)
  {
    && (!s.initialized ==> s.log == [] && s.recorded == EMPTY)
    && forall p :: p in history && IsMigration(p) && s.recorded != EMPTY && AtMost(Parsed(p).value, s.recorded) ==>
        InEffect(s.log, p)
  }

  lemma RansHold(log: seq<Effect>, paths: seq<string>)
    ensures forall p :: p in paths ==> Ran(p) in log + Rans(paths)
    ensures forall p :: Ran(p) in log + Rans(paths) ==> Ran(p) in log || p in paths
    ensures forall t :: Latest(t) in log + Rans(paths) <==> Latest(t) in log
  {
    var r := Rans(paths);
    forall p | p in paths ensures Ran(p) in log + r {
      var i :| 0 <= i < |paths| && paths[i] == p;
      assert r[i] == Ran(p);
    }
  }

  lemma ApplyIsSound(history: seq<string>, s: State, b: Binary, stop: Stop)
    requires Sound(history, s) && Belongs(b, history) && s.initialized
    ensures Sound(history, AfterApply(s, b, stop).0)
  {
    hide Parsed;
    var run := Selected(b.paths, s.recorded, b.target);
    SelectedAre(b.paths, s.recorded, b.target);
    RansHold(s.log, run);
    hide Rans, Selected;
    var s' := AfterApply(s, b, stop).0;
    forall p | p in history && IsMigration(p) && s'.recorded != EMPTY && AtMost(Parsed(p).value, s'.recorded)
      ensures InEffect(s'.log, p) {
      if s.recorded != EMPTY && AtMost(Parsed(p).value, s.recorded) {
        assert InEffect(s.log, p);
      } else if s'.recorded == b.target && s'.recorded != s.recorded {
        assert p in run;
      }
    }
  }

  lemma PreIsSound(history: seq<string>, s: State, b: Binary, stop: Stop)
    requires Sound(history, s)
    ensures Sound(history, AfterPre(s, b, stop).0)
            && (AfterPre(s, b, stop).1 == Done ==> AfterPre(s, b, stop).0.initialized)
    ensures AtMost(s.recorded, AfterPre(s, b, stop).0.recorded)
  {
    hide Parsed;
    var s' := AfterPre(s, b, stop).0;
    if !s.initialized && s' != s { assert s'.log[|s.log|] == Latest(b.target); }
  }

  /** Wherever it stops, migrating keeps the recorded version meaningful and never lowers it; a refused
      downgrade, and only that, leaves everything as it was with its error. */
  lemma MigrateIsSound(history: seq<string>, s: State, b: Binary, pre: Stop, apply: Stop)
    requires Sound(history, s) && Belongs(b, history)
    ensures var (s', o) := AfterMigrate(s, b, pre, apply);
            && Sound(history, s') && AtMost(s.recorded, s'.recorded)
            && (o == Refused(Downgrade) <==>
                s.initialized && s.recorded != EMPTY && AtMost(MINIMUM, s.recorded) && Less(b.target, s.recorded))
            && (o == Refused(Downgrade) ==> s' == s)
  {
    hide Parsed, Sound, FirstError, InEffect;
    PreIsSound(history, s, b, pre);
    var (s1, o) := AfterPre(s, b, pre);
    if o == Done {
      NoErrors(b, history);
      ApplyIsSound(history, s1, b, apply);
    }
    if !s.initialized { UninitializedIsEmpty(history, s); }
  }

  lemma NoErrors(b: Binary, history: seq<string>)
    requires Belongs(b, history)
    ensures FirstError(b.paths).None?
  {
  }

  lemma UninitializedIsEmpty(history: seq<string>, s: State)
    requires Sound(history, s) && !s.initialized
    ensures s.recorded == EMPTY && s.log == []
  {
  }

  /** Migrating again with the same release runs nothing. */
  lemma SecondMigrateChangesNothing(s: State, b: Binary, pre: Stop, apply: Stop, pre2: Stop, apply2: Stop)
    requires AfterMigrate(s, b, pre, apply).1 == Done
    ensures var s1 := AfterMigrate(s, b, pre, apply).0;
            AfterMigrate(s1, b, pre2, apply2).0 == s1
              && (AtMost(MINIMUM, b.target) ==> AfterMigrate(s1, b, pre2, apply2).1 == Done)
  {
    var s1 := AfterMigrate(s, b, pre, apply).0;
    assert s1.initialized && s1.recorded == b.target;
    if b.target == EMPTY {
      NoneSelected(b.paths, EMPTY, EMPTY);
      assert s1.log + Rans([]) == s1.log;
    }
  }

  // ----- Runs

  datatype Event = Event(b: Binary, pre: Stop, apply: Stop)

  function After(s: State, events: seq<Event>): State
  {
    if events == [] then s
    else
      var last := events[|events| - 1];
      AfterMigrate(After(s, events[..|events| - 1]), last.b, last.pre, last.apply).0
  }

  /** Releases are started one after the other on the same database. */
  method MigrateAll(db: Database, events: seq<Event>)
    modifies db
    ensures db.Now() == After(old(db.Now()), events)
  {
    for i := 0 to |events|
      invariant db.Now() == After(old(db.Now()), events[..i])
    {
      var e := events[i];
      assert events[..i + 1][..i] == events[..i] && events[..i + 1][i] == e;
      var _ := db.Migrate(e.b, e.pre, e.apply);
    }
    assert events[..|events|] == events;
  }

  ghost predicate AllBelong(events: seq<Event>, history: seq<string>)
  {
    forall i :: 0 <= i < |events| ==> Belongs(events[i].b, history)
  }

  /** Over every run of any releases of one history, stopped anywhere, a recorded version means that
      every migration up to it is in effect, and recorded versions never decrease. */
  lemma {:induction false} RunsAreSound(history: seq<string>, s: State, events: seq<Event>)
    requires Sound(history, s) && AllBelong(events, history)
    ensures Sound(history, After(s, events)) && AtMost(s.recorded, After(s, events).recorded)
    decreases |events|
  {
    hide Sound, AfterMigrate, Belongs;
    if events != [] {
      var last := |events| - 1;
      RunsAreSound(history, s, events[..last]);
      MigrateIsSound(history, After(s, events[..last]), events[last].b, events[last].pre, events[last].apply);
    }
  }

  /** Nothing beyond the recorded version is in effect. */
  ghost predicate Exact(history: seq<string>, s: State)
  {
    forall p :: IsMigration(p) && InEffect(s.log, p) ==> s.recorded != EMPTY && AtMost(Parsed(p).value, s.recorded)
  }

  /** Every file that a migration ran was not in effect before. */
  ghost predicate RunsOnlyNew(s: State, s': State)
  {
    forall i :: |s.log| <= i < |s'.log| && s'.log[i].Ran? ==>
        IsMigration(s'.log[i].path) && !InEffect(s.log, s'.log[i].path)
  }

  lemma InEffectAfter(log: seq<Effect>, paths: seq<string>, p: string)
    requires IsMigration(p)
    ensures InEffect(log + Rans(paths), p) <==> InEffect(log, p) || p in paths
  {
    RansHold(log, paths);
  }

  lemma ApplyIsExact(history: seq<string>, s: State, b: Binary, stop: Stop)
    requires Exact(history, s) && stop != BeforeWrite && (s.recorded == EMPTY || Less(s.recorded, b.target))
    ensures Exact(history, AfterApply(s, b, stop).0)
  {
    hide Parsed, InEffect, Rans;
    var run := Selected(b.paths, s.recorded, b.target);
    SelectedAre(b.paths, s.recorded, b.target);
    var s' := AfterApply(s, b, stop).0;
    if s' != s {
      forall p | IsMigration(p) && InEffect(s'.log, p)
        ensures s'.recorded != EMPTY && AtMost(Parsed(p).value, s'.recorded) {
        InEffectAfter(s.log, run, p);
      }
    }
  }

  lemma ApplyRunsOnlyNew(history: seq<string>, s: State, b: Binary, stop: Stop)
    requires Exact(history, s)
    ensures RunsOnlyNew(s, AfterApply(s, b, stop).0)
  {
    hide Parsed, InEffect, Selected;
    var run := Selected(b.paths, s.recorded, b.target);
    SelectedAre(b.paths, s.recorded, b.target);
    var s' := AfterApply(s, b, stop).0;
    forall i | |s.log| <= i < |s'.log| && s'.log[i].Ran?
      ensures IsMigration(s'.log[i].path) && !InEffect(s.log, s'.log[i].path) {
      assert s'.log[i] == Rans(run)[i - |s.log|];
      assert s'.log[i].path in run;
    }
  }

  lemma PreIsExact(history: seq<string>, s: State, b: Binary, stop: Stop)
    requires Exact(history, s) && Sound(history, s) && stop != BeforeWrite
    ensures var s' := AfterPre(s, b, stop).0; Exact(history, s') && RunsOnlyNew(s, s')
    ensures s.initialized ==> AfterPre(s, b, stop).0 == s
  {
    hide Parsed;
  }

  /** While no migration is stopped between commit and version write, nothing beyond the recorded
      version is in effect, and so no file runs that is already in effect. */
  lemma MigrateRunsOnlyNew(history: seq<string>, s: State, b: Binary, pre: Stop, apply: Stop)
    requires Sound(history, s) && Exact(history, s) && Belongs(b, history)
    ensures pre != BeforeWrite ==> RunsOnlyNew(s, AfterMigrate(s, b, pre, apply).0)
    ensures pre != BeforeWrite && apply != BeforeWrite ==> Exact(history, AfterMigrate(s, b, pre, apply).0)
  {
    hide Parsed, InEffect, AfterApply, IsMigration;
    if pre != BeforeWrite {
      PreIsExact(history, s, b, pre);
      var (s1, o) := AfterPre(s, b, pre);
      if o == Done && (s1.recorded == EMPTY || Less(s1.recorded, b.target)) {
        ApplyRunsOnlyNew(history, s1, b, apply);
        if apply != BeforeWrite { ApplyIsExact(history, s1, b, apply); }
        if !s.initialized { FreshRunsNothing(s, s1, b, apply); }
      }
    }
  }

  /** A fresh installation is already at the version of its release. */
  lemma FreshRunsNothing(s: State, s1: State, b: Binary, apply: Stop)
    requires s1 == State(true, s.log + [Latest(b.target)], b.target)
             && (s1.recorded == EMPTY || Less(s1.recorded, b.target))
    ensures RunsOnlyNew(s, AfterApply(s1, b, apply).0)
  {
    SelectedAre(b.paths, EMPTY, EMPTY);
    NoneSelected(b.paths, EMPTY, EMPTY);
  }

  // ----- Every migration once

  /** No migration ran twice, nor on top of a schema that contains it. */
  ghost predicate OnceEach(log: seq<Effect>)
  {
    forall i, j :: 0 <= i < j < |log| && log[j].Ran? && IsMigration(log[j].path) ==> !Covers(log[i], log[j].path)
  }

  /** This effect already contains the migration. */
  ghost predicate Covers(e: Effect, p: string)
    requires IsMigration(p)
  {
    e == Ran(p) || (e.Latest? && AtMost(Parsed(p).value, e.target))
  }

  lemma CoveredIsInEffect(log: seq<Effect>, i: nat, p: string)
    requires IsMigration(p) && i < |log| && Covers(log[i], p)
    ensures InEffect(log, p)
  {
    hide Parsed;
    assert log[i] in log;
  }

  lemma LogGrowth(s: State, b: Binary, pre: Stop, apply: Stop)
    ensures var log := AfterMigrate(s, b, pre, apply).0.log;
            log == s.log || (!s.initialized && log == s.log + [Latest(b.target)])
              || log == s.log + Rans(Selected(b.paths, s.recorded, b.target))
  {
    hide Parsed, ShouldApply;
    if !s.initialized {
      NothingBetween(b.paths, b.target);
      assert (s.log + [Latest(b.target)]) + Rans([]) == s.log + [Latest(b.target)];
    }
  }

  lemma NothingBetween(paths: seq<string>, v: Version)
    ensures Selected(paths, v, v) == []
  {
    hide Parsed;
    NoneSelected(paths, v, v);
  }

  lemma OnceEachGrows(log: seq<Effect>, more: seq<Effect>)
    requires OnceEach(log)
    requires forall j :: 0 <= j < |more| && more[j].Ran? ==> IsMigration(more[j].path) && !InEffect(log, more[j].path)
    requires OnceEach(more)
    ensures OnceEach(log + more)
  {
    hide Parsed, InEffect, IsMigration;
    var all := log + more;
    forall i, j | 0 <= i < j < |all| && all[j].Ran? && IsMigration(all[j].path) ensures !Covers(all[i], all[j].path) {
      if j < |log| {
        assert all[i] == log[i] && all[j] == log[j];
      } else if i >= |log| {
        assert all[i] == more[i - |log|] && all[j] == more[j - |log|];
      } else {
        assert all[i] == log[i] && all[j] == more[j - |log|];
        if Covers(log[i], all[j].path) { CoveredIsInEffect(log, i, all[j].path); }
      }
    }
  }

  lemma RansOnce(paths: seq<string>, current: Version, target: Version)
    requires forall i, j :: 0 <= i < j < |paths| ==> paths[i] != paths[j]
    ensures OnceEach(Rans(Selected(paths, current, target)))
  {
    hide Parsed, ShouldApply;
    SelectedOnce(paths, current, target);
  }

  lemma DistinctPaths(paths: seq<string>)
    requires StrictlySorted(paths)
    ensures forall i, j :: 0 <= i < j < |paths| ==> paths[i] != paths[j]
  {
    hide TextLess;
    forall i, j | 0 <= i < j < |paths| ensures paths[i] != paths[j] { TextOrderIsStrict(paths[i], paths[j]); }
  }

  lemma MigrateOnceEach(history: seq<string>, s: State, b: Binary, pre: Stop, apply: Stop)
    requires Sound(history, s) && Exact(history, s) && Belongs(b, history) && StrictlySorted(b.paths) && OnceEach(s.log)
    requires pre != BeforeWrite
    ensures OnceEach(AfterMigrate(s, b, pre, apply).0.log)
  {
    hide Parsed, InEffect, AfterMigrate, OnceEach, Sound, Exact, Belongs, StrictlySorted, IsMigration, Selected;
    var log := AfterMigrate(s, b, pre, apply).0.log;
    LogGrowth(s, b, pre, apply);
    MigrateRunsOnlyNew(history, s, b, pre, apply);
    if log == s.log + Rans(Selected(b.paths, s.recorded, b.target)) {
      var more := Rans(Selected(b.paths, s.recorded, b.target));
      DistinctPaths(b.paths);
      RansOnce(b.paths, s.recorded, b.target);
      forall j | 0 <= j < |more| && more[j].Ran? ensures IsMigration(more[j].path) && !InEffect(s.log, more[j].path) {
        assert log[|s.log| + j] == more[j];
      }
      OnceEachGrows(s.log, more);
    } else if log == s.log + [Latest(b.target)] {
      OneLatest(b.target);
      OnceEachGrows(s.log, [Latest(b.target)]);
    }
  }

  lemma OneLatest(t: Version)
    ensures OnceEach([Latest(t)])
  {
  }

  predicate NeverBetween(events: seq<Event>)
  {
    forall i :: 0 <= i < |events| ==> events[i].pre != BeforeWrite && events[i].apply != BeforeWrite
  }

  /** From an empty database, whatever releases are started and wherever they stop except between commit
      and version write: every migration takes effect once, and nothing beyond the recorded version is in
      effect. */
  lemma {:induction false} EveryMigrationOnce(history: seq<string>, events: seq<Event>)
    requires AllBelong(events, history) && NeverBetween(events)
    requires forall i :: 0 <= i < |events| ==> StrictlySorted(events[i].b.paths)
    ensures var s := After(State(false, [], EMPTY), events);
            Sound(history, s) && Exact(history, s) && OnceEach(s.log)
    decreases |events|
  {
    var start := State(false, [], EMPTY);
    hide Sound, Exact, AfterMigrate, Belongs, OnceEach, StrictlySorted;
    if events == [] {
      EmptyIsExact(history);
    } else {
      var last := |events| - 1;
      var e, s := events[last], After(start, events[..last]);
      EveryMigrationOnce(history, events[..last]);
      MigrateIsSound(history, s, e.b, e.pre, e.apply);
      MigrateRunsOnlyNew(history, s, e.b, e.pre, e.apply);
      MigrateOnceEach(history, s, e.b, e.pre, e.apply);
    }
  }

  lemma EmptyIsExact(history: seq<string>)
    ensures var s := State(false, [], EMPTY); Sound(history, s) && Exact(history, s) && OnceEach(s.log)
  {
    hide Parsed;
  }

  /** Stopped between commit and version write, a migration runs its files again the next time. */
  lemma StoppedMigrationRunsTwice(s: State, b: Binary)
    requires s.initialized && FirstError(b.paths).None?
             && (s.recorded == EMPTY || (AtMost(MINIMUM, s.recorded) && Less(s.recorded, b.target)))
    ensures var run := Rans(Selected(b.paths, s.recorded, b.target));
            var s1 := AfterMigrate(s, b, Never, BeforeWrite).0;
            AfterMigrate(s1, b, Never, Never) == (State(true, s.log + run + run, b.target), Done)
  {
  }

  /** Stopped there while it is installed, a database gets every migration on top of the latest schema
      that contains them. */
  lemma StoppedInstallRunsEverything(b: Binary)
    requires FirstError(b.paths).None?
    ensures var s := State(false, [], EMPTY);
            var s1 := AfterMigrate(s, b, BeforeWrite, Never).0;
            && AfterMigrate(s1, b, Never, Never) ==
                (State(true, [Latest(b.target)] + Rans(Selected(b.paths, EMPTY, b.target)), b.target), Done)
            && forall p :: p in Selected(b.paths, EMPTY, b.target) ==> IsMigration(p) && InEffect(s1.log, p)
  {
    hide Parsed;
    SelectedAre(b.paths, EMPTY, b.target);
    assert [Latest(b.target)][0] == Latest(b.target);
    assert [] + [Latest(b.target)] == [Latest(b.target)];
  }

  // ----- Different releases

  /** Releases of one history select the same files up to the lower of their versions. */
  lemma ReleasesSelectAlike(a: Binary, b: Binary, history: seq<string>, current: Version, target: Version)
    requires Belongs(a, history) && Belongs(b, history) && StrictlySorted(a.paths) && StrictlySorted(b.paths)
    requires AtMost(target, a.target) && AtMost(target, b.target)
    ensures Selected(a.paths, current, target) == Selected(b.paths, current, target)
  {
    hide Parsed, TextLess;
    SelectedAre(a.paths, current, target);
    SelectedAre(b.paths, current, target);
    SelectedIsSorted(a.paths, current, target);
    SelectedIsSorted(b.paths, current, target);
    SortedListsAgree(Selected(a.paths, current, target), Selected(b.paths, current, target));
  }

  /** Upgrading through an intermediate release leaves exactly what upgrading directly does, provided
      the files to run are in version order. */
  lemma SteppingThroughReleases(s: State, a: Binary, b: Binary, history: seq<string>)
    requires s.initialized && AtMost(MINIMUM, s.recorded) && Less(s.recorded, a.target) && Less(a.target, b.target)
    requires Belongs(a, history) && Belongs(b, history) && StrictlySorted(a.paths) && StrictlySorted(b.paths)
    requires InVersionOrder(Selected(b.paths, s.recorded, b.target))
    ensures AfterMigrate(AfterMigrate(s, a, Never, Never).0, b, Never, Never) == AfterMigrate(s, b, Never, Never)
  {
    hide Selected, Parsed, StrictlySorted, InVersionOrder;
    NoErrors(a, history);
    NoErrors(b, history);
    ReleasesSelectAlike(a, b, history, s.recorded, a.target);
    MigratingInTwoSteps(b.paths, s.recorded, a.target, b.target);
    hide Belongs;
    var first, second := Selected(b.paths, s.recorded, a.target), Selected(b.paths, a.target, b.target);
    RansConcat(first, second);
    assert (s.log + Rans(first)) + Rans(second) == s.log + (Rans(first) + Rans(second));
  }

  /** In particular, from 0.22 on and below 0.100, for well-named files whose prefixes agree. */
  lemma SteppingThroughModernReleases(s: State, a: Binary, b: Binary, files: seq<FileName>, history: seq<string>)
    requires s.initialized && AtMost(MINIMUM, s.recorded) && Less(s.recorded, a.target) && Less(a.target, b.target)
    requires Less(b.target, Version(0, 100, 0))
    requires Belongs(a, history) && Belongs(b, history) && StrictlySorted(a.paths)
    requires SortedFiles(files) && b.paths == Paths(files)
    requires forall i, j | 0 <= i < j < |files| && MinorName(files[i]) == MinorName(files[j]) ::
               PrefixesAgree(files[i].prefix, files[j].prefix)
    ensures AfterMigrate(AfterMigrate(s, a, Never, Never).0, b, Never, Never) == AfterMigrate(s, b, Never, Never)
  {
    hide Path, TextLess, ScriptVersion, PrefixesAgree, AfterMigrate, Belongs, WellNamed;
    ModernFilesInVersionOrder(files, s.recorded, b.target);
    SteppingThroughReleases(s, a, b, history);
  }

  lemma RansConcat(a: seq<string>, b: seq<string>)
    ensures Rans(a + b) == Rans(a) + Rans(b)
  {
  }
}
