/** A shell that sources one generated file after another, and the whole journey from an old file:
    sync after sync, each result sourced. */
module SourcingRuns {
  import opened Text
  import opened Domain
  import opened Validate
  import opened Posix
  import opened FileFacts
  import opened Legacy
  import opened OldFormat
  import opened Sync
  import opened Sourcing
  import opened FieldSplitting

  /** A generated file: the configuration it was rendered from and the names it carries. */
  datatype Generated = Generated(cfg: ResolvedConfig, migrated: seq<string>)

  ghost predicate Sourceable(f: Generated, sh: Shell) {
    && Renderable(f.cfg) && f.cfg.device.shell == sh && HarmlessNames(f.cfg.aliases, sh)
    && ValidNames(f.migrated, sh)
  }

  function Texts(files: seq<Generated>): seq<string> {
    if files == [] then [] else [FileText(files[0].cfg, files[0].migrated)] + Texts(files[1..])
  }

  function Managed(f: Generated): seq<string> {
    Names(SortAliases(f.cfg.aliases))
  }

  /** `x` is defined by some file of the sequence. */
  predicate EverDefined(files: seq<Generated>, x: string) {
    files != [] && (x in Managed(files[0]) || EverDefined(files[1..], x))
  }

  /** The name a file is sourced under changes nothing else. */
  lemma SameFile(file: string, st: ShellState, names: seq<string>)
    ensures var here := st.(file := file);
            && Ifs(here) == Ifs(st) && (NoneAliased(here) <==> NoneAliased(st))
            && Recovered(here, names) == Recovered(st, names)
  {
  }

  // ----- Looking up a name -----

  lemma {:induction false} Defined(aliases: seq<Alias>, m: map<string, string>, x: string)
    requires DistinctNames(aliases)
    ensures var r := DefineAll(aliases, m);
            if x in Names(aliases) then
              x in r && exists a :: a in aliases && a.name == x && a.command == r[x]
            else (x in r <==> x in m) && (x in r ==> r[x] == m[x])
    decreases |aliases|
  {
    if aliases != [] {
      var a, rest := aliases[0], aliases[1..];
      Defined(rest, m[a.name := a.command], x);
      NamesIn(rest);
      assert Names(aliases) == [a.name] + Names(rest);
      assert aliases == [a] + rest;
    }
  }

  lemma {:induction false} NamesIn(aliases: seq<Alias>)
    ensures |Names(aliases)| == |aliases| && forall i :: 0 <= i < |aliases| ==> Names(aliases)[i] == aliases[i].name
  {
    if aliases != [] {
      NamesIn(aliases[1..]);
    }
  }

  /** What the shell holds for `x`: the command of the last file, nothing if only earlier files or
      the carried names had it, and its own alias if no file ever had it. */
  ghost predicate HoldsOnly(files: seq<Generated>, before: map<string, string>, removed: seq<string>,
                            after: map<string, string>, x: string)
    requires files != []
  {
    var last := SortAliases(files[|files| - 1].cfg.aliases);
    if x in Names(last) then x in after && exists a :: a in last && a.name == x && a.command == after[x]
    else if x in removed || EverDefined(files, x) then x !in after
    else (x in after <==> x in before) && (x in after ==> after[x] == before[x])
  }

  lemma OneFileHolds(f: Generated, names: seq<string>, st: ShellState, x: string)
    requires Sourceable(f, st.shell) && ValidNames(names, st.shell) && Splits(Ifs(st), names)
    ensures HoldsOnly([f], st.aliases, names, Sourced(f.cfg, names, st).aliases, x)
  {
    hide SortAliases, Guard, DistinctNames, DefineAll, CommandWord, Recovered, Splits, Ifs, Name;
    RecoveredExactly(st, names, st.shell);
    SortedIncreasing(f.cfg);
    Defined(SortAliases(f.cfg.aliases), st.aliases - Set(names), x);
    assert EverDefined([f], x) == (x in Managed(f));
  }

  /** Sourcing preserves what the next file needs: its names recorded, no command word aliased. */
  lemma SourcedReady(f: Generated, names: seq<string>, st: ShellState)
    requires Sourceable(f, st.shell) && NoneAliased(st)
    ensures var st' := Sourced(f.cfg, names, st);
            && ManagedVar() in st'.vars && st'.vars[ManagedVar()] == Join(Managed(f), " ")
            && ValidNames(Managed(f), st.shell) && NoneAliased(st') && Ifs(st') == Ifs(st) && st'.shell == st.shell
  {
    hide SortAliases, Guard, DistinctNames, DefineAll, CommandWord, ManagedVar, Join, LoopVar, Name, AliasOk,
         Recovered, Ifs;
    IfsStays(f.cfg, names, st);
    Variables();
    CleanAliases(f.cfg);
    SortedIncreasing(f.cfg);
    SortedHarmless(f.cfg);
    var sorted := SortAliases(f.cfg.aliases);
    var left := st.aliases - Set(Recovered(st, names));
    var m := DefineAll(sorted, left);
    forall w | w in m ensures !CommandWord(w, st.shell) {
      Defined(sorted, left, w);
    }
  }

  /** Each list of names that a file of the sequence has the shell remove comes apart under this IFS. */
  ghost predicate AllSplit(ifs: string, names: seq<string>, files: seq<Generated>)
    decreases |files|
  {
    Splits(ifs, names) && (|files| > 1 ==> AllSplit(ifs, Managed(files[0]), files[1..]))
  }

  /** Sourcing any sequence of generated files leaves exactly the aliases of the last one, none of
      the names managed earlier, and every alias that was never managed, in a shell whose IFS splits the
      recorded lists. */
  lemma {:induction false} SourceSequence(files: seq<Generated>, names: seq<string>, file: string, st: ShellState,
                                          x: string)
    returns (after: ShellState)
    requires files != [] && forall f :: f in files ==> Sourceable(f, st.shell)
    requires NoneAliased(st) && ValidNames(names, st.shell) && Removes(st, files[0].migrated, names)
    requires AllSplit(Ifs(st), names, files)
    ensures SourceAll(file, Texts(files), st) == Some(after)
    ensures HoldsOnly(files, st.aliases, names, after.aliases, x)
    ensures NoneAliased(after)
    decreases |files|
  {
    hide FileText, Source, Sourceable, SortAliases, HoldsOnly, Managed, NoneAliased, ManagedVar, Join, Name, Splits,
         Ifs, Sourced;
    var f, rest := files[0], files[1..];
    assert f in files;
    SourceOne(f, names, file, st, x);
    var st' := Sourced(f.cfg, names, st.(file := file));
    assert Texts(files)[0] == FileText(f.cfg, f.migrated) && Texts(files)[1..] == Texts(rest);
    if rest == [] {
      after := st';
      assert files == [f];
    } else {
      after := SourceSequence(rest, Managed(f), file, st', x);
      HoldsStep(f, rest, names, st.aliases, st'.aliases, after.aliases, x);
      assert files == [f] + rest;
    }
  }

  lemma SourceOne(f: Generated, names: seq<string>, file: string, st: ShellState, x: string)
    requires Sourceable(f, st.shell) && NoneAliased(st) && ValidNames(names, st.shell) && Removes(st, f.migrated, names)
    requires Splits(Ifs(st), names)
    ensures Source(file, FileText(f.cfg, f.migrated), st) == Some(Sourced(f.cfg, names, st.(file := file)))
    ensures HoldsOnly([f], st.aliases, names, Sourced(f.cfg, names, st.(file := file)).aliases, x)
    ensures var st' := Sourced(f.cfg, names, st.(file := file));
            && ManagedVar() in st'.vars && st'.vars[ManagedVar()] == Join(Managed(f), " ")
            && ValidNames(Managed(f), st.shell) && NoneAliased(st') && Ifs(st') == Ifs(st) && st'.shell == st.shell
  {
    hide FileText, Source, SortAliases, HoldsOnly, Managed, NoneAliased, ManagedVar, Join, Name, Guard, IsPosix,
         Splits, Ifs, Sourced;
    SameFile(file, st, names);
    SourceFile(f.cfg, f.migrated, names, file, st);
    OneFileHolds(f, names, st.(file := file), x);
    SourcedReady(f, names, st.(file := file));
  }

  lemma HoldsStep(f: Generated, rest: seq<Generated>, names: seq<string>, before: map<string, string>,
                  middle: map<string, string>, after: map<string, string>, x: string)
    requires rest != [] && HoldsOnly([f], before, names, middle, x) && HoldsOnly(rest, middle, Managed(f), after, x)
    ensures HoldsOnly([f] + rest, before, names, after, x)
  {
    hide SortAliases;
    assert ([f] + rest)[1..] == rest;
    assert EverDefined([f], x) == (x in Managed(f));
    assert EverDefined([f] + rest, x) == (x in Managed(f) || EverDefined(rest, x));
  }

  /** One file after another that defines none of its names, in any shell whatever: the second removes exactly
      what the shell makes of the list that the first recorded. */
  lemma SourcedBoth(first: Generated, second: Generated, names: seq<string>, file: string, st: ShellState)
      returns (after: ShellState)
    requires Sourceable(first, st.shell) && Sourceable(second, st.shell)
    requires NoneAliased(st) && ValidNames(names, st.shell) && Removes(st, first.migrated, names)
    requires forall n :: n in Managed(first) ==> n !in Managed(second)
    ensures SourceAll(file, Texts([first, second]), st) == Some(after)
    ensures var middle := Sourced(first.cfg, names, st.(file := file)).(file := file);
            && Ifs(middle) == Ifs(st) && ValidNames(Managed(first), st.shell)
            && forall n :: n in Managed(first) ==> (n in after.aliases <==> n !in Recovered(middle, Managed(first)))
  {
    hide FileText, Source, SortAliases, NoneAliased, ManagedVar, Join, Name, Guard, IsPosix, Splits, Ifs, Sourced,
         Recovered, Managed, AliasOk;
    var here := st.(file := file);
    SameFile(file, st, names);
    SourceFile(first.cfg, first.migrated, names, file, st);
    SourcedReady(first, names, here);
    var st' := Sourced(first.cfg, names, here);
    SourceFile(second.cfg, second.migrated, Managed(first), file, st');
    SameFile(file, st', Managed(first));
    var middle := st'.(file := file);
    after := Sourced(second.cfg, Managed(first), middle);
    TwoTexts(first, second);
    SourceTwo(file, FileText(first.cfg, first.migrated), FileText(second.cfg, second.migrated), st);
    forall n | n in Managed(first) ensures n in after.aliases <==> n !in Recovered(middle, Managed(first)) {
      HeldAfter(first, names, here, n);
      LeftAfter(second, Managed(first), middle, n);
    }
  }

  /** None of the first file's aliases survives exactly when IFS splits the list of their names. */
  lemma ReplacedExactly(first: Generated, second: Generated, names: seq<string>, file: string, st: ShellState)
      returns (after: ShellState)
    requires Sourceable(first, st.shell) && Sourceable(second, st.shell)
    requires NoneAliased(st) && ValidNames(names, st.shell) && Removes(st, first.migrated, names)
    requires forall n :: n in Managed(first) ==> n !in Managed(second)
    ensures SourceAll(file, Texts([first, second]), st) == Some(after)
    ensures (forall n :: n in Managed(first) ==> n !in after.aliases) <==> Splits(Ifs(st), Managed(first))
  {
    hide FileText, Source, SortAliases, NoneAliased, ManagedVar, Join, Name, Guard, IsPosix, Splits, Ifs, Sourced,
         Recovered, Managed, AliasOk, Texts, SourceAll;
    after := SourcedBoth(first, second, names, file, st);
    RecoveredExactly(Sourced(first.cfg, names, st.(file := file)).(file := file), Managed(first), st.shell);
  }

  lemma TwoTexts(first: Generated, second: Generated)
    ensures Texts([first, second]) == [FileText(first.cfg, first.migrated), FileText(second.cfg, second.migrated)]
  {
    hide FileText;
    assert [first, second][1..] == [second] && [second][1..] == [] && Texts([]) == [];
    assert Texts([second]) == [FileText(second.cfg, second.migrated)];
  }

  lemma SourceTwo(file: string, t1: string, t2: string, st: ShellState)
    ensures SourceAll(file, [t1, t2], st)
            == match Source(file, t1, st) case None => None case Some(st') => Source(file, t2, st')
  {
    hide Source;
    assert [t1, t2][1..] == [t2] && [t2][1..] == [];
    forall st': ShellState ensures SourceAll(file, [t2], st') == Source(file, t2, st') {
      assert SourceAll(file, [t2], st')
             == match Source(file, t2, st') case None => None case Some(st'') => SourceAll(file, [], st'');
    }
  }

  lemma HeldAfter(f: Generated, names: seq<string>, st: ShellState, x: string)
    requires Sourceable(f, st.shell) && x in Managed(f)
    ensures x in Sourced(f.cfg, names, st).aliases
  {
    hide SortAliases, Guard, DistinctNames, DefineAll, CommandWord, Recovered, Name;
    SortedIncreasing(f.cfg);
    Defined(SortAliases(f.cfg.aliases), st.aliases - Set(Recovered(st, names)), x);
  }

  lemma LeftAfter(f: Generated, names: seq<string>, st: ShellState, x: string)
    requires Sourceable(f, st.shell) && x !in Managed(f) && x in st.aliases
    ensures x in Sourced(f.cfg, names, st).aliases <==> x !in Recovered(st, names)
  {
    hide SortAliases, Guard, DistinctNames, DefineAll, CommandWord, Recovered, Name;
    SortedIncreasing(f.cfg);
    var left := st.aliases - Set(Recovered(st, names));
    Defined(SortAliases(f.cfg.aliases), left, x);
    SetHas(Recovered(st, names));
  }

  // ----- From an old file, through every sync -----

  /** The content of the generated file after each successful attempt. */
  function Outputs(env: Env, disk: Disk, attempts: seq<Attempt>): seq<string>
    decreases |attempts|
  {
    if attempts == [] then []
    else
      var (next, r) := SyncStep(env, disk, attempts[0]);
      (if r.Synced? && r.report.outputPath in next.files then [next.files[r.report.outputPath]] else [])
      + Outputs(env, next, attempts[1..])
  }

  /** The files that the successful attempts should have left. */
  function Expected(env: Env, disk: Disk, attempts: seq<Attempt>, names: seq<string>): seq<Generated>
    decreases |attempts|
  {
    if attempts == [] then []
    else
      var (next, r) := SyncStep(env, disk, attempts[0]);
      (if r.Synced? then [Generated(attempts[0].resolved.value, names)] else [])
        + Expected(env, next, attempts[1..], names)
  }

  lemma OneOutput(env: Env, disk: Disk, last: ResolvedConfig, names: seq<string>, a: Attempt)
    requires Renderable(last) && NameList(names, last.device.shell) && Carries(env, disk, last, names)
    requires SameShell([a], last.device.shell)
    requires CollisionFree(env.sha, [last] + Configs([a]), names)
    ensures var (next, r) := SyncStep(env, disk, a);
            r.Synced? ==> r.report.outputPath in next.files
                          && next.files[r.report.outputPath] == FileText(a.resolved.value, names)
  {
    hide FileText, Guard, NextText, HashText, CarriedNames, NameList, IsPosix, OutputPath, ValidShell;
    StepCarries(env, disk, last, names, a);
  }

  lemma {:induction false} OutputsAreFiles(env: Env, disk: Disk, last: ResolvedConfig, names: seq<string>,
                                           attempts: seq<Attempt>)
    requires Renderable(last) && NameList(names, last.device.shell) && Carries(env, disk, last, names)
    requires SameShell(attempts, last.device.shell)
    requires CollisionFree(env.sha, [last] + Configs(attempts), names)
    ensures Outputs(env, disk, attempts) == Texts(Expected(env, disk, attempts, names))
    ensures forall f :: f in Expected(env, disk, attempts, names) ==>
              && Renderable(f.cfg) && f.cfg.device.shell == last.device.shell
              && f.migrated == names && f.cfg in Configs(attempts)
    decreases |attempts|
  {
    hide FileText, Guard, SyncStep, HashText, NameList, IsPosix, Carries, LineSafe;
    if attempts != [] {
      var a, rest := attempts[0], attempts[1..];
      assert a in attempts && Configs([a]) + Configs(rest) == Configs(attempts);
      StepCarries(env, disk, last, names, a);
      OneOutput(env, disk, last, names, a);
      SyncedResolved(env, disk, a);
      var (next, r) := SyncStep(env, disk, a);
      var last' := if r.Synced? then a.resolved.value else last;
      OutputsAreFiles(env, next, last', names, rest);
      TextsMore(a.resolved, names, r.Synced?, Expected(env, next, rest, names));
    }
  }

  lemma TextsMore(resolved: Option<ResolvedConfig>, names: seq<string>, synced: bool, more: seq<Generated>)
    ensures !synced ==> [] + more == more && [] + Texts(more) == Texts(more)
    ensures resolved.Some? ==>
              Texts([Generated(resolved.value, names)] + more) == [FileText(resolved.value, names)] + Texts(more)
  {
    hide FileText;
    if resolved.Some? {
      assert ([Generated(resolved.value, names)] + more)[1..] == more;
    }
  }

  /** An old file of `legacy` on disk, as an earlier version left it. */
  ghost predicate OldFileOnDisk(disk: Disk, legacy: ResolvedConfig, sh: Shell) {
    && Renderable(legacy) && IsRevision(legacy.revision) && legacy.device.shell == sh && legacy.aliases != []
    && !HasControl(SanitizeComment(legacy.device.name)) && PlainDescriptions(SortAliases(legacy.aliases))
    && OutputPath(sh) in disk.files && disk.files[OutputPath(sh)] == LegacyText(legacy)
  }

  /** Attempts in one shell whose first succeeds, whose aliases shadow no word of a generated file, and none
      of whose files collides with another or with the old one. */
  ghost predicate ShellAttempts(env: Env, disk: Disk, legacy: ResolvedConfig, first: Attempt, attempts: seq<Attempt>,
                                sh: Shell)
  {
    && SameShell([first] + attempts, sh) && SyncStep(env, disk, first).1.Synced? && first.resolved.Some?
    && (forall c :: c in Configs([first] + attempts) ==> HarmlessNames(c.aliases, sh))
    && var names := Names(SortAliases(legacy.aliases));
    && CollisionFree(env.sha, Configs([first] + attempts), names)
    && (HashText(env.sha, LegacyText(legacy)) == HashText(env.sha, FileText(first.resolved.value, names)) ==>
          LegacyText(legacy) == FileText(first.resolved.value, names))
  }

  /** The first sync over the old file leaves a file that carries the old names, and a run to follow. */
  lemma JourneyStarts(env: Env, disk: Disk, legacy: ResolvedConfig, first: Attempt, attempts: seq<Attempt>,
                      sh: Shell)
    requires OldFileOnDisk(disk, legacy, sh) && ShellAttempts(env, disk, legacy, first, attempts, sh)
    ensures var names := Names(SortAliases(legacy.aliases));
            var cfg := first.resolved.value;
            && names != [] && ValidNames(names, sh) && NameList(names, sh)
            && Renderable(cfg) && cfg.device.shell == sh && Carries(env, SyncStep(env, disk, first).0, cfg, names)
            && Configs([first] + attempts) == [cfg] + Configs(attempts)
  {
    hide FileText, LegacyText, Guard, SyncStep, HashText, NameList, IsPosix, Carries, LineSafe, SortAliases,
         CollisionFree, PlainDescriptions, HasControl, ParseLegacy, ValidNames, OutputPath, HarmlessNames, Names,
         IsRevision;
    var names := Names(SortAliases(legacy.aliases));
    assert first in [first] + attempts && ([first] + attempts)[1..] == attempts;
    LegacyRecognised(legacy);
    OldNames(legacy, sh);
    MigrationStarts(env, disk, LegacyText(legacy), names, first);
  }

  /** The files left by the run are those to expect, and each can be sourced. */
  lemma JourneyFiles(env: Env, disk: Disk, legacy: ResolvedConfig, first: Attempt, attempts: seq<Attempt>,
                      sh: Shell)
    requires OldFileOnDisk(disk, legacy, sh) && ShellAttempts(env, disk, legacy, first, attempts, sh)
    ensures var names := Names(SortAliases(legacy.aliases));
            var files := Expected(env, disk, [first] + attempts, names);
            && ValidNames(names, sh) && files != [] && files[0].migrated == names
            && Outputs(env, disk, [first] + attempts) == Texts(files)
            && forall f :: f in files ==> Sourceable(f, sh) && f.cfg in Configs([first] + attempts)
  {
    hide FileText, SyncStep, HashText, NameList, Carries, LineSafe, SortAliases, CollisionFree, OldFileOnDisk,
         Outputs, Expected, ValidNames, HarmlessNames, Names, Renderable, LegacyText;
    var names, cfg := Names(SortAliases(legacy.aliases)), first.resolved.value;
    JourneyStarts(env, disk, legacy, first, attempts, sh);
    FirstOutput(env, disk, first, attempts, names);
    assert forall a :: a in attempts ==> a in [first] + attempts;
    var next := SyncStep(env, disk, first).0;
    OutputsAreFiles(env, next, cfg, names, attempts);
    var more := Expected(env, next, attempts, names);
    var files := [Generated(cfg, names)] + more;
    TextsMore(first.resolved, names, true, more);
    forall f | f in files ensures Sourceable(f, sh) && f.cfg in Configs([first] + attempts) {
      assert f.cfg in Configs([first] + attempts);
    }
  }

  /** The journey.  A new shell sources the generated file after every successful sync, from the first
      one over an old file on.  In the end it has exactly the aliases of the last configuration, none
      of the old file's, none of those in between, and all of its own.  Its IFS is one that splits the
      lists of names, as the default does. */
  lemma OldFileJourney(env: Env, disk: Disk, legacy: ResolvedConfig, first: Attempt, attempts: seq<Attempt>,
                       file: string, st: ShellState, x: string)
      returns (after: ShellState)
    requires OldFileOnDisk(disk, legacy, st.shell) && ShellAttempts(env, disk, legacy, first, attempts, st.shell)
    requires NoneAliased(st) && ManagedVar() !in st.vars
    requires Splits(Ifs(st), Names(SortAliases(legacy.aliases)))
    requires forall c :: c in Configs([first] + attempts) ==> Splits(Ifs(st), Names(SortAliases(c.aliases)))
    ensures SourceAll(file, Outputs(env, disk, [first] + attempts), st) == Some(after)
    ensures var names := Names(SortAliases(legacy.aliases));
            var files := Expected(env, disk, [first] + attempts, names);
            files != [] && HoldsOnly(files, st.aliases, names, after.aliases, x)
  {
    hide *;
    var names := Names(SortAliases(legacy.aliases));
    JourneyFiles(env, disk, legacy, first, attempts, st.shell);
    NewShell(st, names);
    var files := Expected(env, disk, [first] + attempts, names);
    SplitEach(Ifs(st), names, files, Configs([first] + attempts));
    after := SourceSequence(files, names, file, st, x);
  }

  lemma {:induction false} SplitEach(ifs: string, names: seq<string>, files: seq<Generated>, cfgs: seq<ResolvedConfig>)
    requires Splits(ifs, names) && forall f :: f in files ==> f.cfg in cfgs
    requires forall c :: c in cfgs ==> Splits(ifs, Names(SortAliases(c.aliases)))
    ensures AllSplit(ifs, names, files)
    decreases |files|
  {
    hide Splits, Names, SortAliases;
    if |files| > 1 {
      assert files[0] in files;
      SplitEach(ifs, Managed(files[0]), files[1..], cfgs);
    }
  }

  lemma NewShell(st: ShellState, names: seq<string>)
    requires ManagedVar() !in st.vars
    ensures Removes(st, names, names)
  {
  }

  lemma OldNames(cfg: ResolvedConfig, sh: Shell)
    requires Renderable(cfg) && cfg.device.shell == sh && cfg.aliases != []
    ensures Names(SortAliases(cfg.aliases)) != [] && ValidNames(Names(SortAliases(cfg.aliases)), sh)
  {
    hide Guard, SortAliases;
    CleanAliases(cfg);
    SortSorts(cfg.aliases);
    NamesIn(SortAliases(cfg.aliases));
  }

  lemma FirstOutput(env: Env, disk: Disk, first: Attempt, attempts: seq<Attempt>, names: seq<string>)
    requires SyncStep(env, disk, first).1.Synced? && first.resolved.Some?
    requires Carries(env, SyncStep(env, disk, first).0, first.resolved.value, names)
    ensures var next := SyncStep(env, disk, first).0;
            && Outputs(env, disk, [first] + attempts)
               == [FileText(first.resolved.value, names)] + Outputs(env, next, attempts)
            && Expected(env, disk, [first] + attempts, names)
               == [Generated(first.resolved.value, names)] + Expected(env, next, attempts, names)
  {
    hide FileText, HashText, OutputPath, NextText, IsPosix, Guard, ValidShell;
    assert ([first] + attempts)[1..] == attempts;
  }
}
