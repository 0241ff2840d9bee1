/** Inputs on which the program does not do what it promises: for every condition that an exact result about
    rendering, importing, filtering, installing, syncing or sourcing names, one that does not meet it.  The
    interleavings that break the one-token invariant are in module `Handlers`. */
module Failures {
  import opened Text
  import opened Domain
  import opened Validate
  import opened Posix
  import opened FileFacts
  import opened Legacy
  import opened OldFormat
  import opened Importer
  import opened RoundTrip
  import opened Sync
  import opened Sourcing
  import SourcingRuns
  import opened FieldSplitting
  import B = Bootstrap

  function OneAlias(name: string, description: string): Alias {
    Alias("", name, "b", description, true, [], [], [], [], [])
  }

  /** An unnamed bash device on Linux, with one alias. */
  function Sample(name: string, description: string): ResolvedConfig {
    ResolvedConfig("0123456789ab", Device("", "", "linux", BASH, []), [OneAlias(name, description)])
  }

  // ----- The sample is an ordinary configuration -----

  /** Text that is printed in a comment as it stands. */
  lemma Printed(d: string)
    requires |d| <= MAX_DESCRIPTION_LEN && forall c :: c in d ==> ' ' <= c && c != '\U{007F}'
    requires d == "" || (!IsSpace(d[0]) && !IsSpace(d[|d| - 1]))
    ensures Description(d).None? && SanitizeComment(d) == d
  {
    hide IsSpace, TrimSpace, CleanControls;
    NothingCleaned(d);
    TrimSpaceKeeps(d);
  }

  lemma {:induction false} NothingCleaned(d: string)
    requires forall c :: c in d ==> ' ' <= c && c != '\U{007F}'
    ensures CleanControls(d) == d
  {
    if d != "" {
      var tail := d[1..];
      forall c | c in tail ensures ' ' <= c && c != '\U{007F}' {
        assert c in d;
      }
      NothingCleaned(tail);
      assert d[0] in d && d == [d[0]] + tail;
    }
  }

  lemma SampleSorted(name: string, description: string)
    ensures SortAliases(Sample(name, description).aliases) == [OneAlias(name, description)]
    ensures Names([OneAlias(name, description)]) == [name]
  {
    var a := OneAlias(name, description);
    assert [a][1..] == [] && SortAliases([]) == [] && Insert(a, []) == [a] && Names([]) == [];
  }

  lemma CommandAccepted()
    ensures Command("b").None? && Name("a", BASH).None?
  {
    TrimSpaceKeeps("b");
  }

  lemma SampleRenderable(description: string)
    requires Description(description).None?
    ensures Renderable(Sample("a", description)) && IsRevision("0123456789ab")
  {
    hide Command, Name, Description, Guard;
    var cfg := Sample("a", description);
    CommandAccepted();
    GuardMeansClean(cfg);
    RevisionAccepted();
  }

  lemma RevisionAccepted()
    ensures IsRevision("0123456789ab") && LineSafe("0123456789ab")
  {
  }

  // ----- A description that looks like the begin marker -----

  lemma MarkerPrinted()
    ensures Description(BeginText()).None? && SanitizeComment(BeginText()) == BeginText()
  {
    Printed(BeginText());
  }

  /** An accepted configuration whose generated file does not import completely. */
  lemma DisguisedDescription()
    ensures var cfg := Sample("a", BeginText());
            && Renderable(cfg) && !NoDisguise(SortAliases(cfg.aliases))
            && !Yields(ParsedFile(FileText(cfg, [])), Pairs(SortAliases(cfg.aliases)))
  {
    hide BeginText, Description, SanitizeComment, Renderable, FileText, ParsedFile, Yields, Pairs, SortAliases;
    var cfg := Sample("a", BeginText());
    MarkerPrinted();
    SampleRenderable(BeginText());
    SampleSorted("a", BeginText());
    assert OneAlias("a", BeginText()) in SortAliases(cfg.aliases);
    FileRoundTrip(cfg, []);
  }

  // ----- A description with a control character outside ASCII -----

  lemma NextLinePrinted()
    ensures Description("x\U{0085}y").None? && HasControl(SanitizeComment("x\U{0085}y"))
  {
    var d := "x\U{0085}y";
    Printed(d);
    assert d[1] in d && IsControl(d[1]);
  }

  /** An accepted configuration whose old file is not recognised, so that its aliases are never removed. */
  lemma UnrecognisedOldFile()
    ensures var cfg := Sample("a", "x\U{0085}y");
            Renderable(cfg) && IsRevision(cfg.revision) && ParseLegacy(LegacyText(cfg), BASH) == None
  {
    hide Description, SanitizeComment, HasControl, Renderable, LegacyText, ParseLegacy, SortAliases, IsRevision;
    var d := "x\U{0085}y";
    var cfg := Sample("a", d);
    NextLinePrinted();
    SampleRenderable(d);
    SampleSorted("a", d);
    assert OneAlias("a", d) in SortAliases(cfg.aliases);
    LegacyRecognised(cfg);
  }

  /** The same for the name of the device. */
  lemma UnrecognisedDevice()
    ensures var cfg := Named("x\U{0085}y");
            Renderable(cfg) && IsRevision(cfg.revision) && ParseLegacy(LegacyText(cfg), BASH) == None
  {
    hide Description, SanitizeComment, HasControl, LegacyText, ParseLegacy, SortAliases, IsRevision, Command, Name,
         Guard;
    NextLinePrinted();
    Printed("");
    CommandAccepted();
    RevisionAccepted();
    GuardMeansClean(Named("x\U{0085}y"));
    LegacyRecognised(Named("x\U{0085}y"));
  }

  /** The sample with a device name. */
  function Named(device: string): ResolvedConfig {
    var cfg := Sample("a", "");
    cfg.(device := cfg.device.(name := device))
  }

  // ----- Configurations that the filter cannot save -----

  /** A known device and a single alias: the filter keeps it, and nothing can be rendered. */
  lemma UnnamedAlias()
    ensures var cfg := Sample("", "");
            && ValidPlatform(cfg.device.platform) && ValidShell(cfg.device.shell)
            && |Filtered(cfg).aliases| <= MAX_ALIASES && !Guard(Filtered(cfg))
  {
    hide ConfigIssues, Blocked, Guard;
    var cfg := Sample("", "");
    assert OneAlias("", "") in cfg.aliases;
    FilterMakesRenderable(cfg);
    KeptAtMost(cfg.aliases, Blocked(ConfigIssues(cfg)));
  }

  lemma {:induction false} KeptAtMost(aliases: seq<Alias>, blocked: set<string>)
    ensures |Keep(aliases, blocked)| <= |aliases|
  {
    if aliases != [] {
      KeptAtMost(aliases[1..], blocked);
    }
  }

  /** An unknown platform. */
  lemma UnknownDevice()
    ensures var cfg := Sample("a", "");
            var unknown := cfg.(device := cfg.device.(platform := "plan9"));
            && (forall a :: a in unknown.aliases ==> a.name != "") && |Filtered(unknown).aliases| <= MAX_ALIASES
            && !Guard(Filtered(unknown))
  {
    hide ConfigIssues, Blocked, Guard;
    var cfg := Sample("a", "");
    var unknown := cfg.(device := cfg.device.(platform := "plan9"));
    FilterMakesRenderable(unknown);
    KeptAtMost(unknown.aliases, Blocked(ConfigIssues(unknown)));
  }

  // ----- One alias too many -----

  /** The names a0, a1, ... below n. */
  function Many(n: nat): (aliases: seq<Alias>)
    ensures |aliases| == n
    ensures forall i :: 0 <= i < n ==> aliases[i] == OneAlias("a" + Itoa(i), "")
  {
    if n == 0 then [] else Many(n - 1) + [OneAlias("a" + Itoa(n - 1), "")]
  }

  lemma ShortNumber(n: nat)
    requires n < 10000
    ensures |Itoa(n)| <= 4
  {
    assert n / 10 < 1000 && n / 10 / 10 < 100 && n / 10 / 10 / 10 < 10;
    if n >= 10 {
      assert |Itoa(n)| == |Itoa(n / 10)| + 1;
      if n / 10 >= 10 {
        assert |Itoa(n / 10)| == |Itoa(n / 10 / 10)| + 1;
        if n / 10 / 10 >= 10 {
          assert |Itoa(n / 10 / 10)| == |Itoa(n / 10 / 10 / 10)| + 1;
        }
      }
    }
  }

  lemma NumberedName(n: nat)
    requires n < 10000
    ensures Name("a" + Itoa(n), BASH).None?
  {
    hide Itoa;
    ShortNumber(n);
    var name := "a" + Itoa(n);
    assert name[0] == 'a' && name[1] == Itoa(n)[0] && Itoa(n)[0] in Itoa(n);
    NumbersUnreserved(name);
  }

  /** No reserved word has a digit behind its first letter. */
  lemma NumbersUnreserved(name: string)
    requires |name| > 1 && IsDigit(name[1])
    ensures name !in PosixReserved()
  {
  }

  lemma NumbersDiffer(i: nat, j: nat)
    requires i != j
    ensures "a" + Itoa(i) != "a" + Itoa(j)
  {
    hide Itoa;
    AtoiItoa(i);
    AtoiItoa(j);
    assert ("a" + Itoa(i))[1..] == Itoa(i) && ("a" + Itoa(j))[1..] == Itoa(j);
  }

  lemma NumberedAlias(n: nat)
    requires n < 10000
    ensures AliasOk(OneAlias("a" + Itoa(n), ""), BASH)
  {
    hide Name, Command, Description, Itoa;
    CommandAccepted();
    Printed("");
    NumberedName(n);
  }

  lemma BashKey(name: string)
    ensures DuplicateKey(name, BASH) == name
  {
  }

  lemma ManyAccepted(n: nat, k: int)
    requires n < 10000 && 0 <= k < n
    ensures EntryOk(Many(n), BASH, {}, k)
  {
    hide AliasOk, DuplicateKey, Itoa, Many;
    var aliases := Many(n);
    NumberedAlias(k);
    BashKey(aliases[k].name);
    forall j | 0 <= j < k ensures DuplicateKey(aliases[j].name, BASH) != DuplicateKey(aliases[k].name, BASH) {
      NumbersDiffer(j, k);
      BashKey(aliases[j].name);
    }
  }

  /** More aliases than the limit, each of them valid: the filter keeps all, and nothing can be rendered. */
  lemma TooMany()
    ensures var cfg := Sample("a", "").(aliases := Many(MAX_ALIASES + 1));
            && ValidPlatform(cfg.device.platform) && ValidShell(cfg.device.shell)
            && (forall a :: a in cfg.aliases ==> a.name != "")
            && Filtered(cfg) == cfg && !Guard(Filtered(cfg))
  {
    hide ConfigIssues, Blocked, Guard, Many, EntryOk, Itoa;
    var n := MAX_ALIASES + 1;
    var cfg := Sample("a", "").(aliases := Many(n));
    forall k | 0 <= k < n ensures EntryOk(cfg.aliases, BASH, {}, k) {
      ManyAccepted(n, k);
    }
    forall a | a in cfg.aliases ensures a.name !in Blocked(ConfigIssues(cfg)) && a.name != "" {
      BlockedExactly(cfg, a.name);
    }
    KeepAll(cfg.aliases, Blocked(ConfigIssues(cfg)));
    FilterMakesRenderable(cfg);
  }

  // ----- An installation whose record is not saved -----

  /** A missing rc file: the block is added but not recorded, and uninstalling does not remove it. */
  lemma UnsavedInstallation()
    ensures var runs := [B.Install("x", false, B.FINE, true)];
            var (after, record) := B.InstalledAll(None, None, runs);
            B.Uninstalled(after, record, B.FINE, false).0 != Some("")
  {
    hide B.InstalledAll, B.Uninstalled;
    B.InstallUninstall(None, [B.Install("x", false, B.FINE, true)]);
  }

  // ----- Shells that do not split at blanks -----

  /** A shell that has sourced a file with the aliases x and y. */
  function Holding(sh: Shell, wordSplit: bool, ifs: map<string, string>): ShellState {
    ShellState(sh, wordSplit, map["x" := "1", "y" := "2"], ifs + map[ManagedVar() := "x y"], {}, [], "")
  }

  lemma HoldingIs(sh: Shell, wordSplit: bool, ifs: map<string, string>)
    ensures var st := Holding(sh, wordSplit, ifs);
            && st.shell == sh && st.wordSplit == wordSplit && st.aliases.Keys == {"x", "y"} && NoneAliased(st)
            && ManagedVar() in st.vars && st.vars[ManagedVar()] == Join(["x", "y"], " ")
            && (ifs == map["IFS" := "\n"] && sh == BASH ==> Ifs(st) == "\n")
  {
    hide ManagedVar;
    Variables();
    assert |AddHook()| > 1 && |Reload()| > 1;
    assert ["x", "y"][1..] == ["y"] && Join(["y"], " ") == "y";
    assert Join(["x", "y"], " ") == "x" + " " + "y" == "x y";
  }

  lemma TwoNames(sh: Shell)
    requires IsPosix(sh)
    ensures ValidNames(["x", "y"], sh)
  {
    hide Name;
    LetterAccepted("x", sh);
    LetterAccepted("y", sh);
  }

  lemma LetterAccepted(name: string, sh: Shell)
    requires |name| == 1 && IsLetter(name[0]) && IsPosix(sh)
    ensures Name(name, sh).None? && !CommandWord(name, sh)
  {
    assert name !in PosixReserved();
    assert |AddHook()| > 1 && |Reload()| > 1;
  }

  lemma OneField(ifs: string)
    requires ifs == "" || ifs == "\n"
    ensures Split("x y", ifs) == ["x y"]
  {
    hide Split, SkipDelimiter;
    FirstField("x y", "", ifs);
    NothingSplits(ifs);
    assert "x y" + "" == "x y";
  }

  function SampleFor(sh: Shell): ResolvedConfig {
    Sample("a", "").(device := Device("", "", "linux", sh, []))
  }

  lemma SampleForRenderable(sh: Shell)
    requires IsPosix(sh)
    ensures Renderable(SampleFor(sh)) && HarmlessNames(SampleFor(sh).aliases, sh)
    ensures SortAliases(SampleFor(sh).aliases) == [OneAlias("a", "")]
  {
    hide Command, Name, Description, Guard, CommandWord, SanitizeComment, SortAliases;
    CommandAccepted();
    LetterAccepted("a", sh);
    Printed("");
    GuardMeansClean(SampleFor(sh));
    RevisionAccepted();
    SampleSorted("a", "");
  }

  /** Sourcing the next file removes neither x nor y: the loop takes the whole list for one name. */
  lemma WholeListKept(st: ShellState, file: string)
    requires IsPosix(st.shell) && NoneAliased(st) && st.aliases.Keys == {"x", "y"}
    requires ManagedVar() in st.vars && st.vars[ManagedVar()] == Join(["x", "y"], " ")
    requires Ifs(st) == "" || Ifs(st) == "\n"
    ensures var r := Source(file, FileText(SampleFor(st.shell), []), st);
            r.Some? && "x" in r.value.aliases && "y" in r.value.aliases
  {
    hide FileText, Source, Renderable, SortAliases, Split, Ifs, Join, ManagedVar, NoneAliased, IsPosix, CommandWord,
         Hooked, Name;
    var cfg, here := SampleFor(st.shell), st.(file := file);
    SampleForRenderable(st.shell);
    TwoNames(st.shell);
    JoinedNames();
    SourceFile(cfg, [], ["x", "y"], file, st);
    SourcingRuns.SameFile(file, st, ["x", "y"]);
    OneField(Ifs(st));
    var left := st.aliases - Set(["x y"]);
    assert Recovered(here, ["x", "y"]) == ["x y"];
    SetHas(["x y"]);
    DefinesOne(left);
    SourcedAliases(cfg, ["x", "y"], here);
  }

  lemma SourcedAliases(cfg: ResolvedConfig, names: seq<string>, st: ShellState)
    ensures Sourced(cfg, names, st).aliases
            == DefineAll(SortAliases(cfg.aliases), st.aliases - Set(Recovered(st, names)))
  {
    hide SortAliases, DefineAll, Recovered, Join;
  }

  lemma JoinedNames()
    ensures Join(["x", "y"], " ") == "x y"
  {
    assert ["x", "y"][1..] == ["y"] && Join(["y"], " ") == "y";
    assert Join(["x", "y"], " ") == "x" + " " + "y" == "x y";
  }

  /** A bash whose IFS is a line break keeps both. */
  lemma LineShellKeepsAliases()
    ensures var st := Holding(BASH, true, map["IFS" := "\n"]);
            var r := Source("aliases.bash", FileText(SampleFor(BASH), []), st);
            r.Some? && "x" in r.value.aliases && "y" in r.value.aliases
  {
    hide Holding, FileText, Source, Ifs, Join, ManagedVar, NoneAliased;
    HoldingIs(BASH, true, map["IFS" := "\n"]);
    WholeListKept(Holding(BASH, true, map["IFS" := "\n"]), "aliases.bash");
  }

  /** So does a zsh with its default options. */
  lemma DefaultZshKeepsAliases()
    ensures var r := Source("aliases.zsh", FileText(SampleFor(ZSH), []), Holding(ZSH, false, map[]));
            r.Some? && "x" in r.value.aliases && "y" in r.value.aliases
  {
    hide Holding, FileText, Source, Join, ManagedVar, NoneAliased;
    HoldingIs(ZSH, false, map[]);
    WholeListKept(Holding(ZSH, false, map[]), "aliases.zsh");
  }

  lemma DefinesOne(m: map<string, string>)
    ensures DefineAll([OneAlias("a", "")], m) == m["a" := "b"]
  {
    assert [OneAlias("a", "")][1..] == [];
  }

  // ----- A migration whose record is not saved -----

  /** No sync has been recorded yet. */
  const NO_STATE := State("", "", "", 0, "", "", SourceInfo("", "", false, 0), 0, None)

  /** The sample's old file on disk, and no state. */
  function OldDisk(): Disk {
    Disk(map[OutputPath(BASH) := LegacyText(Sample("a", ""))], NO_STATE)
  }

  function SyncOf(cfg: ResolvedConfig, saveFails: bool): Attempt {
    Attempt(Some(cfg), SourceInfo("", "", false, 0), 0, Faults(false, false, false, saveFails))
  }

  lemma SampleRecognised()
    ensures Renderable(Sample("a", "")) && ParseLegacy(LegacyText(Sample("a", "")), BASH) == Some(["a"])
  {
    hide SanitizeComment, HasControl, Renderable, LegacyText, ParseLegacy, SortAliases, IsRevision, Description;
    Printed("");
    SampleRenderable("");
    SampleSorted("a", "");
    assert !HasControl("") by { EmptyPlain(); }
    LegacyRecognised(Sample("a", ""));
  }

  /** The generated bash file on disk. */
  predicate Left(disk: Disk, text: string) {
    OutputPath(BASH) in disk.files && disk.files[OutputPath(BASH)] == text
  }

  /** The first sync over an old file writes it but cannot save the state.  The old file's names were to be
      carried, and the file carries them, but the next sync, which succeeds, writes one without them. */
  lemma UnsavedMigration(env: Env)
    ensures var cfg := Sample("a", "");
            var (unsaved, failed) := SyncStep(env, OldDisk(), SyncOf(cfg, true));
            var (later, r) := SyncStep(env, unsaved, SyncOf(cfg, false));
            && CarriedNames(env, OldDisk(), BASH) == ["a"] && failed == Failed(SaveFailed)
            && Left(unsaved, FileText(cfg, ["a"])) && CarriedNames(env, unsaved, BASH) == []
            && r.Synced? && Left(later, FileText(cfg, []))
  {
    hide *;
    var cfg := Sample("a", "");
    SampleShell();
    SampleRecognised();
    OldNamesCarried(env);
    NothingRecorded();
    FirstWrite(env, OldDisk(), cfg, true);
    var unsaved := SyncStep(env, OldDisk(), SyncOf(cfg, true)).0;
    SyncOfIs(cfg, true);
    SaveFailure(env, OldDisk(), SyncOf(cfg, true));
    FirstWrite(env, unsaved, cfg, false);
  }

  lemma NothingRecorded()
    ensures OldDisk().state.outputHash == ""
  {
  }

  lemma SyncOfIs(cfg: ResolvedConfig, saveFails: bool)
    ensures SyncOf(cfg, saveFails).resolved == Some(cfg)
  {
  }

  lemma OldNamesCarried(env: Env)
    ensures CarriedNames(env, OldDisk(), BASH) == ["a"]
  {
    hide LegacyText, ParseLegacy, OutputPath, Sample, Renderable;
    SampleRecognised();
  }

  /** While no output hash is recorded, a sync writes the file that carries the names to carry. */
  lemma FirstWrite(env: Env, disk: Disk, cfg: ResolvedConfig, saveFails: bool)
    requires Renderable(cfg) && cfg.device.shell == BASH && disk.state.outputHash == ""
    ensures var (after, r) := SyncStep(env, disk, SyncOf(cfg, saveFails));
            && Left(after, FileText(cfg, CarriedNames(env, disk, BASH)))
            && (if saveFails then r == Failed(SaveFailed) && after.state == disk.state else r.Synced?)
  {
    hide FileText, ParseLegacy, ParseMigration, Guard, OutputPath, NextText, HashText, IsPosix, LineSafe,
         CarriedNames, ValidShell;
    assert IsPosix(BASH) && ValidShell(BASH) by { KnownShell(); }
    NextIsFile(env, disk, cfg);
  }

  lemma KnownShell()
    ensures IsPosix(BASH) && ValidShell(BASH)
  {
  }

  lemma SampleShell()
    ensures var cfg := Sample("a", "");
            cfg.device.shell == BASH && LineSafe(cfg.revision) && IsPosix(BASH) && ValidShell(BASH)
  {
    RevisionAccepted();
  }
}
