/** The prompt hook of zsh: a shell that once sourced the generated file follows it from prompt to prompt,
    and what becomes of earlier aliases where expansions are not split. */
module ZshPrompt {
  import opened Text
  import opened Domain
  import opened Validate
  import opened Posix
  import opened FileFacts
  import opened OldFormat
  import opened FieldSplitting
  import opened Sourcing
  import opened SourcingRuns

  // ----- Before each prompt -----

  /** `[ -r "$V" ] && . "$V"`, the body of the function that the files define. */
  function RunReload(disk: map<string, string>, st: ShellState): Option<ShellState> {
    if FileVar() !in st.vars || st.vars[FileVar()] !in disk then Some(st)
    else Source(st.vars[FileVar()], disk[st.vars[FileVar()]], st)
  }

  /** The hooks in turn.  Those of the user are outside this semantics and leave the state alone. */
  function RunEach(hooks: seq<string>, disk: map<string, string>, st: ShellState): Option<ShellState>
    decreases |hooks|
  {
    if hooks == [] then Some(st)
    else if hooks[0] != Reload() || Reload() !in st.functions then RunEach(hooks[1..], disk, st)
    else
      match RunReload(disk, st)
      case None => None
      case Some(next) => RunEach(hooks[1..], disk, next)
  }

  function Prompt(disk: map<string, string>, st: ShellState): Option<ShellState> {
    RunEach(st.hooks, disk, st)
  }

  /** One prompt after another, with the given text in the file before each. */
  function Prompts(file: string, texts: seq<string>, st: ShellState): Option<ShellState> {
    if texts == [] then Some(st)
    else
      match Prompt(map[file := texts[0]], st)
      case None => None
      case Some(next) => Prompts(file, texts[1..], next)
  }

  function Times(hooks: seq<string>, hook: string): nat {
    if hooks == [] then 0 else (if hooks[0] == hook then 1 else 0) + Times(hooks[1..], hook)
  }

  /** The function is defined, names this file, and is registered once. */
  ghost predicate Registered(st: ShellState, file: string) {
    && st.shell == ZSH && Reload() in st.functions && Times(st.hooks, Reload()) == 1
    && FileVar() in st.vars && st.vars[FileVar()] == file
  }

  lemma {:induction false} TimesAppend(a: seq<string>, b: seq<string>, hook: string)
    ensures Times(a + b, hook) == Times(a, hook) + Times(b, hook)
  {
    if a == [] {
      assert a + b == b;
    } else {
      assert (a + b)[1..] == a[1..] + b;
      TimesAppend(a[1..], b, hook);
    }
  }

  lemma {:induction false} TimesNone(hooks: seq<string>, hook: string)
    ensures Times(hooks, hook) == 0 <==> hook !in hooks
  {
    if hooks != [] {
      TimesNone(hooks[1..], hook);
    }
  }

  lemma {:induction false} WithoutAbsent(hooks: seq<string>, hook: string)
    requires hook !in hooks
    ensures Without(hooks, hook) == hooks
  {
    if hooks != [] {
      WithoutAbsent(hooks[1..], hook);
    }
  }

  lemma {:induction false} WithoutAppend(a: seq<string>, b: seq<string>, hook: string)
    ensures Without(a + b, hook) == Without(a, hook) + Without(b, hook)
  {
    if a == [] {
      assert a + b == b;
    } else {
      assert (a + b)[1..] == a[1..] + b;
      WithoutAppend(a[1..], b, hook);
    }
  }

  /** However often the file was sourced before, its hook is registered once, behind the user's hooks, which
      stay as they were. */
  lemma SourcedRegisters(f: Generated, names: seq<string>, file: string, st: ShellState)
    requires st.shell == ZSH
    ensures var after := Sourced(f.cfg, names, st.(file := file));
            && Registered(after, file)
            && Without(after.hooks, Reload()) == Without(st.hooks, Reload())
            && (st.shell == after.shell && st.wordSplit == after.wordSplit)
  {
    hide Join, SortAliases, DefineAll, Split, LoopVar, ManagedVar, FileVar, Reload, AddHook, Without;
    var others := Without(st.hooks, Reload());
    WithoutAbsent(others, Reload());
    WithoutAppend(others, [Reload()], Reload());
    assert Without([Reload()], Reload()) == [] by { OneDropped(Reload()); }
    assert others + [] == others;
    TimesNone(others, Reload());
    TimesAppend(others, [Reload()], Reload());
    OneTime(Reload());
  }

  lemma OneDropped(hook: string)
    ensures Without([hook], hook) == []
  {
  }

  lemma OneTime(hook: string)
    ensures Times([hook], hook) == 1
  {
    assert [hook][1..] == [];
  }

  lemma {:induction false} NoReload(hooks: seq<string>, disk: map<string, string>, st: ShellState)
    requires Times(hooks, Reload()) == 0
    ensures RunEach(hooks, disk, st) == Some(st)
  {
    hide Reload, RunReload;
    if hooks != [] {
      NoReload(hooks[1..], disk, st);
    }
  }

  lemma {:induction false} OneReload(hooks: seq<string>, disk: map<string, string>, st: ShellState)
    requires Times(hooks, Reload()) == 1 && Reload() in st.functions
    ensures RunEach(hooks, disk, st) == RunReload(disk, st)
  {
    hide Reload, RunReload;
    if hooks[0] != Reload() {
      OneReload(hooks[1..], disk, st);
    } else if RunReload(disk, st).Some? {
      NoReload(hooks[1..], disk, RunReload(disk, st).value);
    }
  }

  /** A prompt of a registered shell sources the file once if it is there, and otherwise does nothing. */
  lemma PromptIsSourcing(file: string, disk: map<string, string>, st: ShellState)
    requires Registered(st, file)
    ensures Prompt(disk, st) == if file in disk then Source(file, disk[file], st) else Some(st)
  {
    hide Source, Reload;
    OneReload(st.hooks, disk, st);
  }

  /** A shell that sourced the file once follows it: each prompt picks up what the file then holds, exactly as
      sourcing it by hand would. */
  lemma {:induction false} PromptsFollow(files: seq<Generated>, names: seq<string>, file: string, st: ShellState)
    requires Registered(st, file) && NoneAliased(st) && ValidNames(names, ZSH)
    requires ManagedVar() in st.vars && st.vars[ManagedVar()] == Join(names, " ")
    requires forall f :: f in files ==> Sourceable(f, ZSH)
    ensures Prompts(file, Texts(files), st) == SourceAll(file, Texts(files), st)
    ensures SourceAll(file, Texts(files), st).Some? && Registered(SourceAll(file, Texts(files), st).value, file)
    decreases |files|
  {
    hide FileText, Source, Prompt, Sourceable, NoneAliased, Registered, ManagedVar, Join, Name, Managed, Sourced, Ifs,
         Splits, HoldsOnly;
    if files != [] {
      var f, rest := files[0], files[1..];
      var text := FileText(f.cfg, f.migrated);
      assert f in files && Texts(files)[0] == text && Texts(files)[1..] == Texts(rest);
      NextFile(f, names, file, st);
      var next := Sourced(f.cfg, names, st.(file := file));
      PromptIsSourcing(file, map[file := text], st);
      PromptsFollow(rest, Managed(f), file, next);
    }
  }

  /** One more file in a registered shell, whatever its IFS. */
  lemma NextFile(f: Generated, names: seq<string>, file: string, st: ShellState)
    requires Registered(st, file) && NoneAliased(st) && ValidNames(names, ZSH) && Sourceable(f, ZSH)
    requires ManagedVar() in st.vars && st.vars[ManagedVar()] == Join(names, " ")
    ensures var next := Sourced(f.cfg, names, st.(file := file));
            && Source(file, FileText(f.cfg, f.migrated), st) == Some(next)
            && Registered(next, file) && NoneAliased(next) && ValidNames(Managed(f), ZSH)
            && ManagedVar() in next.vars && next.vars[ManagedVar()] == Join(Managed(f), " ")
  {
    hide FileText, Source, SortAliases, NoneAliased, ManagedVar, Join, Name, Guard, IsPosix, Splits, Ifs, Sourced,
         Managed;
    SameFile(file, st, names);
    SourceFile(f.cfg, f.migrated, names, file, st);
    SourcedReady(f, names, st.(file := file));
    SourcedRegisters(f, names, file, st);
  }

  // ----- Sourcing the same file again -----

  lemma {:induction false} DefineSame(aliases: seq<Alias>, m1: map<string, string>, m2: map<string, string>)
    requires forall x :: x !in Names(aliases) ==> (x in m1 <==> x in m2) && (x in m1 ==> m1[x] == m2[x])
    ensures DefineAll(aliases, m1) == DefineAll(aliases, m2)
    decreases |aliases|
  {
    if aliases == [] {
      assert m1 == m2;
    } else {
      var a := aliases[0];
      assert Names(aliases) == [a.name] + Names(aliases[1..]);
      DefineSame(aliases[1..], m1[a.name := a.command], m2[a.name := a.command]);
    }
  }

  /** Sourcing a file a second time changes nothing, in bash and in zsh. */
  lemma SourceTwice(f: Generated, names: seq<string>, file: string, st: ShellState)
    requires Sourceable(f, st.shell) && NoneAliased(st) && ValidNames(names, st.shell) && Removes(st, f.migrated, names)
    requires Splits(Ifs(st), Managed(f)) || names == Managed(f)
    ensures var once := Source(file, FileText(f.cfg, f.migrated), st);
            once.Some? && Source(file, FileText(f.cfg, f.migrated), once.value) == once
  {
    hide FileText, Source, SortAliases, NoneAliased, ManagedVar, Join, Name, Guard, IsPosix, Splits, Ifs, Sourced,
         Managed, Recovered;
    var here := st.(file := file);
    SameFile(file, st, names);
    SourceFile(f.cfg, f.migrated, names, file, st);
    SourcedReady(f, names, here);
    var once := Sourced(f.cfg, names, here);
    FileKept(f, names, here);
    SourceFile(f.cfg, f.migrated, Managed(f), file, once);
    SameFile(file, once, Managed(f));
    RecoveredAgain(f, names, here);
    AliasesAgain(f, names, here);
    VarsAgain(f, names, here);
  }

  lemma FileKept(f: Generated, names: seq<string>, st: ShellState)
    ensures Sourced(f.cfg, names, st).(file := st.file) == Sourced(f.cfg, names, st)
  {
    hide SortAliases, Join, DefineAll, Split, Without;
  }

  lemma RecoveredAgain(f: Generated, names: seq<string>, st: ShellState)
    requires Sourceable(f, st.shell) && NoneAliased(st) && ValidNames(names, st.shell)
    requires Splits(Ifs(st), Managed(f)) || names == Managed(f)
    ensures var again := Set(Recovered(Sourced(f.cfg, names, st), Managed(f)));
            again == Set(Managed(f)) || again == Set(Recovered(st, names))
  {
    hide SortAliases, NoneAliased, ManagedVar, Join, Name, Guard, Splits, Ifs, Sourced, Managed, Split;
    SourcedReady(f, names, st);
    IfsStays(f.cfg, names, st);
    RecoveredExactly(st, Managed(f), st.shell);
  }

  lemma AliasesAgain(f: Generated, names: seq<string>, st: ShellState)
    requires Sourceable(f, st.shell)
    requires var again := Set(Recovered(Sourced(f.cfg, names, st), Managed(f)));
             again == Set(Managed(f)) || again == Set(Recovered(st, names))
    ensures var once := Sourced(f.cfg, names, st);
            Sourced(f.cfg, Managed(f), once).aliases == once.aliases
  {
    hide SortAliases, Join, Recovered, DefineAll, Guard, Name, LoopVar, ManagedVar, Without, CommandWord;
    var once, sorted := Sourced(f.cfg, names, st), SortAliases(f.cfg.aliases);
    var base := st.aliases - Set(Recovered(st, names));
    var rest := once.aliases - Set(Recovered(once, Managed(f)));
    SortedIncreasing(f.cfg);
    SetHas(Managed(f));
    forall x | x !in Names(sorted)
      ensures (x in rest <==> x in base) && (x in rest ==> rest[x] == base[x])
    {
      Defined(sorted, base, x);
    }
    DefineSame(sorted, rest, base);
  }

  lemma VarsAgain(f: Generated, names: seq<string>, st: ShellState)
    ensures var once := Sourced(f.cfg, names, st);
            Sourced(f.cfg, Managed(f), once) == once.(aliases := Sourced(f.cfg, Managed(f), once).aliases)
  {
    hide SortAliases, Join, Recovered, DefineAll, LoopVar, ManagedVar, FileVar, Without, Reload, AddHook;
    Variables();
    VarNames();
    var others := Without(st.hooks, Reload());
    WithoutAbsent(others, Reload());
    WithoutAppend(others, [Reload()], Reload());
    OneDropped(Reload());
    assert others + [] == others;
    var v, value, x := st.vars, Join(Names(SortAliases(f.cfg.aliases)), " "), st.file;
    var w := (v - {LoopVar()})[ManagedVar() := value];
    assert (w - {LoopVar()})[ManagedVar() := value] == w;
    var z := w[FileVar() := x];
    assert (z - {LoopVar()})[ManagedVar() := value][FileVar() := x] == z;
  }

  lemma VarNames()
    ensures ManagedVar() != LoopVar()
  {
    LineKinds();
  }

  // ----- A zsh that does not split -----

  /** Where expansions are not split, a list is recovered only if it has at most one name. */
  lemma UnsplitRecovers(st: ShellState, names: seq<string>)
    requires st.shell == ZSH && !st.wordSplit && ValidNames(names, ZSH)
    ensures Splits(Ifs(st), names) <==> |names| <= 1
    ensures |names| > 1 ==> forall n :: n in names ==> n !in Recovered(st, names)
  {
    hide Name, Split, Join;
    NamesPlain(names, ZSH);
    if |names| > 1 {
      var s := Join(names, " ");
      NothingSplits("");
      FirstField(s, "", "");
      assert s + "" == s;
      assert Recovered(st, names) == [s];
      JoinHasBlank(names);
    }
  }

  lemma JoinHasBlank(names: seq<string>)
    requires |names| > 1
    ensures ' ' in Join(names, " ")
  {
    assert Join(names, " ") == names[0] + " " + Join(names[1..], " ");
    assert Join(names, " ")[|names[0]|] == ' ';
  }

  /** The generated files promise that a later one removes the aliases of an earlier one.  In a zsh with its
      default options that holds exactly if the earlier file has at most one: of several, all stay. */
  lemma ZshReplacedExactly(first: Generated, second: Generated, names: seq<string>, file: string, st: ShellState)
      returns (after: ShellState)
    requires st.shell == ZSH && !st.wordSplit
    requires Sourceable(first, ZSH) && Sourceable(second, ZSH)
    requires NoneAliased(st) && ValidNames(names, ZSH) && Removes(st, first.migrated, names)
    requires forall n :: n in Managed(first) ==> n !in Managed(second)
    ensures SourceAll(file, Texts([first, second]), st) == Some(after)
    ensures forall n :: n in Managed(first) ==> (n in after.aliases <==> |first.cfg.aliases| > 1)
  {
    hide FileText, Source, SortAliases, NoneAliased, ManagedVar, Join, Name, Guard, IsPosix, Splits, Ifs, Sourced,
         Recovered, Managed, AliasOk;
    after := SourcedBoth(first, second, names, file, st);
    var here := Sourced(first.cfg, names, st.(file := file)).(file := file);
    FirstReady(first, names, file, st);
    UnsplitRecovers(here, Managed(first));
    RecoveredExactly(here, Managed(first), ZSH);
    ManagedLength(first);
  }

  lemma ManagedLength(f: Generated)
    ensures |Managed(f)| == |f.cfg.aliases|
  {
    hide SortAliases;
    SortSorts(f.cfg.aliases);
    NamesIn(SortAliases(f.cfg.aliases));
  }

  lemma FirstReady(f: Generated, names: seq<string>, file: string, st: ShellState)
    requires Sourceable(f, st.shell) && NoneAliased(st)
    ensures var here := Sourced(f.cfg, names, st.(file := file)).(file := file);
            here.shell == st.shell && here.wordSplit == st.wordSplit && ValidNames(Managed(f), st.shell)
  {
    hide SortAliases, NoneAliased, ManagedVar, Join, Name, Guard, IsPosix, Split, DefineAll, Without, Managed;
    SameFile(file, st, names);
    SourcedReady(f, names, st.(file := file));
  }
}
