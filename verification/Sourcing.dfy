/** Sourcing generated files in bash and zsh: a small semantics of the statements they consist of, and what a
    shell that sources one ends up with. */
module Sourcing {
  import opened Text
  import opened Domain
  import opened Validate
  import opened Posix
  import opened FileFacts
  import opened Lexer
  import opened FieldSplitting

  // ----- The semantics -----

  /** What of an interactive shell the generated files touch: its aliases and variables, the functions they
      define or load, the hooks that zsh runs before each prompt, and the file being sourced.  zsh splits
      unquoted expansions into fields only under its option SH_WORD_SPLIT, bash always does. */
  datatype ShellState = ShellState(
    shell: Shell, wordSplit: bool, aliases: map<string, string>, vars: map<string, string>,
    functions: set<string>, hooks: seq<string>, file: string)

  /** The words the files use as commands or keywords.  An alias of one of them would be expanded
      instead, which is outside this semantics. */
  predicate CommandWord(w: string, sh: Shell) {
    || w in {"if", "then", "fi", "for", "in", "do", "done", "[", "unalias", "true", "unset", "alias"}
    || (sh == ZSH && (w in {"typeset", "autoload", ".", "}"} || w == AddHook() || w == Reload()))
  }

  predicate NoneAliased(st: ShellState) {
    forall w :: w in st.aliases ==> !CommandWord(w, st.shell)
  }

  function AddHook(): string {
    "add-zsh-hook"
  }

  /** The function that the files have zsh run before each prompt. */
  function Reload(): string {
    "_aliasdeck_reload_" + "generated_aliases"
  }

  /** The variable that names the file to source again. */
  function FileVar(): string {
    "ALIASDECK_GENERATED_ALIAS_FILE"
  }

  /** A word without expansions, with its quotes removed. */
  function PlainWord(s: string): Option<string> {
    var l := LexWord(s);
    if l.expandable || l.rest != "" then None else Some(l.value)
  }

  /** `name=word`. */
  function Assignment(s: string): Option<(string, string)> {
    var eq := IndexChar(s, '=');
    if eq < 0 then None
    else
      match PlainWord(s[eq + 1..])
      case None => None
      case Some(value) => Some((s[..eq], value))
  }

  /** Characters for which an unquoted expansion would also expand pathnames. */
  predicate GlobFree(s: string) {
    '*' !in s && '?' !in s && '[' !in s && '\\' !in s
  }

  /** The characters that split fields: an unset IFS stands for blank, tab and newline, and a zsh without
      SH_WORD_SPLIT splits nowhere. */
  function Ifs(st: ShellState): string {
    if st.shell == ZSH && !st.wordSplit then "" else if "IFS" in st.vars then st.vars["IFS"] else " \t\n"
  }

  /** `for x in $V; do unalias -- "$x" ...; done` after field splitting: removal of each alias that exists;
      the loop variable keeps the last field. */
  function UnaliasFields(st: ShellState, loopVar: string, fields: seq<string>): ShellState
    decreases |fields|
  {
    if fields == [] then st
    else
      var next := st.(aliases := st.aliases - {fields[0]}, vars := st.vars[loopVar := fields[0]]);
      UnaliasFields(next, loopVar, fields[1..])
  }

  function LoopVar(): string {
    "aliasdeck_managed_name"
  }

  /** One statement, which may span several lines: the new state and the lines it leaves. */
  function Statement(lines: seq<string>, st: ShellState): Option<(ShellState, seq<string>)>
    requires lines != []
  {
    var line := lines[0];
    if line == "" || "#" <= line then
      Some((st, lines[1..]))
    else if line == IfUnsetLine() then
      // if [ -z "${V+x}" ]; then V=word; fi
      if |lines| >= 3 && lines[2] == "fi" && "  " <= lines[1] then
        match Assignment(lines[1][2..])
        case None => None
        case Some((name, value)) =>
          Some((if ManagedVar() in st.vars then st else st.(vars := st.vars[name := value]), lines[3..]))
      else None
    else if line == GuardLine() then
      // if [ -n "${V-}" ]; then for x in $V; do unalias -- "$x" 2>/dev/null || true; done; fi
      if |lines| >= 5 && lines[..5] == ManagedBlock() then
        if ManagedVar() !in st.vars || st.vars[ManagedVar()] == "" then Some((st, lines[5..]))
        else if !GlobFree(st.vars[ManagedVar()]) then None
        else Some((UnaliasFields(st, LoopVar(), Split(st.vars[ManagedVar()], Ifs(st))), lines[5..]))
      else None
    else if "unset " <= line then
      Some((st.(vars := st.vars - {line[6..]}), lines[1..]))
    else if "alias " <= line then
      match Assignment(line[6..])
      case None => None
      case Some((name, value)) => Some((st.(aliases := st.aliases[name := value]), lines[1..]))
    else if ManagedVar() + "=" <= line then
      match Assignment(line)
      case None => None
      case Some((name, value)) => Some((st.(vars := st.vars[name := value]), lines[1..]))
    else if st.shell == ZSH then
      HookStatement(lines, st)
    else
      None
  }

  /** The statements that only zsh files hold. */
  function HookStatement(lines: seq<string>, st: ShellState): Option<(ShellState, seq<string>)>
    requires lines != []
  {
    var line := lines[0];
    if line == TypesetLine() then
      // the full name of the file being sourced
      Some((st.(vars := st.vars[FileVar() := st.file]), lines[1..]))
    else if line == ReloadOpenLine() then
      if |lines| >= 3 && lines[1] == ReloadBodyLine() && lines[2] == "}" then
        Some((st.(functions := st.functions + {Reload()}), lines[3..]))
      else None
    else if line == AutoloadLine() then
      Some((st.(functions := st.functions + {AddHook()}), lines[1..]))
    else if AddHook() !in st.functions then
      None
    else if line == DropHookLine() then
      Some((st.(hooks := Without(st.hooks, Reload())), lines[1..]))
    else if line == AddHookLine() then
      Some((st.(hooks := if Reload() in st.hooks then st.hooks else st.hooks + [Reload()]), lines[1..]))
    else
      None
  }

  function Without(hooks: seq<string>, hook: string): (r: seq<string>)
    ensures hook !in r && forall h :: h != hook ==> (h in r <==> h in hooks)
  {
    if hooks == [] then [] else (if hooks[0] == hook then [] else [hooks[0]]) + Without(hooks[1..], hook)
  }

  /** Reads and runs the lines; None when a line is outside the semantics. */
  function Execute(lines: seq<string>, st: ShellState): Option<ShellState>
    decreases |lines|
  {
    if lines == [] then Some(st)
    else if !NoneAliased(st) then None
    else
      match Statement(lines, st)
      case None => None
      case Some((st', rest)) => if |rest| < |lines| then Execute(rest, st') else None
  }

  /** `. file`: the text up to its last newline. */
  function Source(file: string, text: string, st: ShellState): Option<ShellState> {
    var lines := SplitLines(text);
    Execute(lines[..|lines| - 1], st.(file := file))
  }

  /** One text after another, each under the same name. */
  function SourceAll(file: string, texts: seq<string>, st: ShellState): Option<ShellState> {
    if texts == [] then Some(st)
    else
      match Source(file, texts[0], st)
      case None => None
      case Some(st') => SourceAll(file, texts[1..], st')
  }

  // ----- Names that are command words -----

  /** The accepted names that the files also use as commands; every other command word is refused as a name. */
  function CommandNames(sh: Shell): set<string> {
    {"unalias", "true", "unset", "alias"}
    + if sh == ZSH then {"typeset", "autoload", AddHook(), Reload()} else {}
  }

  lemma HarmlessExactly(name: string, sh: Shell)
    requires IsPosix(sh) && Name(name, sh).None?
    ensures CommandWord(name, sh) <==> name in CommandNames(sh)
  {
    hide Reload, AddHook;
    NameIsWord(name, sh);
    KeywordsRefused(name, sh);
  }

  /** They are accepted, so a configuration can define an alias of a word that its own file uses. */
  lemma CommandNamesAccepted(name: string, sh: Shell)
    requires IsPosix(sh) && name in CommandNames(sh)
    ensures Name(name, sh).None?
  {
    hide Reload, AddHook, IsReservedWord;
    WordAccepted();
    if sh == ZSH {
      HookNameAccepted();
    }
    NotReserved(name, sh);
  }

  lemma NotReserved(name: string, sh: Shell)
    requires IsPosix(sh) && name in CommandNames(sh)
    ensures !IsReservedWord(name, sh)
  {
    hide Reload, AddHook, PosixReserved;
    CommandsNotReserved();
    LoadersNotReserved();
    HookNamesNotReserved();
  }

  lemma CommandsNotReserved()
    ensures "unalias" !in PosixReserved() && "true" !in PosixReserved() && "unset" !in PosixReserved()
    ensures "alias" !in PosixReserved()
  {
  }

  lemma LoadersNotReserved()
    ensures "typeset" !in PosixReserved() && "autoload" !in PosixReserved()
  {
  }

  lemma HookNamesNotReserved()
    ensures AddHook() !in PosixReserved() && Reload() !in PosixReserved()
  {
    ReservedShort();
    assert |AddHook()| == 12 && |Reload()| == 35;
  }

  lemma ReservedShort()
    ensures forall w :: w in PosixReserved() ==> |w| <= 9
  {
  }

  lemma WordAccepted()
    ensures forall w :: w in {"unalias", "true", "unset", "alias", "typeset", "autoload"} ==>
              w != "" && |w| <= MAX_NAME_LEN && ValidNameRunes(w)
  {
  }

  lemma HookNameAccepted()
    ensures ValidNameRunes(AddHook()) && ValidNameRunes(Reload())
    ensures |AddHook()| <= MAX_NAME_LEN && |Reload()| <= MAX_NAME_LEN && AddHook() != "" && Reload() != ""
  {
  }

  lemma KeywordsRefused(name: string, sh: Shell)
    requires IsPosix(sh) && Name(name, sh).None?
    ensures name !in {"if", "then", "fi", "for", "in", "do", "done", "[", ".", "}"}
  {
    assert {"if", "then", "fi", "for", "in", "do", "done"} <= PosixReserved();
  }

  // ----- One file -----

  /** The aliases after defining those of `aliases` in order. */
  function DefineAll(aliases: seq<Alias>, m: map<string, string>): map<string, string>
    decreases |aliases|
  {
    if aliases == [] then m else DefineAll(aliases[1..], m[aliases[0].name := aliases[0].command])
  }

  function Set(names: seq<string>): set<string> {
    set n | n in names
  }

  /** No alias of the configuration shadows a word that generated files use. */
  ghost predicate HarmlessNames(aliases: seq<Alias>, sh: Shell) {
    forall a :: a in aliases ==> !CommandWord(a.name, sh)
  }

  lemma Step(lines: seq<string>, st: ShellState)
    requires lines != [] && NoneAliased(st)
    requires Statement(lines, st).Some? && |Statement(lines, st).value.1| < |lines|
    ensures Execute(lines, st) == Execute(Statement(lines, st).value.1, Statement(lines, st).value.0)
  {
    hide Statement;
  }

  predicate Comment(line: string) {
    line == "" || "#" <= line
  }

  lemma {:induction false} SkipComments(lines: seq<string>, rest: seq<string>, st: ShellState)
    requires NoneAliased(st) && forall l :: l in lines ==> Comment(l)
    ensures Execute(lines + rest, st) == Execute(rest, st)
  {
    hide NoneAliased, Assignment, IfUnsetLine, GuardLine, ManagedVar, ManagedBlock, CommandWord;
    if lines == [] {
      assert lines + rest == rest;
    } else {
      var all := lines + rest;
      assert lines[0] in lines && all[0] == lines[0] && all[1..] == lines[1..] + rest;
      Step(all, st);
      SkipComments(lines[1..], rest, st);
    }
  }

  lemma QuotedAssignment(name: string, value: string)
    requires '=' !in name
    ensures Assignment(name + "=" + Quote(value)) == Some((name, value))
  {
    hide Quote, LexWord;
    var s := name + "=" + Quote(value);
    IndexCharIs(name, '=', Quote(value));
    assert s[..|name|] == name && s[|name| + 1..] == Quote(value);
    assert Quote(value) + "" == Quote(value);
    LexQuoted(value, "");
  }

  lemma VarHasNoEquals()
    ensures '=' !in ManagedVar()
  {
  }

  lemma LineKinds()
    ensures GuardLine() != "" && IfUnsetLine() != ""
    ensures GuardLine()[0] == 'i' && IfUnsetLine()[0] == 'i' && GuardLine() != IfUnsetLine()
    ensures ManagedVar()[0] == 'A' && |ManagedVar()| > 1
    ensures "unset " <= UnsetLine() && UnsetLine()[6..] == LoopVar()
    ensures ManagedVar() != LoopVar()
  {
    hide ManagedVar;
    VarLine('\n');
    assert GuardLine()[6] == 'n' && IfUnsetLine()[6] == 'z';
    assert LoopVar()[0] == 'a';
  }

  /** `if [ -z "${V+x}" ]; then V='...'; fi` sets V only in a shell that has none. */
  lemma RunMigration(names: seq<string>, rest: seq<string>, st: ShellState)
    requires NoneAliased(st) && names != []
    ensures Execute(MigrationLines(names) + rest, st) ==
            var recorded := st.(vars := st.vars[ManagedVar() := Join(names, " ")]);
            Execute(rest, if ManagedVar() in st.vars then st else recorded)
  {
    hide NoneAliased, IfUnsetLine, GuardLine, ManagedVar, CommandWord, Join, Quote, Assignment, Execute;
    LineKinds();
    VarHasNoEquals();
    QuotedAssignment(ManagedVar(), Join(names, " "));
    var lines := MigrationLines(names) + rest;
    assert lines[0] == IfUnsetLine() && lines[1] == "  " + AssignLine(names) && lines[2] == "fi" && lines[3..] == rest;
    assert lines[1][2..] == AssignLine(names);
    Step(lines, st);
  }

  lemma {:induction false} UnaliasAll(st: ShellState, loopVar: string, fields: seq<string>)
    ensures var r := UnaliasFields(st, loopVar, fields);
            r == st.(aliases := st.aliases - Set(fields), vars := r.vars) && r.vars - {loopVar} == st.vars - {loopVar}
            && forall v :: v != loopVar ==> (v in r.vars <==> v in st.vars) && (v in r.vars ==> r.vars[v] == st.vars[v])
    decreases |fields|
  {
    if fields != [] {
      var next := st.(aliases := st.aliases - {fields[0]}, vars := st.vars[loopVar := fields[0]]);
      UnaliasAll(next, loopVar, fields[1..]);
      assert Set(fields) == {fields[0]} + Set(fields[1..]);
    }
  }

  lemma NamesPlain(names: seq<string>, sh: Shell)
    requires ValidNames(names, sh)
    ensures Separable(names) && GlobFree(Join(names, " "))
    ensures names != [] ==> Join(names, " ") != ""
  {
    hide Name;
    forall n | n in names ensures n != "" && ' ' !in n && '*' !in n && '?' !in n && '[' !in n && '\\' !in n {
      NameIsWord(n, sh);
    }
    JoinFree(names, '*');
    JoinFree(names, '?');
    JoinFree(names, '[');
    JoinFree(names, '\\');
    if names != [] {
      assert names[0] in names;
      JoinStarts(names);
    }
  }

  /** What a shell makes of a recorded list of names. */
  function Recovered(st: ShellState, names: seq<string>): seq<string> {
    Split(Join(names, " "), Ifs(st))
  }

  /** Every name comes out as a field exactly when IFS splits the list, and then the fields are the names. */
  lemma RecoveredExactly(st: ShellState, names: seq<string>, sh: Shell)
    requires ValidNames(names, sh)
    ensures Recovered(st, names) == names <==> Splits(Ifs(st), names)
    ensures (forall n :: n in names ==> n in Recovered(st, names)) <==> Splits(Ifs(st), names)
  {
    hide Name, Split, Join, Ifs;
    NamesPlain(names, sh);
    SplitsExactly(names, Ifs(st));
  }

  /** With an ordinary IFS, as by default, a shell recovers every list of valid names. */
  lemma OrdinaryRecovers(st: ShellState, names: seq<string>, sh: Shell)
    requires ValidNames(names, sh)
    requires ' ' in Ifs(st) && forall c :: c in Ifs(st) ==> c == ' ' || c == '\t' || c == '\n'
    ensures Splits(Ifs(st), names) && Recovered(st, names) == names
  {
    hide Name, Split, Join, Ifs;
    forall n | n in names ensures ' ' !in n && '\t' !in n && '\n' !in n {
      NameIsWord(n, sh);
    }
    OrdinaryIfs(names, Ifs(st));
    RecoveredExactly(st, names, sh);
  }

  /** The names a shell takes to be managed when it reaches the managed block. */
  ghost predicate Manages(st: ShellState, names: seq<string>) {
    if ManagedVar() in st.vars then st.vars[ManagedVar()] == Join(names, " ") else names == []
  }

  /** The managed block removes exactly the fields of the recorded list and leaves every other variable
      alone. */
  lemma RunManagedBlock(names: seq<string>, sh: Shell, rest: seq<string>, st: ShellState)
    returns (vars: map<string, string>)
    requires NoneAliased(st) && ValidNames(names, sh) && Manages(st, names)
    ensures vars - {LoopVar()} == st.vars - {LoopVar()}
    ensures Execute(ManagedBlock() + rest, st)
            == Execute(rest, st.(aliases := st.aliases - Set(Recovered(st, names)), vars := vars))
  {
    hide NoneAliased, IfUnsetLine, ManagedVar, CommandWord, Join, Assignment, Execute, Split, GuardLine, ForLine,
         UnaliasLine, LoopVar, GlobFree, Ifs;
    LineKinds();
    NamesPlain(names, sh);
    var lines := ManagedBlock() + rest;
    assert lines[0] == GuardLine() && lines[..5] == ManagedBlock() && lines[5..] == rest;
    Step(lines, st);
    var fields := Recovered(st, names);
    UnaliasAll(st, LoopVar(), fields);
    if names == [] {
      JoinNothing();
      NothingSplits(Ifs(st));
      assert st.aliases - Set(fields) == st.aliases;
      vars := st.vars;
    } else {
      vars := UnaliasFields(st, LoopVar(), fields).vars;
    }
  }

  /** In a shell where every recorded name is an alias, none of them survives the managed block exactly when
      IFS splits the list. */
  lemma ManagedBlockExactly(names: seq<string>, sh: Shell, st: ShellState)
    requires NoneAliased(st) && ValidNames(names, sh) && Manages(st, names)
    requires forall n :: n in names ==> n in st.aliases
    ensures var r := Execute(ManagedBlock(), st);
            r.Some? && ((forall n :: n in names ==> n !in r.value.aliases) <==> Splits(Ifs(st), names))
  {
    hide NoneAliased, Execute, Splits, Split, Ifs, Join, Name, LoopVar, ManagedVar, ManagedBlock;
    var vars := RunManagedBlock(names, sh, [], st);
    assert ManagedBlock() + [] == ManagedBlock();
    var fields := Recovered(st, names);
    ExecuteNothing(st.(aliases := st.aliases - Set(fields), vars := vars));
    RecoveredExactly(st, names, sh);
    SetHas(fields);
  }

  lemma SetHas(names: seq<string>)
    ensures forall n :: n in Set(names) <==> n in names
  {
  }

  lemma JoinNothing()
    ensures Join([], " ") == ""
  {
  }

  lemma RunAssign(names: seq<string>, rest: seq<string>, st: ShellState)
    requires NoneAliased(st)
    ensures Execute([AssignLine(names)] + rest, st)
            == Execute(rest, st.(vars := st.vars[ManagedVar() := Join(names, " ")]))
  {
    hide NoneAliased, IfUnsetLine, GuardLine, ManagedVar, ManagedBlock, CommandWord, Join, Quote, Assignment, Execute;
    LineKinds();
    VarHasNoEquals();
    QuotedAssignment(ManagedVar(), Join(names, " "));
    var lines := [AssignLine(names)] + rest;
    assert lines[0] == AssignLine(names) && lines[1..] == rest && lines[0][0] == 'A';
    assert ManagedVar() + "=" <= lines[0];
    Step(lines, st);
  }

  lemma RunUnset(rest: seq<string>, st: ShellState)
    requires NoneAliased(st)
    ensures Execute([UnsetLine()] + rest, st) == Execute(rest, st.(vars := st.vars - {LoopVar()}))
  {
    hide NoneAliased, IfUnsetLine, GuardLine, ManagedVar, ManagedBlock, CommandWord, Assignment, Execute, UnsetLine,
         LoopVar;
    LineKinds();
    var lines := [UnsetLine()] + rest;
    assert lines[0] == UnsetLine() && lines[1..] == rest && lines[0][0] == 'u';
    Step(lines, st);
  }

  lemma RunAlias(a: Alias, sh: Shell, rest: seq<string>, st: ShellState)
    requires NoneAliased(st) && AliasOk(a, sh)
    ensures Execute([AliasLine(a)] + rest, st) == Execute(rest, st.(aliases := st.aliases[a.name := a.command]))
  {
    hide NoneAliased, IfUnsetLine, GuardLine, ManagedVar, ManagedBlock, CommandWord, Assignment, Execute, Quote, Name,
         Command, Description;
    LineKinds();
    NameIsWord(a.name, sh);
    QuotedAssignment(a.name, a.command);
    var lines := [AliasLine(a)] + rest;
    assert lines[0] == AliasLine(a) && lines[1..] == rest && lines[0][0] == 'a';
    assert AliasLine(a) == "alias " + (a.name + "=" + Quote(a.command));
    assert AliasLine(a)[6..] == a.name + "=" + Quote(a.command);
    Step(lines, st);
  }

  lemma RunParagraph(a: Alias, sh: Shell, rest: seq<string>, st: ShellState)
    requires NoneAliased(st) && AliasOk(a, sh)
    ensures Execute(Paragraph(a) + rest, st) == Execute(rest, st.(aliases := st.aliases[a.name := a.command]))
  {
    hide NoneAliased, Execute, AliasLine, AliasOk, SanitizeComment;
    var d := SanitizeComment(a.description);
    var comments := if d == "" then [""] else ["", "# " + d];
    assert Paragraph(a) + rest == comments + ([AliasLine(a)] + rest);
    SkipComments(comments, [AliasLine(a)] + rest, st);
    RunAlias(a, sh, rest, st);
  }

  lemma {:induction false} RunParagraphs(aliases: seq<Alias>, sh: Shell, rest: seq<string>, st: ShellState)
    requires NoneAliased(st) && AliasesOk(aliases, sh) && HarmlessNames(aliases, st.shell)
    ensures Execute(Paragraphs(aliases) + rest, st) == Execute(rest, st.(aliases := DefineAll(aliases, st.aliases)))
    decreases |aliases|
  {
    hide Execute, Paragraph, AliasOk, CommandWord;
    if aliases == [] {
      assert Paragraphs(aliases) + rest == rest;
    } else {
      var a, more := aliases[0], Paragraphs(aliases[1..]);
      assert a in aliases;
      Assoc(Paragraph(a), more, rest);
      RunParagraph(a, sh, more + rest, st);
      RunParagraphs(aliases[1..], sh, rest, st.(aliases := st.aliases[a.name := a.command]));
    }
  }

  /** The list of names that a file has the shell remove: what the shell has recorded, or, in a shell that
      has nothing recorded, what the file carries. */
  ghost predicate Removes(st: ShellState, migrated: seq<string>, names: seq<string>) {
    if ManagedVar() in st.vars then st.vars[ManagedVar()] == Join(names, " ") else names == migrated
  }

  /** What the last lines of a zsh file do: the file's name recorded, the function defined, and the function
      registered once, behind every other hook. */
  function Hooked(st: ShellState): ShellState {
    st.(vars := st.vars[FileVar() := st.file], functions := st.functions + {Reload(), AddHook()},
        hooks := Without(st.hooks, Reload()) + [Reload()])
  }

  /** The shell after a file: the fields of that list gone, the file's aliases defined, their names recorded,
      the loop variable unset, in zsh the hook registered, everything else as before. */
  function Sourced(cfg: ResolvedConfig, names: seq<string>, st: ShellState): ShellState {
    var sorted := SortAliases(cfg.aliases);
    var next := st.(aliases := DefineAll(sorted, st.aliases - Set(Recovered(st, names))),
                    vars := (st.vars - {LoopVar()})[ManagedVar() := Join(Names(sorted), " ")]);
    if st.shell == ZSH then Hooked(next) else next
  }

  /** Sourcing leaves IFS alone, so the next file is read with the same one. */
  lemma IfsStays(cfg: ResolvedConfig, names: seq<string>, st: ShellState)
    ensures Ifs(Sourced(cfg, names, st)) == Ifs(st)
  {
    hide Join, SortAliases, DefineAll, Split;
    Variables();
  }

  lemma Variables()
    ensures ManagedVar() != "IFS" && LoopVar() != "IFS" && FileVar() != "IFS"
    ensures ManagedVar() != FileVar() && LoopVar() != FileVar()
  {
    assert ManagedVar()[10] == 'M' && FileVar()[10] == 'G' && LoopVar()[0] == 'a';
  }

  predicate HookLine(line: string) {
    || line == TypesetLine() || line == ReloadOpenLine() || line == AutoloadLine() || line == DropHookLine()
    || line == AddHookLine()
  }

  lemma HookLineKinds(line: string)
    requires HookLine(line)
    ensures line != "" && line[0] != '#' && line[0] != 'i' && line[0] != 'A'
    ensures !("unset " <= line) && !("alias " <= line)
  {
    assert TypesetLine()[0] == 't' && ReloadOpenLine()[0] == '_' && AutoloadLine()[1] == 'u';
    assert DropHookLine()[1] == 'd' && AddHookLine()[1] == 'd';
  }

  lemma HookLinesDiffer()
    ensures AutoloadLine() != TypesetLine() && AutoloadLine() != ReloadOpenLine()
    ensures DropHookLine() != TypesetLine() && DropHookLine() != ReloadOpenLine() && DropHookLine() != AutoloadLine()
    ensures AddHookLine() != TypesetLine() && AddHookLine() != ReloadOpenLine() && AddHookLine() != AutoloadLine()
    ensures TypesetLine() != ReloadOpenLine() && AddHookLine() != DropHookLine()
  {
    assert TypesetLine()[0] == 't' && ReloadOpenLine()[0] == '_' && AutoloadLine()[0] == 'a';
    assert AutoloadLine()[1] == 'u' && DropHookLine()[1] == 'd' && AddHookLine()[1] == 'd';
    assert DropHookLine()[0] == 'a' && AddHookLine()[0] == 'a';
    assert DropHookLine()[13] == '-' && AddHookLine()[13] == 'p';
  }

  /** A hook line is run by what it is. */
  lemma HookStep(line: string, rest: seq<string>, st: ShellState)
    requires st.shell == ZSH && NoneAliased(st) && HookLine(line)
    requires HookStatement([line] + rest, st).Some? && |HookStatement([line] + rest, st).value.1| <= |rest|
    ensures var r := HookStatement([line] + rest, st).value; Execute([line] + rest, st) == Execute(r.1, r.0)
  {
    hide NoneAliased, IfUnsetLine, GuardLine, ManagedVar, ManagedBlock, CommandWord, Assignment, Execute, HookStatement,
         HookLine;
    var lines := [line] + rest;
    HookLineKinds(line);
    LineKinds();
    assert !(ManagedVar() + "=" <= line) by {
      assert (ManagedVar() + "=")[0] == 'A';
    }
    assert Statement(lines, st) == HookStatement(lines, st);
    Step(lines, st);
  }

  lemma RunTypeset(rest: seq<string>, st: ShellState)
    requires st.shell == ZSH && NoneAliased(st)
    ensures Execute([TypesetLine()] + rest, st) == Execute(rest, st.(vars := st.vars[FileVar() := st.file]))
  {
    hide NoneAliased, Execute, TypesetLine, ReloadOpenLine, AutoloadLine, DropHookLine, AddHookLine, FileVar;
    assert ([TypesetLine()] + rest)[1..] == rest;
    HookStep(TypesetLine(), rest, st);
  }

  lemma RunFunction(rest: seq<string>, st: ShellState)
    requires st.shell == ZSH && NoneAliased(st)
    ensures Execute([ReloadOpenLine(), ReloadBodyLine(), "}"] + rest, st)
            == Execute(rest, st.(functions := st.functions + {Reload()}))
  {
    hide NoneAliased, Execute, TypesetLine, ReloadOpenLine, ReloadBodyLine, AutoloadLine, DropHookLine, AddHookLine,
         Reload;
    HookLinesDiffer();
    var behind := [ReloadBodyLine(), "}"] + rest;
    assert [ReloadOpenLine(), ReloadBodyLine(), "}"] + rest == [ReloadOpenLine()] + behind;
    assert ([ReloadOpenLine()] + behind)[3..] == rest;
    HookStep(ReloadOpenLine(), behind, st);
  }

  lemma RunAutoload(rest: seq<string>, st: ShellState)
    requires st.shell == ZSH && NoneAliased(st)
    ensures Execute([AutoloadLine()] + rest, st) == Execute(rest, st.(functions := st.functions + {AddHook()}))
  {
    hide NoneAliased, Execute, TypesetLine, ReloadOpenLine, AutoloadLine, DropHookLine, AddHookLine, AddHook;
    HookLinesDiffer();
    assert ([AutoloadLine()] + rest)[1..] == rest;
    HookStep(AutoloadLine(), rest, st);
  }

  lemma RunDropHook(rest: seq<string>, st: ShellState)
    requires st.shell == ZSH && NoneAliased(st) && AddHook() in st.functions
    ensures Execute([DropHookLine()] + rest, st) == Execute(rest, st.(hooks := Without(st.hooks, Reload())))
  {
    hide NoneAliased, Execute, TypesetLine, ReloadOpenLine, AutoloadLine, DropHookLine, AddHookLine, AddHook, Reload,
         Without;
    HookLinesDiffer();
    assert ([DropHookLine()] + rest)[1..] == rest;
    HookStep(DropHookLine(), rest, st);
  }

  lemma RunAddHook(rest: seq<string>, st: ShellState)
    requires st.shell == ZSH && NoneAliased(st) && AddHook() in st.functions && Reload() !in st.hooks
    ensures Execute([AddHookLine()] + rest, st) == Execute(rest, st.(hooks := st.hooks + [Reload()]))
  {
    hide NoneAliased, Execute, TypesetLine, ReloadOpenLine, AutoloadLine, DropHookLine, AddHookLine, AddHook, Reload;
    HookLinesDiffer();
    assert ([AddHookLine()] + rest)[1..] == rest;
    HookStep(AddHookLine(), rest, st);
  }

  /** The lines behind the aliases of a zsh file. */
  lemma RunHookLines(st: ShellState)
    requires st.shell == ZSH && NoneAliased(st)
    ensures Execute(HookLines(ZSH), st) == Some(Hooked(st))
  {
    hide CommandWord, Execute, TypesetLine, ReloadOpenLine, ReloadBodyLine, AutoloadLine, DropHookLine, AddHookLine,
         FileVar, Reload, AddHook, Without;
    var define := [ReloadOpenLine(), ReloadBodyLine(), "}"];
    var last := [AddHookLine()] + [];
    var register := [AutoloadLine()] + ([DropHookLine()] + last);
    assert HookLines(ZSH) == [""] + ([TypesetLine()] + (define + register));
    SkipComments([""], [TypesetLine()] + (define + register), st);
    RunTypeset(define + register, st);
    var st1 := st.(vars := st.vars[FileVar() := st.file]);
    RunFunction(register, st1);
    var st2 := st1.(functions := st1.functions + {Reload()});
    RunAutoload([DropHookLine()] + last, st2);
    var st3 := st2.(functions := st2.functions + {AddHook()});
    RunDropHook(last, st3);
    var st4 := st3.(hooks := Without(st3.hooks, Reload()));
    RunAddHook([], st4);
    ExecuteNothing(st4.(hooks := st4.hooks + [Reload()]));
    assert st3.functions == st.functions + {Reload(), AddHook()};
  }

  /** Sourcing a generated file of the shell's own kind, migrated or not. */
  lemma SourceFile(cfg: ResolvedConfig, migrated: seq<string>, names: seq<string>, file: string, st: ShellState)
    requires Renderable(cfg) && cfg.device.shell == st.shell && HarmlessNames(cfg.aliases, st.shell)
    requires NoneAliased(st)
    requires ValidNames(migrated, st.shell) && ValidNames(names, st.shell) && Removes(st, migrated, names)
    ensures Source(file, FileText(cfg, migrated), st) == Some(Sourced(cfg, names, st.(file := file)))
  {
    hide Guard, HeaderLines, AssignLine, UnsetLine, SortAliases, Execute, Join, Names, AliasOk, ValidPlatform,
         ValidShell, SplitLines, Unlines, LoopVar, ManagedVar, CommandWord, Name, IfUnsetLine, IsPosix, Ifs, BodyLines,
         Hooked, FileVar, Recovered;
    var sorted, here := SortAliases(cfg.aliases), st.(file := file);
    var lines := FileLines(cfg, migrated);
    FileFree(cfg, migrated, '\n');
    SplitUnlines(lines);
    assert (lines + [""])[..|lines|] == lines;
    SortedHarmless(cfg);
    CleanAliases(cfg);
    HeaderNotIndented(cfg, |sorted|);
    var top := HeaderLines("#", cfg, |sorted|) + [""];
    var body := BodyLines(sorted, st.shell);
    assert lines == top + (MigrationLines(migrated) + body);
    forall l | l in top ensures Comment(l) {
      assert l in HeaderLines("#", cfg, |sorted|) || l == "";
    }
    SkipComments(top, MigrationLines(migrated) + body, here);
    var st1 := if migrated == [] || ManagedVar() in st.vars then here
               else here.(vars := st.vars[ManagedVar() := Join(migrated, " ")]);
    if migrated == [] {
      assert MigrationLines(migrated) + body == body;
    } else {
      RunMigration(migrated, body, here);
    }
    SourceBody(sorted, names, st1);
    SameIfs(here, st1, Join(migrated, " "));
    SameVars(st.vars, st1.vars, Join(migrated, " "), Join(Names(sorted), " "));
    SameHooked(cfg, names, here, st1);
  }

  lemma SameHooked(cfg: ResolvedConfig, names: seq<string>, st: ShellState, st1: ShellState)
    requires st1 == st.(vars := st1.vars) && Ifs(st1) == Ifs(st)
    requires var value := Join(Names(SortAliases(cfg.aliases)), " ");
             (st1.vars - {LoopVar()})[ManagedVar() := value] == (st.vars - {LoopVar()})[ManagedVar() := value]
    ensures Sourced(cfg, names, st1) == Sourced(cfg, names, st)
  {
    hide Ifs, SortAliases, Join, Names, LoopVar, ManagedVar, DefineAll, Split;
  }

  lemma SameIfs(st: ShellState, st1: ShellState, x: string)
    requires st1 == st || st1 == st.(vars := st.vars[ManagedVar() := x])
    ensures Ifs(st1) == Ifs(st)
  {
    Variables();
  }

  lemma SameVars(v: map<string, string>, w: map<string, string>, x: string, value: string)
    requires w == v || w == v[ManagedVar() := x]
    ensures (w - {LoopVar()})[ManagedVar() := value] == (v - {LoopVar()})[ManagedVar() := value]
  {
  }

  lemma SortedHarmless(cfg: ResolvedConfig)
    requires HarmlessNames(cfg.aliases, cfg.device.shell)
    ensures HarmlessNames(SortAliases(cfg.aliases), cfg.device.shell)
  {
    hide CommandWord, SortAliases;
    SortSorts(cfg.aliases);
    forall a | a in SortAliases(cfg.aliases) ensures !CommandWord(a.name, cfg.device.shell) {
      assert a in multiset(SortAliases(cfg.aliases));
    }
  }

  lemma SourceBody(sorted: seq<Alias>, names: seq<string>, st: ShellState)
    requires IsPosix(st.shell) && NoneAliased(st) && AliasesOk(sorted, st.shell) && HarmlessNames(sorted, st.shell)
    requires ValidNames(names, st.shell) && Manages(st, names)
    ensures var next := st.(aliases := DefineAll(sorted, st.aliases - Set(Recovered(st, names))),
                            vars := (st.vars - {LoopVar()})[ManagedVar() := Join(Names(sorted), " ")]);
            Execute(BodyLines(sorted, st.shell), st) == Some(if st.shell == ZSH then Hooked(next) else next)
  {
    hide ManagedBlock, AssignLine, UnsetLine, Paragraphs, Execute, Join, Names, AliasOk, LoopVar, ManagedVar,
         CommandWord, Name, Recovered, HookLines, Hooked;
    var left := st.aliases - Set(Recovered(st, names));
    var tail := Paragraphs(sorted) + HookLines(st.shell);
    var body := BodyLines(sorted, st.shell);
    assert body == ManagedBlock() + ([AssignLine(Names(sorted))] + ([UnsetLine()] + tail));
    var vars := RunManagedBlock(names, st.shell, [AssignLine(Names(sorted))] + ([UnsetLine()] + tail), st);
    RunAssign(Names(sorted), [UnsetLine()] + tail, st.(aliases := left, vars := vars));
    var vars' := vars[ManagedVar() := Join(Names(sorted), " ")];
    RunUnset(tail, st.(aliases := left, vars := vars'));
    var named := st.(aliases := left, vars := vars' - {LoopVar()});
    RunParagraphs(sorted, st.shell, HookLines(st.shell), named);
    LineKinds();
    assert vars' - {LoopVar()} == (vars - {LoopVar()})[ManagedVar() := Join(Names(sorted), " ")];
    RunHooks(sorted, named);
  }

  /** Behind the aliases a zsh file registers its hook, and a bash file ends. */
  lemma RunHooks(sorted: seq<Alias>, st: ShellState)
    requires IsPosix(st.shell) && NoneAliased(st) && HarmlessNames(sorted, st.shell)
    ensures var next := st.(aliases := DefineAll(sorted, st.aliases));
            Execute(HookLines(st.shell), next) == Some(if st.shell == ZSH then Hooked(next) else next)
  {
    hide CommandWord, Execute, Hooked;
    var next := st.(aliases := DefineAll(sorted, st.aliases));
    DefinedHarmless(sorted, st.aliases, st.shell);
    if st.shell == ZSH {
      RunHookLines(next);
    } else {
      NoHooks(st.shell);
      ExecuteNothing(next);
    }
  }

  lemma {:induction false} DefinedHarmless(aliases: seq<Alias>, m: map<string, string>, sh: Shell)
    requires HarmlessNames(aliases, sh) && forall w :: w in m ==> !CommandWord(w, sh)
    ensures forall w :: w in DefineAll(aliases, m) ==> !CommandWord(w, sh)
    decreases |aliases|
  {
    hide CommandWord;
    if aliases != [] {
      assert aliases[0] in aliases;
      DefinedHarmless(aliases[1..], m[aliases[0].name := aliases[0].command], sh);
    }
  }

  lemma ExecuteNothing(st: ShellState)
    ensures Execute([], st) == Some(st)
  {
  }
}
