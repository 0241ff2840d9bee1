/** What the program is willing to write into a shell file (`internal/validate`), and the filter
    that makes a configuration acceptable to the renderers. */
module Validate {
  import opened Text
  import opened Domain

  const MAX_NAME_LEN := 64
  const MAX_COMMAND_LEN := 4096
  const MAX_DESCRIPTION_LEN := 256
  const MAX_ALIASES := 5000

  datatype Severity = SeverityError | SeverityWarning

  datatype Problem =
    | EmptyName | LongName | BadNameRunes | ReservedName
    | EmptyCommand | LongCommand | ControlInCommand
    | LongDescription | ControlInDescription
    | UnknownPlatform(value: string) | UnknownShell(value: string) | TooManyAliases | DuplicateName

  /** An issue without an alias name has the empty name. */
  datatype Issue = Issue(aliasName: string, severity: Severity, problem: Problem)

  predicate IsLetter(c: char) {
    'a' <= c <= 'z' || 'A' <= c <= 'Z' || c == '_'
  }

  predicate NameChar(c: char) {
    IsLetter(c) || IsDigit(c) || c == '.' || c == '-'
  }

  predicate ValidNameRunes(name: string) {
    (name != [] ==> IsLetter(name[0])) && forall c :: c in name ==> NameChar(c)
  }

  function PosixReserved(): set<string> {
    {"case", "coproc", "declare", "do", "done", "elif", "else", "end", "esac", "fi", "for", "foreach",
     "function", "if", "in", "nocorrect", "repeat", "select", "then", "time", "until", "while"}
  }

  function PowerShellReserved(): set<string> {
    {"begin", "break", "catch", "class", "continue", "data", "define", "do", "dynamicparam", "else",
     "elseif", "end", "enum", "exit", "filter", "finally", "for", "foreach", "from", "function",
     "hidden", "if", "in", "param", "process", "return", "static", "switch", "throw", "trap",
     "try", "until", "using", "var", "while"}
  }

  /** `unicode.ToLower` on the characters whose lower case is an ASCII letter. */
  function LowerChar(c: char): char {
    if 'A' <= c <= 'Z' then (c as int + 32) as char
    else if c == '\U{212A}' then 'k'
    else if c == '\U{0130}' then 'i'
    else c
  }

  function ToLower(s: string): string {
    if s == [] then "" else [LowerChar(s[0])] + ToLower(s[1..])
  }

  predicate IsReservedWord(name: string, sh: Shell) {
    if sh == POWERSHELL then ToLower(name) in PowerShellReserved() else name in PosixReserved()
  }

  function Name(name: string, sh: Shell): Option<Problem> {
    if name == "" then Some(EmptyName)
    else if |name| > MAX_NAME_LEN then Some(LongName)
    else if !ValidNameRunes(name) then Some(BadNameRunes)
    else if IsReservedWord(name, sh) then Some(ReservedName)
    else None
  }

  /** A control character other than tab. */
  predicate IsControlRune(c: char) {
    c != '\t' && (c < ' ' || c == '\U{007F}')
  }

  predicate HasControlRune(s: string) {
    exists c :: c in s && IsControlRune(c)
  }

  function Command(cmd: string): Option<Problem> {
    if TrimSpace(cmd) == "" then Some(EmptyCommand)
    else if |cmd| > MAX_COMMAND_LEN then Some(LongCommand)
    else if HasControlRune(cmd) then Some(ControlInCommand)
    else None
  }

  function Description(desc: string): Option<Problem> {
    if desc == "" then None
    else if |desc| > MAX_DESCRIPTION_LEN then Some(LongDescription)
    else if HasControlRune(desc) then Some(ControlInDescription)
    else None
  }

  // ----- Issues of one alias -----

  function Report(a: Alias, p: Option<Problem>): seq<Issue> {
    if p.None? then [] else [Issue(a.name, SeverityError, p.value)]
  }

  function PlatformIssues(a: Alias, ps: seq<Platform>): seq<Issue> {
    if ps == [] then []
    else Report(a, if ValidPlatform(ps[0]) then None else Some(UnknownPlatform(ps[0]))) + PlatformIssues(a, ps[1..])
  }

  function ShellIssues(a: Alias, ss: seq<Shell>): seq<Issue> {
    if ss == [] then []
    else Report(a, if ValidShell(ss[0]) then None else Some(UnknownShell(ss[0]))) + ShellIssues(a, ss[1..])
  }

  function AliasIssues(a: Alias, sh: Shell): seq<Issue> {
    Report(a, Name(a.name, sh)) + Report(a, Command(a.command)) + Report(a, Description(a.description))
    + PlatformIssues(a, a.platforms) + ShellIssues(a, a.shells)
  }

  method CheckAlias(a: Alias, sh: Shell) returns (issues: seq<Issue>)
    ensures issues == AliasIssues(a, sh)
  {
    hide Name, Command, Description;
    issues := Report(a, Name(a.name, sh)) + Report(a, Command(a.command)) + Report(a, Description(a.description));
    issues := CheckPlatforms(a, issues);
    issues := CheckShells(a, issues);
  }

  method CheckPlatforms(a: Alias, before: seq<Issue>) returns (issues: seq<Issue>)
    ensures issues == before + PlatformIssues(a, a.platforms)
  {
    hide ValidPlatform;
    issues := before;
    for i := 0 to |a.platforms|
      invariant issues + PlatformIssues(a, a.platforms[i..]) == before + PlatformIssues(a, a.platforms)
    {
      var p, rest := a.platforms[i], a.platforms[i + 1..];
      assert a.platforms[i..] == [p] + rest;
      if !ValidPlatform(p) {
        var found := [Issue(a.name, SeverityError, UnknownPlatform(p))];
        Assoc(issues, found, PlatformIssues(a, rest));
        issues := issues + found;
      }
    }
  }

  method CheckShells(a: Alias, before: seq<Issue>) returns (issues: seq<Issue>)
    ensures issues == before + ShellIssues(a, a.shells)
  {
    hide ValidShell;
    issues := before;
    for i := 0 to |a.shells|
      invariant issues + ShellIssues(a, a.shells[i..]) == before + ShellIssues(a, a.shells)
    {
      var s, rest := a.shells[i], a.shells[i + 1..];
      assert a.shells[i..] == [s] + rest;
      if !ValidShell(s) {
        var found := [Issue(a.name, SeverityError, UnknownShell(s))];
        Assoc(issues, found, ShellIssues(a, rest));
        issues := issues + found;
      }
    }
  }

  // ----- Issues of a configuration -----

  /** Names collide without regard to case in PowerShell, exactly in the other shells. */
  function DuplicateKey(name: string, sh: Shell): string {
    if sh == POWERSHELL then ToLower(name) else name
  }

  function AliasListIssues(aliases: seq<Alias>, sh: Shell, seen: set<string>): seq<Issue> {
    if aliases == [] then []
    else
      var a := aliases[0];
      var key := DuplicateKey(a.name, sh);
      AliasIssues(a, sh) + Report(a, if key in seen then Some(DuplicateName) else None)
      + AliasListIssues(aliases[1..], sh, seen + {key})
  }

  function DeviceIssues(cfg: ResolvedConfig): seq<Issue> {
    (if ValidPlatform(cfg.device.platform) then []
     else [Issue("", SeverityError, UnknownPlatform(cfg.device.platform))])
    + (if ValidShell(cfg.device.shell) then [] else [Issue("", SeverityError, UnknownShell(cfg.device.shell))])
    + (if |cfg.aliases| > MAX_ALIASES then [Issue("", SeverityError, TooManyAliases)] else [])
  }

  function ConfigIssues(cfg: ResolvedConfig): seq<Issue> {
    DeviceIssues(cfg) + AliasListIssues(cfg.aliases, cfg.device.shell, {})
  }

  method CheckConfig(cfg: ResolvedConfig) returns (issues: seq<Issue>)
    ensures issues == ConfigIssues(cfg)
  {
    hide AliasIssues, DeviceIssues, DuplicateKey;
    issues := DeviceIssues(cfg);
    var seen: set<string> := {};
    for i := 0 to |cfg.aliases|
      invariant issues + AliasListIssues(cfg.aliases[i..], cfg.device.shell, seen) == ConfigIssues(cfg)
    {
      var a := cfg.aliases[i];
      var own := CheckAlias(a, cfg.device.shell);
      var key := DuplicateKey(a.name, cfg.device.shell);
      assert cfg.aliases[i..][1..] == cfg.aliases[i + 1..];
      issues := issues + own;
      if key in seen {
        issues := issues + [Issue(a.name, SeverityError, DuplicateName)];
      }
      seen := seen + {key};
    }
  }

  /** The blocking issues. */
  function Errors(issues: seq<Issue>): seq<Issue> {
    if issues == [] then []
    else (if issues[0].severity.SeverityError? then [issues[0]] else []) + Errors(issues[1..])
  }

  /** The renderers' own check before writing anything. */
  predicate Guard(cfg: ResolvedConfig) {
    Errors(ConfigIssues(cfg)) == []
  }

  // ----- What acceptance means -----

  predicate AliasOk(a: Alias, sh: Shell) {
    && Name(a.name, sh).None? && Command(a.command).None? && Description(a.description).None?
    && (forall p :: p in a.platforms ==> ValidPlatform(p))
    && (forall s :: s in a.shells ==> ValidShell(s))
  }

  ghost predicate DistinctKeys(aliases: seq<Alias>, sh: Shell) {
    forall i, j :: 0 <= i < j < |aliases| ==> DuplicateKey(aliases[i].name, sh) != DuplicateKey(aliases[j].name, sh)
  }

  ghost predicate Clean(cfg: ResolvedConfig) {
    && ValidPlatform(cfg.device.platform) && ValidShell(cfg.device.shell) && |cfg.aliases| <= MAX_ALIASES
    && (forall a :: a in cfg.aliases ==> AliasOk(a, cfg.device.shell))
    && DistinctKeys(cfg.aliases, cfg.device.shell)
  }

  lemma {:induction false} ErrorsOfErrors(issues: seq<Issue>)
    requires forall i :: i in issues ==> i.severity.SeverityError?
    ensures Errors(issues) == issues
  {
    if issues != [] {
      ErrorsOfErrors(issues[1..]);
    }
  }

  lemma {:induction false} TargetingIssues(a: Alias, ps: seq<Platform>, ss: seq<Shell>)
    ensures PlatformIssues(a, ps) == [] <==> forall p :: p in ps ==> ValidPlatform(p)
    ensures ShellIssues(a, ss) == [] <==> forall s :: s in ss ==> ValidShell(s)
    ensures forall i :: i in PlatformIssues(a, ps) + ShellIssues(a, ss) ==>
              i.aliasName == a.name && i.severity.SeverityError?
    decreases |ps| + |ss|
  {
    if ps != [] { TargetingIssues(a, ps[1..], ss); }
    if ss != [] { TargetingIssues(a, ps, ss[1..]); }
  }

  lemma AliasIssuesNamed(a: Alias, sh: Shell)
    ensures forall i :: i in AliasIssues(a, sh) ==> i.aliasName == a.name && i.severity.SeverityError?
    ensures AliasIssues(a, sh) == [] <==> AliasOk(a, sh)
  {
    hide Name, Command, Description, ValidPlatform, ValidShell;
    TargetingIssues(a, a.platforms, a.shells);
  }

  /** The issues of the first entry. */
  function HeadIssues(a: Alias, sh: Shell, seen: set<string>): seq<Issue> {
    AliasIssues(a, sh) + Report(a, if DuplicateKey(a.name, sh) in seen then Some(DuplicateName) else None)
  }

  lemma HeadReported(aliases: seq<Alias>, sh: Shell, seen: set<string>)
    requires aliases != []
    ensures AliasListIssues(aliases, sh, seen) ==
            HeadIssues(aliases[0], sh, seen)
              + AliasListIssues(aliases[1..], sh, seen + {DuplicateKey(aliases[0].name, sh)})
    ensures forall i :: i in HeadIssues(aliases[0], sh, seen) ==>
              i.aliasName == aliases[0].name && i.severity.SeverityError?
    ensures HeadIssues(aliases[0], sh, seen) == [] <==> EntryOk(aliases, sh, seen, 0)
  {
    hide AliasIssues, AliasOk, DuplicateKey;
    AliasIssuesNamed(aliases[0], sh);
  }

  lemma {:induction false} AllErrors(aliases: seq<Alias>, sh: Shell, seen: set<string>)
    ensures forall i :: i in AliasListIssues(aliases, sh, seen) ==> i.severity.SeverityError?
  {
    if aliases != [] {
      hide AliasIssues, AliasOk, DuplicateKey, HeadIssues, EntryOk;
      HeadReported(aliases, sh, seen);
      AllErrors(aliases[1..], sh, seen + {DuplicateKey(aliases[0].name, sh)});
    }
  }

  /** A bad entry, or one that repeats an earlier key, is reported under its name. */
  lemma {:induction false} BadReported(aliases: seq<Alias>, sh: Shell, seen: set<string>, k: int) returns (i: Issue)
    requires 0 <= k < |aliases| && !EntryOk(aliases, sh, seen, k)
    ensures i in AliasListIssues(aliases, sh, seen) && i.aliasName == aliases[k].name
  {
    hide AliasIssues, AliasOk, DuplicateKey, HeadIssues, EntryOk;
    HeadReported(aliases, sh, seen);
    if k == 0 {
      i := HeadIssues(aliases[0], sh, seen)[0];
    } else {
      EntryShift(aliases, sh, seen, k);
      i := BadReported(aliases[1..], sh, seen + {DuplicateKey(aliases[0].name, sh)}, k - 1);
    }
  }

  /** Every issue of the list is owed to such an entry. */
  lemma {:induction false} ReportedBad(aliases: seq<Alias>, sh: Shell, seen: set<string>, i: Issue) returns (k: int)
    requires i in AliasListIssues(aliases, sh, seen)
    ensures 0 <= k < |aliases| && !EntryOk(aliases, sh, seen, k) && i.aliasName == aliases[k].name
  {
    hide AliasIssues, AliasOk, DuplicateKey, HeadIssues, EntryOk;
    HeadReported(aliases, sh, seen);
    if i in HeadIssues(aliases[0], sh, seen) {
      k := 0;
    } else {
      var k' := ReportedBad(aliases[1..], sh, seen + {DuplicateKey(aliases[0].name, sh)}, i);
      k := k' + 1;
      EntryShift(aliases, sh, seen, k);
    }
  }

  /** The k-th entry is fine on its own and its key is new. */
  ghost predicate EntryOk(aliases: seq<Alias>, sh: Shell, seen: set<string>, k: int)
    requires 0 <= k < |aliases|
  {
    && AliasOk(aliases[k], sh)
    && DuplicateKey(aliases[k].name, sh) !in seen
    && forall j :: 0 <= j < k ==> DuplicateKey(aliases[j].name, sh) != DuplicateKey(aliases[k].name, sh)
  }

  lemma EntryShift(aliases: seq<Alias>, sh: Shell, seen: set<string>, k: int)
    requires 0 < k < |aliases|
    ensures EntryOk(aliases, sh, seen, k) <==>
            EntryOk(aliases[1..], sh, seen + {DuplicateKey(aliases[0].name, sh)}, k - 1)
  {
    hide AliasOk, DuplicateKey;
    var rest := aliases[1..];
    assert forall j :: 0 < j < |aliases| ==> rest[j - 1] == aliases[j];
    if EntryOk(rest, sh, seen + {DuplicateKey(aliases[0].name, sh)}, k - 1) {
      forall j | 0 <= j < k ensures DuplicateKey(aliases[j].name, sh) != DuplicateKey(aliases[k].name, sh) {
        if j > 0 { assert rest[j - 1] == aliases[j]; }
      }
    }
  }

  /** The renderers accept a configuration exactly when it is clean. */
  lemma GuardMeansClean(cfg: ResolvedConfig)
    ensures Guard(cfg) <==> Clean(cfg)
  {
    hide AliasOk, DuplicateKey, AliasListIssues;
    var sh := cfg.device.shell;
    var list := AliasListIssues(cfg.aliases, sh, {});
    AllErrors(cfg.aliases, sh, {});
    ErrorsOfErrors(ConfigIssues(cfg));
    assert Guard(cfg) <==> DeviceIssues(cfg) == [] && list == [];
    if list == [] {
      forall k | 0 <= k < |cfg.aliases| ensures EntryOk(cfg.aliases, sh, {}, k) {
        if !EntryOk(cfg.aliases, sh, {}, k) { var _ := BadReported(cfg.aliases, sh, {}, k); }
      }
      forall i, j | 0 <= i < j < |cfg.aliases|
        ensures DuplicateKey(cfg.aliases[i].name, sh) != DuplicateKey(cfg.aliases[j].name, sh)
      {
        assert EntryOk(cfg.aliases, sh, {}, j);
      }
      forall a | a in cfg.aliases ensures AliasOk(a, sh) {
        var k :| 0 <= k < |cfg.aliases| && cfg.aliases[k] == a;
        assert EntryOk(cfg.aliases, sh, {}, k);
      }
    } else {
      var k := ReportedBad(cfg.aliases, sh, {}, list[0]);
      assert !(AliasOk(cfg.aliases[k], sh) && DistinctKeys(cfg.aliases, sh));
    }
  }

  // ----- What an accepted alias looks like -----

  /** An accepted name is one shell word of harmless characters. */
  lemma NameIsWord(name: string, sh: Shell)
    requires Name(name, sh).None?
    ensures name != "" && IsLetter(name[0]) && Word(name)
    ensures forall c :: c in name ==> NameChar(c)
    ensures '\n' !in name && '\r' !in name && '\'' !in name && '=' !in name && ' ' !in name && '\t' !in name
  {
    hide IsReservedWord;
  }

  /** Exactly which names are accepted: up to 64 ASCII letters, digits, underscores, dots and dashes, with a letter
      or an underscore in front, that are no reserved word of the shell. */
  lemma NameExactly(name: string, sh: Shell)
    ensures Name(name, sh).None? <==>
            && 1 <= |name| <= 64 && !IsReservedWord(name, sh)
            && ('a' <= name[0] <= 'z' || 'A' <= name[0] <= 'Z' || name[0] == '_')
            && forall c :: c in name ==>
                 'a' <= c <= 'z' || 'A' <= c <= 'Z' || '0' <= c <= '9' || c == '_' || c == '.' || c == '-'
  {
    hide IsReservedWord;
  }

  /** Exactly which commands are accepted: not only white space, up to 4096 characters, and no control character
      but tabs. */
  lemma CommandExactly(cmd: string)
    ensures Command(cmd).None? <==>
            && (exists c :: c in cmd && !IsSpace(c)) && |cmd| <= 4096
            && forall c :: c in cmd ==> c == '\t' || (' ' <= c && c != '\U{007F}')
  {
    hide TrimSpace, IsSpace;
    TrimSpaceEmpty(cmd);
  }

  /** Exactly which descriptions are accepted. */
  lemma DescriptionExactly(desc: string)
    ensures Description(desc).None? <==>
            |desc| <= 256 && forall c :: c in desc ==> c == '\t' || (' ' <= c && c != '\U{007F}')
  {
  }

  /** Equal up to the case of ASCII letters. */
  predicate SameUpToCase(x: string, y: string) {
    |x| == |y| && forall i :: 0 <= i < |x| ==> SameLetter(x[i], y[i])
  }

  predicate SameLetter(x: char, y: char) {
    || x == y
    || ('A' <= x <= 'Z' && 'a' <= y <= 'z' && y as int - x as int == 32)
    || ('A' <= y <= 'Z' && 'a' <= x <= 'z' && x as int - y as int == 32)
  }

  ghost predicate AllNameChars(s: string) {
    forall c :: c in s ==> NameChar(c)
  }

  lemma {:induction false} LowerExactly(x: string, y: string)
    requires AllNameChars(x) && AllNameChars(y)
    ensures ToLower(x) == ToLower(y) <==> SameUpToCase(x, y)
  {
    LowerLength(x);
    LowerLength(y);
    if |x| == |y| && x != "" {
      assert x == [x[0]] + x[1..] && y == [y[0]] + y[1..];
      assert x[0] in x && y[0] in y;
      TailChars(x);
      TailChars(y);
      LowerExactly(x[1..], y[1..]);
      assert ToLower(x)[1..] == ToLower(x[1..]) && ToLower(y)[1..] == ToLower(y[1..]);
      assert ToLower(x) == ToLower(y) <==> LowerChar(x[0]) == LowerChar(y[0]) && ToLower(x[1..]) == ToLower(y[1..]);
    }
  }

  lemma TailChars(s: string)
    requires s != "" && AllNameChars(s)
    ensures AllNameChars(s[1..])
  {
    forall c | c in s[1..] ensures NameChar(c) {
      assert c in s;
    }
  }

  lemma {:induction false} LowerLength(s: string)
    ensures |ToLower(s)| == |s|
  {
    if s != "" {
      LowerLength(s[1..]);
    }
  }

  /** Two accepted names collide in PowerShell exactly when they are equal up to case, and elsewhere exactly when
      they are equal. */
  lemma KeyExactly(x: string, y: string, sh: Shell)
    requires Name(x, sh).None? && Name(y, sh).None?
    ensures DuplicateKey(x, sh) == DuplicateKey(y, sh) <==> if sh == POWERSHELL then SameUpToCase(x, y) else x == y
  {
    hide IsReservedWord, ToLower;
    LowerExactly(x, y);
  }

  /** A name is reserved in PowerShell in any case. */
  lemma ReservedUpToCase(name: string)
    requires AllNameChars(name)
    ensures IsReservedWord(name, POWERSHELL) <==> exists w :: w in PowerShellReserved() && SameUpToCase(name, w)
  {
    hide ToLower, PowerShellReserved;
    forall w | w in PowerShellReserved() ensures ToLower(name) == w <==> SameUpToCase(name, w) {
      ReservedLower(w);
      LowerExactly(name, w);
    }
    assert ToLower(name) in PowerShellReserved() ==> SameUpToCase(name, ToLower(name));
  }

  predicate LowerLetters(s: string) {
    s == "" || ('a' <= s[0] <= 'z' && LowerLetters(s[1..]))
  }

  lemma LowerWords1()
    ensures LowerLetters("begin") && LowerLetters("break") && LowerLetters("catch")
  {
  }

  lemma LowerWords2()
    ensures LowerLetters("class") && LowerLetters("continue") && LowerLetters("data")
  {
  }

  lemma LowerWords3()
    ensures LowerLetters("define") && LowerLetters("do") && LowerLetters("dynamicparam")
  {
  }

  lemma LowerWords4()
    ensures LowerLetters("else") && LowerLetters("elseif") && LowerLetters("end")
  {
  }

  lemma LowerWords5()
    ensures LowerLetters("enum") && LowerLetters("exit") && LowerLetters("filter")
  {
  }

  lemma LowerWords6()
    ensures LowerLetters("finally") && LowerLetters("for") && LowerLetters("foreach")
  {
  }

  lemma LowerWords7()
    ensures LowerLetters("from") && LowerLetters("function") && LowerLetters("hidden")
  {
  }

  lemma LowerWords8()
    ensures LowerLetters("if") && LowerLetters("in") && LowerLetters("param")
  {
  }

  lemma LowerWords9()
    ensures LowerLetters("process") && LowerLetters("return") && LowerLetters("static")
  {
  }

  lemma LowerWords10()
    ensures LowerLetters("switch") && LowerLetters("throw") && LowerLetters("trap")
  {
  }

  lemma LowerWords11()
    ensures LowerLetters("try") && LowerLetters("until") && LowerLetters("using")
  {
  }

  lemma LowerWords12()
    ensures LowerLetters("var") && LowerLetters("while")
  {
  }

  lemma ReservedLower(w: string)
    requires w in PowerShellReserved()
    ensures ToLower(w) == w && AllNameChars(w)
  {
    hide LowerLetters, ToLower, AllNameChars;
    LowerWords1();
    LowerWords2();
    LowerWords3();
    LowerWords4();
    LowerWords5();
    LowerWords6();
    LowerWords7();
    LowerWords8();
    LowerWords9();
    LowerWords10();
    LowerWords11();
    LowerWords12();
    AlreadyLower(w);
  }

  lemma {:induction false} AlreadyLower(w: string)
    requires LowerLetters(w)
    ensures ToLower(w) == w && AllNameChars(w)
  {
    if w != "" {
      AlreadyLower(w[1..]);
      assert w == [w[0]] + w[1..];
    }
  }

  lemma CommandIsOneLine(cmd: string)
    requires Command(cmd).None?
    ensures cmd != "" && '\n' !in cmd && '\r' !in cmd
  {
    hide TrimSpace;
    TrimSpaceKeeps("");
    assert IsControlRune('\n') && IsControlRune('\r');
  }

  // ----- The filter -----

  /** The names that some blocking issue reports. */
  function Blocked(issues: seq<Issue>): set<string> {
    set i | i in Errors(issues) && i.aliasName != "" :: i.aliasName
  }

  function Keep(aliases: seq<Alias>, blocked: set<string>): seq<Alias> {
    if aliases == [] then []
    else (if aliases[0].name in blocked then [] else [aliases[0]]) + Keep(aliases[1..], blocked)
  }

  function Filtered(cfg: ResolvedConfig): ResolvedConfig {
    cfg.(aliases := Keep(cfg.aliases, Blocked(ConfigIssues(cfg))))
  }

  method FilterValid(cfg: ResolvedConfig) returns (r: ResolvedConfig, issues: seq<Issue>)
    ensures r == Filtered(cfg) && issues == ConfigIssues(cfg)
  {
    hide ConfigIssues;
    issues := CheckConfig(cfg);
    var blocked := BlockedNames(Errors(issues));
    var kept := [];
    for i := 0 to |cfg.aliases|
      invariant kept + Keep(cfg.aliases[i..], blocked) == Keep(cfg.aliases, blocked)
    {
      var a, rest := cfg.aliases[i], cfg.aliases[i + 1..];
      assert cfg.aliases[i..] == [a] + rest;
      if a.name !in blocked {
        Assoc(kept, [a], Keep(rest, blocked));
        kept := kept + [a];
      }
    }
    assert kept == Keep(cfg.aliases, blocked);
    r := cfg.(aliases := kept);
  }

  method BlockedNames(errors: seq<Issue>) returns (blocked: set<string>)
    ensures blocked == set i | i in errors && i.aliasName != "" :: i.aliasName
  {
    blocked := {};
    for i := 0 to |errors|
      invariant blocked == set e | e in errors[..i] && e.aliasName != "" :: e.aliasName
    {
      assert errors[..i + 1] == errors[..i] + [errors[i]];
      if errors[i].aliasName != "" {
        blocked := blocked + {errors[i].aliasName};
      }
    }
    assert errors[..|errors|] == errors;
  }

  lemma {:induction false} KeepExactly(aliases: seq<Alias>, blocked: set<string>, a: Alias)
    ensures a in Keep(aliases, blocked) <==> a in aliases && a.name !in blocked
  {
    if aliases != [] {
      KeepExactly(aliases[1..], blocked, a);
    }
  }

  lemma {:induction false} KeepAll(aliases: seq<Alias>, blocked: set<string>)
    requires forall a :: a in aliases ==> a.name !in blocked
    ensures Keep(aliases, blocked) == aliases
  {
    if aliases != [] {
      KeepAll(aliases[1..], blocked);
    }
  }

  /** A kept alias with a name has no error and shares its key with no other kept alias. */
  ghost predicate CleanButUnnamed(kept: seq<Alias>, sh: Shell) {
    && (forall a :: a in kept && a.name != "" ==> AliasOk(a, sh))
    && forall i, j :: 0 <= i < j < |kept| && kept[j].name != "" ==>
         DuplicateKey(kept[i].name, sh) != DuplicateKey(kept[j].name, sh)
  }

  /** If every bad entry is blocked or unnamed, what is kept is clean, and new to `seen`. */
  lemma {:induction false} KeepCleans(aliases: seq<Alias>, sh: Shell, seen: set<string>, blocked: set<string>)
    requires forall k :: 0 <= k < |aliases| ==>
               EntryOk(aliases, sh, seen, k) || aliases[k].name in blocked || aliases[k].name == ""
    ensures CleanButUnnamed(Keep(aliases, blocked), sh)
    ensures forall a :: a in Keep(aliases, blocked) && a.name != "" ==> DuplicateKey(a.name, sh) !in seen
  {
    hide AliasOk, DuplicateKey;
    if aliases != [] {
      var a, rest := aliases[0], aliases[1..];
      forall k | 0 <= k < |rest|
        ensures EntryOk(rest, sh, seen + {DuplicateKey(a.name, sh)}, k) || rest[k].name in blocked || rest[k].name == ""
      {
        EntryShift(aliases, sh, seen, k + 1);
        assert rest[k] == aliases[k + 1];
      }
      KeepCleans(rest, sh, seen + {DuplicateKey(a.name, sh)}, blocked);
      var kept, kept' := Keep(aliases, blocked), Keep(rest, blocked);
      assert EntryOk(aliases, sh, seen, 0) || a.name in blocked || a.name == "";
      assert kept == kept' || kept == [a] + kept';
    }
  }

  lemma FilteredIsClean(cfg: ResolvedConfig)
    ensures CleanButUnnamed(Filtered(cfg).aliases, cfg.device.shell)
  {
    hide AliasOk, DuplicateKey, AliasListIssues;
    var sh := cfg.device.shell;
    var issues := ConfigIssues(cfg);
    AllErrors(cfg.aliases, sh, {});
    ErrorsOfErrors(issues);
    forall k | 0 <= k < |cfg.aliases| && cfg.aliases[k].name != "" && cfg.aliases[k].name !in Blocked(issues)
      ensures EntryOk(cfg.aliases, sh, {}, k)
    {
      if !EntryOk(cfg.aliases, sh, {}, k) {
        var i := BadReported(cfg.aliases, sh, {}, k);
      }
    }
    KeepCleans(cfg.aliases, sh, {}, Blocked(issues));
  }

  /** The filter makes rendering possible exactly when the device is known, no alias is unnamed
      (an unnamed alias is reported but never dropped) and at most MAX_ALIASES are kept. */
  lemma FilterMakesRenderable(cfg: ResolvedConfig)
    ensures Guard(Filtered(cfg)) <==>
            && ValidPlatform(cfg.device.platform) && ValidShell(cfg.device.shell)
            && |Filtered(cfg).aliases| <= MAX_ALIASES
            && forall a :: a in cfg.aliases ==> a.name != ""
  {
    hide ConfigIssues, Command, Description, IsReservedWord, DuplicateKey, ValidPlatform, ValidShell;
    FilteredIsClean(cfg);
    GuardMeansClean(Filtered(cfg));
    var blocked := Blocked(ConfigIssues(cfg));
    forall a ensures a in Filtered(cfg).aliases <==> a in cfg.aliases && a.name !in blocked {
      KeepExactly(cfg.aliases, blocked, a);
    }
    if a :| a in cfg.aliases && a.name == "" {
      assert !AliasOk(a, cfg.device.shell);
    }
  }

  /** The filter keeps what is good: exactly the entries without a name, and those under whose name no entry is
      bad or repeats an earlier key. */
  lemma FilterKeepsExactly(cfg: ResolvedConfig, a: Alias)
    ensures a in Filtered(cfg).aliases <==>
            && a in cfg.aliases
            && (a.name == ""
                || forall k :: 0 <= k < |cfg.aliases| && cfg.aliases[k].name == a.name ==>
                     EntryOk(cfg.aliases, cfg.device.shell, {}, k))
  {
    hide AliasOk, DuplicateKey, AliasListIssues, EntryOk, Keep;
    var sh := cfg.device.shell;
    var blocked := Blocked(ConfigIssues(cfg));
    KeepExactly(cfg.aliases, blocked, a);
    BlockedExactly(cfg, a.name);
  }

  /** A name is blocked exactly when an entry of that name is bad or repeats an earlier key. */
  lemma BlockedExactly(cfg: ResolvedConfig, name: string)
    ensures name in Blocked(ConfigIssues(cfg)) <==>
            name != "" && exists k :: 0 <= k < |cfg.aliases| && cfg.aliases[k].name == name
                                      && !EntryOk(cfg.aliases, cfg.device.shell, {}, k)
  {
    hide AliasOk, DuplicateKey, AliasListIssues, EntryOk;
    var sh := cfg.device.shell;
    if name in Blocked(ConfigIssues(cfg)) {
      AllErrors(cfg.aliases, sh, {});
      ErrorsOfErrors(ConfigIssues(cfg));
      var i :| i in ConfigIssues(cfg) && i.aliasName == name && name != "";
      var k := ReportedBad(cfg.aliases, sh, {}, i);
    }
    hide Blocked, ConfigIssues;
    forall k | 0 <= k < |cfg.aliases| && cfg.aliases[k].name == name && name != ""
               && !EntryOk(cfg.aliases, sh, {}, k)
      ensures name in Blocked(ConfigIssues(cfg))
    {
      BadBlocks(cfg, k);
    }
  }

  lemma BadBlocks(cfg: ResolvedConfig, k: int)
    requires 0 <= k < |cfg.aliases| && !EntryOk(cfg.aliases, cfg.device.shell, {}, k) && cfg.aliases[k].name != ""
    ensures cfg.aliases[k].name in Blocked(ConfigIssues(cfg))
  {
    hide AliasOk, DuplicateKey, AliasListIssues, EntryOk;
    AllErrors(cfg.aliases, cfg.device.shell, {});
    ErrorsOfErrors(ConfigIssues(cfg));
    var i := BadReported(cfg.aliases, cfg.device.shell, {}, k);
  }

  /** In PowerShell no two named aliases that the filter keeps are equal up to case; elsewhere none are equal. */
  lemma FilteredDistinct(cfg: ResolvedConfig, i: int, j: int)
    requires 0 <= i < j < |Filtered(cfg).aliases|
    requires Filtered(cfg).aliases[i].name != "" && Filtered(cfg).aliases[j].name != ""
    ensures var x, y := Filtered(cfg).aliases[i].name, Filtered(cfg).aliases[j].name;
            if cfg.device.shell == POWERSHELL then !SameUpToCase(x, y) else x != y
  {
    hide ConfigIssues, Name, Command, Description, DuplicateKey, SameUpToCase, Keep, Blocked;
    FilteredIsClean(cfg);
    var kept := Filtered(cfg).aliases;
    assert kept[i] in kept && kept[j] in kept;
    KeyExactly(kept[i].name, kept[j].name, cfg.device.shell);
  }

  /** Filtering a second time drops nothing, whatever the configuration. */
  lemma FilterIdempotent(cfg: ResolvedConfig)
    ensures Filtered(Filtered(cfg)) == Filtered(cfg)
  {
    var f := Filtered(cfg);
    NoNamedIssue(cfg);
    KeepAll(f.aliases, Blocked(ConfigIssues(f)));
  }

  lemma NoNamedIssue(cfg: ResolvedConfig)
    ensures Blocked(ConfigIssues(Filtered(cfg))) == {}
  {
    hide AliasOk, DuplicateKey, AliasListIssues, Keep;
    var f, sh := Filtered(cfg), cfg.device.shell;
    FilteredIsClean(cfg);
    AllErrors(f.aliases, sh, {});
    ErrorsOfErrors(ConfigIssues(f));
    forall i | i in AliasListIssues(f.aliases, sh, {}) ensures i.aliasName == "" {
      var k := ReportedBad(f.aliases, sh, {}, i);
      assert f.aliases[k] in f.aliases;
    }
  }

  /** A clean configuration passes through unchanged. */
  lemma FilterKeepsClean(cfg: ResolvedConfig)
    requires Guard(cfg)
    ensures Filtered(cfg) == cfg
  {
    KeepAll(cfg.aliases, Blocked(ConfigIssues(cfg)));
  }
}
