/** The bash and zsh renderer (`internal/renderers/posix.go`, `header.go`): quoting, comments, the
    banner and the generated file.  The text is specified as a list of newline-free lines, which is
    how every parser of it works; the methods write it piece by piece into a builder. */
module Posix {
  import opened Text
  import opened Domain
  import opened Validate

  // ----- Quoting -----

  /** `s` between single quotes, each quote in it closed, escaped and reopened (section 2.2.2 of
      the Shell Command Language volume of POSIX.1-2017). */
  function Quote(s: string): string {
    "'" + ReplaceAll(s, "'", "'\\''") + "'"
  }

  /** The quoted form with the escapes of embedded quotes undone, if `value` has that form. */
  function DecodeQuoted(value: string): Option<string> {
    if |value| < 2 || value[0] != '\'' || value[|value| - 1] != '\'' then
      None
    else
      var decoded := ReplaceAll(value[1..|value| - 1], "'\\''", "'");
      if Quote(decoded) == value then Some(decoded) else None
  }

  lemma {:induction false} UnescapeEscape(s: string)
    ensures ReplaceAll(ReplaceAll(s, "'", "'\\''"), "'\\''", "'") == s
  {
    if s != "" {
      UnescapeEscape(s[1..]);
      var rest := ReplaceAll(s[1..], "'", "'\\''");
      if s[0] == '\'' {
        assert "'" <= s;
        assert ("'\\''" + rest)[4..] == rest;
      } else {
        assert !("'" <= s);
        assert ([s[0]] + rest)[0] == s[0];
        assert ([s[0]] + rest)[1..] == rest;
      }
    }
  }

  /** Decoding succeeds on exactly the quoted strings, and recovers what was quoted. */
  lemma DecodeExactlyQuoted(value: string, s: string)
    ensures DecodeQuoted(value) == Some(s) <==> value == Quote(s)
  {
    UnescapeEscape(s);
    var body := ReplaceAll(s, "'", "'\\''");
    assert Quote(s)[1..|Quote(s)| - 1] == body;
  }

  lemma {:induction false} ReplaceAllFree(s: string, target: string, replacement: string, c: char)
    requires target != [] && c !in s && c !in replacement
    ensures c !in ReplaceAll(s, target, replacement)
    decreases |s|
  {
    if target <= s {
      ReplaceAllFree(s[|target|..], target, replacement, c);
    } else if s != [] {
      ReplaceAllFree(s[1..], target, replacement, c);
    }
  }

  lemma QuoteFree(s: string, c: char)
    requires c !in s && c != '\'' && c != '\\'
    ensures c !in Quote(s)
  {
    ReplaceAllFree(s, "'", "'\\''", c);
  }

  // ----- Comments -----

  function CleanControls(s: string): string {
    if s == "" then ""
    else
      (if s[0] == '\t' then " " else if s[0] < ' ' || s[0] == '\U{007F}' then "" else [s[0]])
      + CleanControls(s[1..])
  }

  function SanitizeComment(s: string): string {
    TrimSpace(CleanControls(s))
  }

  /** Whatever the input, the comment text cannot end its line. */
  lemma {:induction false} SanitizeSafe(s: string)
    ensures forall c :: c in SanitizeComment(s) ==> !(c < ' ' || c == '\U{007F}')
    ensures '\n' !in SanitizeComment(s) && '\r' !in SanitizeComment(s)
  {
    CleanControlsSafe(s);
  }

  lemma {:induction false} CleanControlsSafe(s: string)
    ensures forall c :: c in CleanControls(s) ==> !(c < ' ' || c == '\U{007F}')
  {
    if s != "" {
      CleanControlsSafe(s[1..]);
    }
  }

  /** How many of the characters in front appear in a comment: all but control characters other than tabs. */
  function Shown(s: string): nat {
    if s == "" then 0
    else
      var c := s[|s| - 1];
      Shown(s[..|s| - 1]) + if (c < ' ' || c == '\U{007F}') && c != '\t' then 0 else 1
  }

  lemma {:induction false} CleanedLast(s: string, c: char)
    ensures CleanControls(s + [c])
            == CleanControls(s) + if c == '\t' then " " else if c < ' ' || c == '\U{007F}' then "" else [c]
  {
    if s == "" {
      assert s + [c] == [c] && [c][1..] == "" && CleanControls("") == "";
    } else {
      assert (s + [c])[1..] == s[1..] + [c];
      CleanedLast(s[1..], c);
    }
  }

  /** Every character that is no control character stays, in its order, every tab becomes a blank, and nothing
      else appears. */
  lemma {:induction false} CleanedExactly(s: string)
    ensures |CleanControls(s)| == Shown(s)
    ensures forall i :: 0 <= i < |s| && (s[i] == '\t' || !(s[i] < ' ' || s[i] == '\U{007F}')) ==>
              Shown(s[..i]) < |CleanControls(s)|
              && CleanControls(s)[Shown(s[..i])] == if s[i] == '\t' then ' ' else s[i]
    decreases |s|
  {
    hide CleanControls;
    if s == "" {
      NothingShown();
    } else {
      var n := |s| - 1;
      var before, c := s[..n], s[n];
      CleanedExactly(before);
      CleanedLast(before, c);
      assert s == before + [c];
      forall i | 0 <= i < n ensures s[..i] == before[..i] {
      }
    }
  }

  lemma NothingShown()
    ensures CleanControls("") == ""
  {
  }

  // The fixed texts are functions and not constants, so that a proof which does not look inside one can
  // `hide` it; the long ones are concatenations, because deciding whether a character occurs in a literal
  // goes through all its characters, which is only cheap for a short one.

  // ----- The banner -----

  function CommentLine(comment: string, text: string): string {
    if text == "" then comment else comment + " " + text
  }

  function DeviceText(cfg: ResolvedConfig): string {
    var name := SanitizeComment(cfg.device.name);
    if name != "" then
      "Device:   " + name + " (" + cfg.device.platform + " / " + cfg.device.shell + ")"
    else
      "Device:   " + cfg.device.platform + " / " + cfg.device.shell
  }

  function RevisionText(cfg: ResolvedConfig): string {
    "Revision: " + if cfg.revision == "" then "(unknown)" else cfg.revision
  }

  function GeneratedText(): string {
    "Generated by AliasDeck." + " Do not edit."
  }

  function ChangesText(): string {
    "Changes made to this file" + " are lost on the next " + "`aliasdeck sync`."
  }

  function EditText(): string {
    "Edit your aliases.yaml, or use" + " the AliasDeck web UI."
  }

  /** Which file this is. */
  function IdentityLines(comment: string, cfg: ResolvedConfig): seq<string> {
    [CommentLine(comment, GeneratedText()),
     CommentLine(comment, ""),
     CommentLine(comment, DeviceText(cfg)),
     CommentLine(comment, RevisionText(cfg))]
  }

  /** What it holds and how to change it. */
  function NoticeLines(comment: string, count: nat): seq<string> {
    [CommentLine(comment, "Aliases:  " + Itoa(count)),
     CommentLine(comment, ""),
     CommentLine(comment, ChangesText()),
     CommentLine(comment, EditText())]
  }

  function HeaderLines(comment: string, cfg: ResolvedConfig, count: nat): seq<string> {
    IdentityLines(comment, cfg) + NoticeLines(comment, count)
  }

  // ----- The file -----

  function ManagedVar(): string {
    "ALIASDECK_" + "MANAGED_ALIAS_NAMES"
  }

  function GuardLine(): string {
    "if [ -n \"${" + ManagedVar() + "-}\" ]; then"
  }

  function ForLine(): string {
    "  for aliasdeck_managed_name" + " in $" + ManagedVar() + "; do"
  }

  function UnaliasLine(): string {
    "    unalias -- " + "\"$aliasdeck_managed_name\"" + " 2>/dev/null || true"
  }

  /** Removes the aliases that the previously sourced file recorded. */
  function ManagedBlock(): seq<string> {
    [GuardLine(), ForLine(), UnaliasLine(), "  done", "fi"]
  }

  function AssignLine(names: seq<string>): string {
    ManagedVar() + "=" + Quote(Join(names, " "))
  }

  function UnsetLine(): string {
    "unset " + "aliasdeck_managed_name"
  }

  function Names(aliases: seq<Alias>): seq<string> {
    if aliases == [] then [] else [aliases[0].name] + Names(aliases[1..])
  }

  function AliasLine(a: Alias): string {
    "alias " + a.name + "=" + Quote(a.command)
  }

  function Paragraph(a: Alias): seq<string> {
    var desc := SanitizeComment(a.description);
    [""] + (if desc == "" then [] else ["# " + desc]) + [AliasLine(a)]
  }

  function Paragraphs(aliases: seq<Alias>): seq<string> {
    if aliases == [] then [] else Paragraph(aliases[0]) + Paragraphs(aliases[1..])
  }

  function TypesetLine(): string {
    "typeset -g " + "ALIASDECK_GENERATED_ALIAS_FILE" + "=${${(%):-%N}:A}"
  }

  function ReloadOpenLine(): string {
    "_aliasdeck_reload_" + "generated_aliases() {"
  }

  function ReloadBodyLine(): string {
    "  [ -r \"$ALIASDECK_GENERATED_" + "ALIAS_FILE\" ] && . " + "\"$ALIASDECK_GENERATED_" + "ALIAS_FILE\""
  }

  function AutoloadLine(): string {
    "autoload -Uz add-zsh-hook"
  }

  function DropHookLine(): string {
    "add-zsh-hook -d precmd " + "_aliasdeck_reload_" + "generated_aliases" + " 2>/dev/null || true"
  }

  function AddHookLine(): string {
    "add-zsh-hook precmd " + "_aliasdeck_reload_" + "generated_aliases"
  }

  /** zsh also re-sources the file before each prompt. */
  function HookLines(sh: Shell): seq<string> {
    if sh != ZSH then []
    else
      ["", TypesetLine(), ReloadOpenLine(), ReloadBodyLine(), "}", AutoloadLine(), DropHookLine(),
       AddHookLine()]
  }

  /** The lines between the banner and the first alias. */
  function ManagedLines(names: seq<string>): seq<string> {
    [""] + ManagedBlock() + [AssignLine(names), UnsetLine()]
  }

  /** The block that hands the names of a migrated file to a shell that has none recorded. */
  function IfUnsetLine(): string {
    "if [ -z \"${" + ManagedVar() + "+x}\" ]; then"
  }

  function MigrationLines(names: seq<string>): seq<string> {
    if names == [] then [] else [IfUnsetLine(), "  " + AssignLine(names), "fi"]
  }

  /** Everything after the banner and the optional migration block. */
  function BodyLines(sorted: seq<Alias>, sh: Shell): seq<string> {
    ManagedBlock() + [AssignLine(Names(sorted)), UnsetLine()] + Paragraphs(sorted) + HookLines(sh)
  }

  /** The generated file, carrying the names `migrated` of an older file ([] for none). */
  function FileLines(cfg: ResolvedConfig, migrated: seq<string>): seq<string> {
    var sorted := SortAliases(cfg.aliases);
    HeaderLines("#", cfg, |sorted|) + [""] + MigrationLines(migrated) + BodyLines(sorted, cfg.device.shell)
  }

  function FileText(cfg: ResolvedConfig, migrated: seq<string>): string {
    Unlines(FileLines(cfg, migrated))
  }

  /** What rendering returns: nothing for a configuration the guard refuses. */
  function Rendered(cfg: ResolvedConfig): Option<string> {
    if Guard(cfg) then Some(FileText(cfg, [])) else None
  }

  // ----- Writing it -----

  /** `strings.Builder`. */
  class Builder {
    var text: string

    constructor ()
      ensures text == ""
    {
      text := "";
    }

    method WriteString(s: string)
      modifies this
      ensures text == old(text) + s
    {
      text := text + s;
    }

    /** Writes one line after `lines`, which follow what the builder held at `start`. */
    method WriteLine(s: string, ghost start: string, ghost lines: seq<string>) returns (ghost longer: seq<string>)
      requires text == start + Unlines(lines)
      modifies this
      ensures longer == lines + [s] && text == start + Unlines(longer)
    {
      WriteString(s);
      WriteString("\n");
      longer := lines + [s];
      UnlinesAppend(lines, [s]);
      assert Unlines([s]) == s + "\n" + "";
    }
  }

  method WriteHeader(b: Builder, comment: string, cfg: ResolvedConfig, count: nat)
    modifies b
    ensures b.text == old(b.text) + Unlines(HeaderLines(comment, cfg, count))
  {
    hide IdentityLines, NoticeLines, Unlines;
    WriteIdentity(b, comment, cfg);
    WriteNotice(b, comment, count);
    UnlinesAppend(IdentityLines(comment, cfg), NoticeLines(comment, count));
  }

  method WriteIdentity(b: Builder, comment: string, cfg: ResolvedConfig)
    modifies b
    ensures b.text == old(b.text) + Unlines(IdentityLines(comment, cfg))
  {
    hide SanitizeComment, CommentLine, Unlines, GeneratedText;
    ghost var start := b.text;
    UnlinesNone();
    ghost var lines := b.WriteLine(CommentLine(comment, GeneratedText()), start, []);
    lines := b.WriteLine(CommentLine(comment, ""), start, lines);
    var name := SanitizeComment(cfg.device.name);
    if name != "" {
      lines := b.WriteLine(CommentLine(comment,
        "Device:   " + name + " (" + cfg.device.platform + " / " + cfg.device.shell + ")"), start, lines);
    } else {
      lines := b.WriteLine(CommentLine(comment,
        "Device:   " + cfg.device.platform + " / " + cfg.device.shell), start, lines);
    }
    var revision := cfg.revision;
    if revision == "" {
      revision := "(unknown)";
    }
    lines := b.WriteLine(CommentLine(comment, "Revision: " + revision), start, lines);
    assert lines == IdentityLines(comment, cfg);
  }

  method WriteNotice(b: Builder, comment: string, count: nat)
    modifies b
    ensures b.text == old(b.text) + Unlines(NoticeLines(comment, count))
  {
    hide Itoa, CommentLine, Unlines, ChangesText, EditText;
    ghost var start := b.text;
    UnlinesNone();
    ghost var lines := b.WriteLine(CommentLine(comment, "Aliases:  " + Itoa(count)), start, []);
    lines := b.WriteLine(CommentLine(comment, ""), start, lines);
    lines := b.WriteLine(CommentLine(comment, ChangesText()), start, lines);
    lines := b.WriteLine(CommentLine(comment, EditText()), start, lines);
    assert lines == NoticeLines(comment, count);
  }

  lemma UnlinesNone()
    ensures Unlines([]) == ""
  {
  }

  /** One alias: a blank line, its comment if it has one, its definition. */
  method WriteParagraph(b: Builder, a: Alias)
    modifies b
    ensures b.text == old(b.text) + Unlines(Paragraph(a))
  {
    hide SanitizeComment, Quote, Unlines;
    ghost var start := b.text;
    UnlinesNone();
    ghost var lines := b.WriteLine("", start, []);
    var desc := SanitizeComment(a.description);
    if desc != "" {
      lines := b.WriteLine("# " + desc, start, lines);
    }
    lines := b.WriteLine("alias " + a.name + "=" + Quote(a.command), start, lines);
    assert lines == Paragraph(a);
  }

  method WriteManagedBlock(b: Builder, names: seq<string>)
    modifies b
    ensures b.text == old(b.text) + Unlines(ManagedLines(names))
  {
    hide GuardLine, ForLine, UnaliasLine, AssignLine, UnsetLine, Unlines;
    ghost var start := b.text;
    UnlinesNone();
    ghost var lines := b.WriteLine("", start, []);
    lines := b.WriteLine(GuardLine(), start, lines);
    lines := b.WriteLine(ForLine(), start, lines);
    lines := b.WriteLine(UnaliasLine(), start, lines);
    lines := b.WriteLine("  done", start, lines);
    lines := b.WriteLine("fi", start, lines);
    lines := b.WriteLine(AssignLine(names), start, lines);
    lines := b.WriteLine(UnsetLine(), start, lines);
    assert lines == ManagedLines(names);
  }

  /** `posixRenderer.Render`. */
  method Render(cfg: ResolvedConfig) returns (r: Option<string>)
    ensures r == Rendered(cfg)
  {
    hide HeaderLines, ManagedLines, Paragraphs, HookLines, SortAliases, Errors, Unlines, FileText;
    var issues := CheckConfig(cfg);
    if Errors(issues) != [] {
      return None;
    }
    var aliases := SortAliases(cfg.aliases);
    var b := new Builder();
    WriteHeader(b, "#", cfg, |aliases|);
    assert b.text == Unlines(HeaderLines("#", cfg, |aliases|));
    var names := CollectNames(aliases);
    WriteManagedBlock(b, names);
    WriteAliases(b, aliases);
    if cfg.device.shell == ZSH {
      b.WriteString(Unlines(HookLines(ZSH)));
    }
    NoHooks(cfg.device.shell);
    assert b.text == b.text + "";
    FilePieces(cfg);
    r := Some(b.text);
  }

  lemma FilePieces(cfg: ResolvedConfig)
    ensures var sorted := SortAliases(cfg.aliases);
            FileText(cfg, []) == Unlines(HeaderLines("#", cfg, |sorted|)) + Unlines(ManagedLines(Names(sorted)))
                                 + Unlines(Paragraphs(sorted)) + Unlines(HookLines(cfg.device.shell))
  {
    hide HeaderLines, ManagedBlock, AssignLine, UnsetLine, Paragraph, HookLines, SortAliases, Unlines;
    var sorted := SortAliases(cfg.aliases);
    var top := HeaderLines("#", cfg, |sorted|);
    var block := ManagedLines(Names(sorted));
    UnlinesAppend(top, block);
    UnlinesAppend(top + block, Paragraphs(sorted));
    UnlinesAppend(top + block + Paragraphs(sorted), HookLines(cfg.device.shell));
    assert top + block + Paragraphs(sorted) + HookLines(cfg.device.shell) == FileLines(cfg, []);
  }

  method CollectNames(aliases: seq<Alias>) returns (names: seq<string>)
    ensures names == Names(aliases)
  {
    names := [];
    for i := 0 to |aliases|
      invariant names + Names(aliases[i..]) == Names(aliases)
    {
      assert aliases[i..] == [aliases[i]] + aliases[i + 1..];
      names := names + [aliases[i].name];
    }
  }

  method WriteAliases(b: Builder, aliases: seq<Alias>)
    modifies b
    ensures b.text == old(b.text) + Unlines(Paragraphs(aliases))
  {
    hide Paragraph, Unlines;
    UnlinesNone();
    for i := 0 to |aliases|
      invariant b.text + Unlines(Paragraphs(aliases[i..])) == old(b.text) + Unlines(Paragraphs(aliases))
    {
      var a, rest := aliases[i], aliases[i + 1..];
      assert aliases[i..] == [a] + rest;
      UnlinesAppend(Paragraph(a), Paragraphs(rest));
      Assoc(b.text, Unlines(Paragraph(a)), Unlines(Paragraphs(rest)));
      WriteParagraph(b, a);
    }
  }

  lemma NoHooks(sh: Shell)
    ensures sh != ZSH ==> HookLines(sh) == [] && Unlines(HookLines(sh)) == ""
  {
  }
}
