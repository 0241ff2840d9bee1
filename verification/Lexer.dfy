/** The shell-word lexer of the importer (`internal/importers/posix.go`), and its correctness against
    an independent notion of quoted segments (sections 2.2.1 to 2.2.3 of the Shell Command Language
    volume of POSIX.1-2017). */
module Lexer {
  import opened Text
  import opened Posix

  // ----- What lexing means -----

  datatype Lexed = Lexed(value: string, expandable: bool, rest: string)

  function Before(value: string, expandable: bool, more: Lexed): Lexed {
    Lexed(value + more.value, expandable || more.expandable, more.rest)
  }

  datatype Quoted = Quoted(text: string, expanded: bool, consumed: nat)

  function After(text: string, expanded: bool, consumed: nat, more: Quoted): Quoted {
    Quoted(text + more.text, expanded || more.expanded, consumed + more.consumed)
  }

  /** The characters a backslash escapes inside double quotes. */
  predicate EscapableInDouble(c: char) {
    c == '"' || c == '\\' || c == '$' || c == '`'
  }

  predicate ExpandsInDouble(c: char) {
    c == '$' || c == '`'
  }

  /** Reads up to the closing double quote, or to the end when there is none. */
  function LexDouble(s: string): (q: Quoted)
    ensures q.consumed <= |s|
  {
    if s == "" then Quoted("", false, 0)
    else if s[0] == '"' then Quoted("", false, 1)
    else if s[0] == '\\' && |s| > 1 && EscapableInDouble(s[1]) then After([s[1]], false, 2, LexDouble(s[2..]))
    else After([s[0]], ExpandsInDouble(s[0]), 1, LexDouble(s[1..]))
  }

  predicate ExpandsBare(c: char) {
    c == '$' || c == '`' || c == '~'
  }

  /** One shell word: its segments concatenated, whether the shell would have expanded part of it,
      and what follows it, which is a blank or nothing. */
  function LexWord(s: string): Lexed
    decreases |s|
  {
    if s == "" || IsBlank(s[0]) then
      Lexed("", false, s)
    else if s[0] == '\'' then
      var t := s[1..];
      var j := IndexChar(t, '\'');
      if j < 0 then Lexed(t, false, "") else Before(t[..j], false, LexWord(t[j + 1..]))
    else if s[0] == '"' then
      var t := s[1..];
      var q := LexDouble(t);
      Before(q.text, q.expanded, LexWord(t[q.consumed..]))
    else if s[0] == '\\' then
      if |s| > 1 then Before([s[1]], false, LexWord(s[2..])) else Lexed("", false, "")
    else
      Before([s[0]], ExpandsBare(s[0]), LexWord(s[1..]))
  }

  predicate IsSuffix(r: string, s: string) {
    |r| <= |s| && r == s[|s| - |r|..]
  }

  lemma SuffixDrop(r: string, s: string, n: nat)
    requires n <= |s| && IsSuffix(r, s[n..])
    ensures IsSuffix(r, s)
  {
  }

  lemma SuffixSelf(s: string)
    ensures IsSuffix(s, s) && IsSuffix("", s)
  {
  }

  /** What is left is a suffix of the input that starts with a blank, or nothing. */
  lemma {:induction false} LexWordRest(s: string)
    ensures var r := LexWord(s).rest; IsSuffix(r, s) && (r == "" || IsBlank(r[0]))
    decreases |s|
  {
    hide LexDouble, IsSuffix;
    SuffixSelf(s);
    if s != "" && !IsBlank(s[0]) {
      var t, r := s[1..], LexWord(s).rest;
      if s[0] == '\'' {
        var j := IndexChar(t, '\'');
        if j >= 0 {
          LexWordRest(t[j + 1..]);
          SuffixDrop(r, t, j + 1);
          SuffixDrop(r, s, 1);
        }
      } else if s[0] == '"' {
        LexWordRest(t[LexDouble(t).consumed..]);
        SuffixDrop(r, t, LexDouble(t).consumed);
        SuffixDrop(r, s, 1);
      } else if s[0] == '\\' {
        if |s| > 1 {
          LexWordRest(s[2..]);
          SuffixDrop(r, s, 2);
        }
      } else {
        LexWordRest(t);
        SuffixDrop(r, s, 1);
      }
    }
  }

  lemma LexWordShortens(s: string)
    ensures |LexWord(s).rest| <= |s|
  {
    hide LexWord;
    LexWordRest(s);
  }

  // ----- The loops -----

  lemma BeforeAssoc(a: string, x: bool, b: string, y: bool, more: Lexed)
    ensures Before(a, x, Before(b, y, more)) == Before(a + b, x || y, more)
  {
    Assoc(a, b, more.value);
  }

  lemma AfterAssoc(a: string, x: bool, m: nat, b: string, y: bool, n: nat, more: Quoted)
    ensures After(a, x, m, After(b, y, n, more)) == After(a + b, x || y, m + n, more)
  {
    Assoc(a, b, more.text);
  }

  /** `lexDoubleQuoted`. */
  method LexDoubleQuoted(s: string) returns (text: string, expanded: bool, consumed: nat)
    ensures Quoted(text, expanded, consumed) == LexDouble(s)
  {
    hide LexDouble;
    text, expanded := "", false;
    var i := 0;
    assert After("", false, 0, LexDouble(s)) == LexDouble(s) by { assert "" + LexDouble(s).text == LexDouble(s).text; }
    while i < |s|
      invariant 0 <= i <= |s|
      invariant After(text, expanded, i, LexDouble(s[i..])) == LexDouble(s)
    {
      LexDoubleStep(s[i..]);
      if s[i] == '"' {
        assert text + "" == text;
        return text, expanded, i + 1;
      }
      var next := if s[i] == '\\' && i + 1 < |s| && EscapableInDouble(s[i + 1]) then s[i + 1] else s[i];
      var width := if s[i] == '\\' && i + 1 < |s| && EscapableInDouble(s[i + 1]) then 2 else 1;
      var sees := width == 1 && ExpandsInDouble(s[i]);
      assert s[i..][width..] == s[i + width..];
      AfterAssoc(text, expanded, i, [next], sees, width, LexDouble(s[i + width..]));
      text := text + [next];
      expanded := expanded || sees;
      i := i + width;
    }
    LexDoubleNothing();
    assert s[i..] == "" && text + "" == text;
    return text, expanded, |s|;
  }

  lemma LexDoubleNothing()
    ensures LexDouble("") == Quoted("", false, 0)
  {
  }

  lemma LexDoubleStep(s: string)
    requires s != ""
    ensures LexDouble(s) ==
            if s[0] == '"' then Quoted("", false, 1)
            else if s[0] == '\\' && |s| > 1 && EscapableInDouble(s[1]) then After([s[1]], false, 2, LexDouble(s[2..]))
            else After([s[0]], ExpandsInDouble(s[0]), 1, LexDouble(s[1..]))
  {
  }

  /** `lexValue`: stops at the first unquoted blank. */
  method LexValue(s: string) returns (value: string, expandable: bool, rest: string)
    ensures Lexed(value, expandable, rest) == LexWord(s)
  {
    hide LexWord, LexDouble, ExpandsBare, Before;
    value, expandable := "", false;
    var i := 0;
    BeforeNothing(LexWord(s));
    while i < |s|
      invariant 0 <= i <= |s|
      invariant Before(value, expandable, LexWord(s[i..])) == LexWord(s)
      decreases |s| - i
    {
      var c := s[i];
      LexWordAt(s, i);
      if IsBlank(c) {
        break;
      } else if c == '\'' {
        var j := IndexChar(s[i + 1..], '\'');
        if j < 0 {
          BeforeEnd(value, expandable, s[i + 1..], "");
          return value + s[i + 1..], expandable, "";
        }
        BeforeAssoc(value, expandable, s[i + 1..i + 1 + j], false, LexWord(s[i + j + 2..]));
        value := value + s[i + 1..i + 1 + j];
        i := i + j + 2;
      } else if c == '"' {
        var text, sawExpansion, n := LexDoubleQuoted(s[i + 1..]);
        BeforeAssoc(value, expandable, text, sawExpansion, LexWord(s[i + n + 1..]));
        value := value + text;
        expandable := expandable || sawExpansion;
        i := i + n + 1;
      } else if c == '\\' {
        if i + 1 < |s| {
          BeforeAssoc(value, expandable, [s[i + 1]], false, LexWord(s[i + 2..]));
          value := value + [s[i + 1]];
          i := i + 2;
        } else {
          LexWordEnd("");
          i := i + 1;
          assert s[i..] == "";
        }
      } else {
        BeforeAssoc(value, expandable, [c], ExpandsBare(c), LexWord(s[i + 1..]));
        if ExpandsBare(c) {
          expandable := true;
        }
        value := value + [c];
        i := i + 1;
      }
    }
    LexWordEnd(s[i..]);
    BeforeEnd(value, expandable, "", s[i..]);
    assert value + "" == value;
    rest := s[i..];
  }

  lemma BeforeNothing(r: Lexed)
    ensures Before("", false, r) == r
  {
    assert "" + r.value == r.value;
  }

  lemma BeforeEnd(value: string, expandable: bool, last: string, rest: string)
    ensures Before(value, expandable, Lexed(last, false, rest)) == Lexed(value + last, expandable, rest)
  {
  }

  /** One step of the lexer at offset i. */
  lemma LexWordAt(s: string, i: nat)
    requires i < |s|
    ensures LexWord(s[i..]) ==
            if IsBlank(s[i]) then Lexed("", false, s[i..])
            else if s[i] == '\'' then
              var j := IndexChar(s[i + 1..], '\'');
              if j < 0 then Lexed(s[i + 1..], false, "")
              else Before(s[i + 1..i + 1 + j], false, LexWord(s[i + j + 2..]))
            else if s[i] == '"' then
              var q := LexDouble(s[i + 1..]);
              Before(q.text, q.expanded, LexWord(s[i + q.consumed + 1..]))
            else if s[i] == '\\' then
              if i + 1 < |s| then Before([s[i + 1]], false, LexWord(s[i + 2..])) else Lexed("", false, "")
            else Before([s[i]], ExpandsBare(s[i]), LexWord(s[i + 1..]))
  {
    hide LexWord, LexDouble, ExpandsBare, Before, IsBlank, IndexChar;
    LexWordStep(s[i..]);
    assert s[i..][0] == s[i];
    DropDrop(s, i, 1);
    var t := s[i + 1..];
    if s[i] == '\'' {
      var j := IndexChar(t, '\'');
      if j >= 0 {
        DropDrop(s, i + 1, j + 1);
        TakeDrop(s, i + 1, j);
      }
    } else if s[i] == '"' {
      DropDrop(s, i + 1, LexDouble(t).consumed);
    } else if s[i] == '\\' && i + 1 < |s| {
      DropDrop(s, i, 2);
      assert s[i..][1] == s[i + 1];
    }
  }

  lemma DropDrop(s: string, i: nat, n: nat)
    requires i + n <= |s|
    ensures s[i..][n..] == s[i + n..]
  {
  }

  lemma TakeDrop(s: string, i: nat, n: nat)
    requires i + n <= |s|
    ensures s[i..][..n] == s[i..i + n]
  {
  }

  lemma LexWordStep(s: string)
    requires s != ""
    ensures LexWord(s) ==
            if IsBlank(s[0]) then Lexed("", false, s)
            else if s[0] == '\'' then
              var t := s[1..];
              var j := IndexChar(t, '\'');
              if j < 0 then Lexed(t, false, "") else Before(t[..j], false, LexWord(t[j + 1..]))
            else if s[0] == '"' then
              var t := s[1..];
              var q := LexDouble(t);
              Before(q.text, q.expanded, LexWord(t[q.consumed..]))
            else if s[0] == '\\' then
              if |s| > 1 then Before([s[1]], false, LexWord(s[2..])) else Lexed("", false, "")
            else Before([s[0]], ExpandsBare(s[0]), LexWord(s[1..]))
  {
  }

  // ----- Segments -----

  /** The pieces of a double-quoted segment. */
  datatype Atom =
    | Plain(c: char)         // stands for itself
    | EscapedSpecial(c: char)  // a backslash before one of the four characters it escapes
    | LoneBackslash(c: char)   // a backslash before any other character stays

  datatype Segment =
    | Single(text: string)
    | Double(atoms: seq<Atom>)
    | Escaped(c: char)
    | Bare(c: char)

  predicate AtomOk(a: Atom) {
    match a
    case Plain(c) => c != '"' && c != '\\'
    case EscapedSpecial(c) => EscapableInDouble(c)
    case LoneBackslash(c) => !EscapableInDouble(c)
  }

  predicate SegmentOk(g: Segment) {
    match g
    case Single(text) => '\'' !in text
    case Double(atoms) => forall a :: a in atoms ==> AtomOk(a)
    case Escaped(c) => true
    case Bare(c) => !IsBlank(c) && c != '\'' && c != '"' && c != '\\'
  }

  function PrintAtom(a: Atom): string {
    if a.Plain? then [a.c] else ['\\', a.c]
  }

  function AtomMeaning(a: Atom): string {
    if a.LoneBackslash? then ['\\', a.c] else [a.c]
  }

  function PrintAtoms(atoms: seq<Atom>): string {
    if atoms == [] then "" else PrintAtom(atoms[0]) + PrintAtoms(atoms[1..])
  }

  function AtomsMeaning(atoms: seq<Atom>): string {
    if atoms == [] then "" else AtomMeaning(atoms[0]) + AtomsMeaning(atoms[1..])
  }

  function Print(g: Segment): string {
    match g
    case Single(text) => "'" + text + "'"
    case Double(atoms) => "\"" + PrintAtoms(atoms) + "\""
    case Escaped(c) => ['\\', c]
    case Bare(c) => [c]
  }

  function Meaning(g: Segment): string {
    match g
    case Single(text) => text
    case Double(atoms) => AtomsMeaning(atoms)
    case Escaped(c) => [c]
    case Bare(c) => [c]
  }

  /** Holds an unescaped character that makes the shell expand the segment. */
  predicate Expands(g: Segment) {
    match g
    case Single(_) => false
    case Double(atoms) => exists a :: a in atoms && a.Plain? && ExpandsInDouble(a.c)
    case Escaped(_) => false
    case Bare(c) => ExpandsBare(c)
  }

  function PrintAll(gs: seq<Segment>): string {
    if gs == [] then "" else Print(gs[0]) + PrintAll(gs[1..])
  }

  function MeaningAll(gs: seq<Segment>): string {
    if gs == [] then "" else Meaning(gs[0]) + MeaningAll(gs[1..])
  }

  lemma LexAtom(a: Atom, more: string)
    requires AtomOk(a)
    ensures LexDouble(PrintAtom(a) + more)
            == After(AtomMeaning(a), a.Plain? && ExpandsInDouble(a.c), |PrintAtom(a)|, LexDouble(more))
  {
    hide LexDouble;
    var s := PrintAtom(a) + more;
    LexDoubleStep(s);
    match a
    case Plain(c) =>
      assert s[1..] == more;
    case EscapedSpecial(c) =>
      assert s[2..] == more;
    case LoneBackslash(c) =>
      var after := [c] + more;
      assert s == ['\\'] + after && s[1..] == after && after[1..] == more;
      LexDoubleStep(after);
      AfterAssoc(['\\'], false, 1, [c], false, 1, LexDouble(more));
  }

  lemma {:induction false} LexAtoms(atoms: seq<Atom>, rest: string)
    requires forall a :: a in atoms ==> AtomOk(a)
    ensures LexDouble(PrintAtoms(atoms) + "\"" + rest) ==
            Quoted(AtomsMeaning(atoms), Expands(Double(atoms)), |PrintAtoms(atoms)| + 1)
  {
    hide LexDouble, PrintAtom, AtomMeaning, AtomOk;
    if atoms == [] {
      LexDoubleStep(PrintAtoms(atoms) + "\"" + rest);
    } else {
      var a, tail := atoms[0], PrintAtoms(atoms[1..]);
      assert a in atoms && atoms == [a] + atoms[1..];
      LexAtoms(atoms[1..], rest);
      Assoc(PrintAtom(a), tail, "\"");
      Assoc(PrintAtom(a), tail + "\"", rest);
      LexAtom(a, tail + "\"" + rest);
    }
  }

  lemma PartsOf(x: string, c: char, y: string)
    ensures (x + [c] + y)[..|x|] == x && (x + [c] + y)[|x| + 1..] == y
  {
  }

  lemma LexSingle(text: string, more: string)
    requires '\'' !in text
    ensures LexWord("'" + text + "'" + more) == Before(text, false, LexWord(more))
  {
    hide LexWord, LexDouble, ExpandsBare, Before;
    var s, t := "'" + text + "'" + more, text + ['\''] + more;
    LexWordStep(s);
    assert s[0] == '\'' && s[1..] == t;
    IndexCharIs(text, '\'', more);
    PartsOf(text, '\'', more);
  }

  lemma LexDoubleSegment(atoms: seq<Atom>, more: string)
    requires forall a :: a in atoms ==> AtomOk(a)
    ensures LexWord("\"" + PrintAtoms(atoms) + "\"" + more) ==
            Before(AtomsMeaning(atoms), Expands(Double(atoms)), LexWord(more))
  {
    hide LexWord, LexDouble, ExpandsBare, Before, PrintAtoms, AtomsMeaning;
    var s, t := "\"" + PrintAtoms(atoms) + "\"" + more, PrintAtoms(atoms) + ['"'] + more;
    LexWordStep(s);
    assert s[0] == '"' && s[1..] == t;
    LexAtoms(atoms, more);
    PartsOf(PrintAtoms(atoms), '"', more);
  }

  lemma LexSegment(g: Segment, more: string)
    requires SegmentOk(g)
    ensures LexWord(Print(g) + more) == Before(Meaning(g), Expands(g), LexWord(more))
  {
    hide LexWord, LexDouble, ExpandsBare, Before, PrintAtoms, AtomsMeaning;
    match g
    case Single(text) =>
      LexSingle(text, more);
    case Double(atoms) =>
      LexDoubleSegment(atoms, more);
    case Escaped(c) =>
      LexWordStep(['\\', c] + more);
      assert (['\\', c] + more)[2..] == more;
    case Bare(c) =>
      LexWordStep([c] + more);
      assert ([c] + more)[1..] == more;
  }

  lemma {:induction false} LexPrefix(gs: seq<Segment>, more: string)
    requires forall g :: g in gs ==> SegmentOk(g)
    ensures LexWord(PrintAll(gs) + more) ==
            Before(MeaningAll(gs), exists g :: g in gs && Expands(g), LexWord(more))
  {
    hide SegmentOk, Print, Meaning, Expands, LexWord;
    if gs == [] {
      assert "" + more == more;
      BeforeNothing(LexWord(more));
    } else {
      var g, after := gs[0], PrintAll(gs[1..]) + more;
      assert g in gs && gs == [g] + gs[1..];
      LexPrefix(gs[1..], more);
      Assoc(Print(g), PrintAll(gs[1..]), more);
      LexSegment(g, after);
      BeforeAssoc(Meaning(g), Expands(g), MeaningAll(gs[1..]), exists h :: h in gs[1..] && Expands(h), LexWord(more));
    }
  }

  /** Whatever segments a word is written with, the lexer returns what they mean together, stops
      where the word stops, and notes an expansion exactly if a bare or double-quoted segment has an
      unescaped expansion character. */
  lemma LexSegments(gs: seq<Segment>, rest: string)
    requires forall g :: g in gs ==> SegmentOk(g)
    requires rest == "" || IsBlank(rest[0])
    ensures LexWord(PrintAll(gs) + rest) == Lexed(MeaningAll(gs), exists g :: g in gs && Expands(g), rest)
  {
    hide SegmentOk, Print, Meaning, Expands, LexWord;
    LexPrefix(gs, rest);
    LexWordEnd(rest);
    assert MeaningAll(gs) + "" == MeaningAll(gs);
  }

  lemma LexWordEnd(rest: string)
    requires rest == "" || IsBlank(rest[0])
    ensures LexWord(rest) == Lexed("", false, rest)
  {
  }

  // ----- Every word -----

  /** How a word ends: before a blank or the end of the text, or inside a quote that is never
      closed, or with a backslash that has nothing to escape. */
  datatype Ending =
    | Ended
    | OpenSingle(text: string)
    | OpenDouble(atoms: seq<Atom>, backslash: bool)
    | LoneEscape

  predicate EndingOk(e: Ending) {
    match e
    case OpenSingle(text) => '\'' !in text
    case OpenDouble(atoms, _) => forall a :: a in atoms ==> AtomOk(a)
    case _ => true
  }

  function PrintEnding(e: Ending): string {
    match e
    case Ended => ""
    case OpenSingle(text) => "'" + text
    case OpenDouble(atoms, backslash) => "\"" + PrintAtoms(atoms) + if backslash then "\\" else ""
    case LoneEscape => "\\"
  }

  /** An open quote takes the rest of the text; a last backslash counts only inside double quotes. */
  function EndingMeaning(e: Ending): string {
    match e
    case Ended => ""
    case OpenSingle(text) => text
    case OpenDouble(atoms, backslash) => AtomsMeaning(atoms) + if backslash then "\\" else ""
    case LoneEscape => ""
  }

  predicate EndingExpands(e: Ending) {
    e.OpenDouble? && Expands(Double(e.atoms))
  }

  /** What may follow a word. */
  predicate Follows(e: Ending, rest: string) {
    if e.Ended? then rest == "" || IsBlank(rest[0]) else rest == ""
  }

  ghost predicate WordOk(gs: seq<Segment>, e: Ending, rest: string) {
    (forall g :: g in gs ==> SegmentOk(g)) && EndingOk(e) && Follows(e, rest)
  }

  function WordText(gs: seq<Segment>, e: Ending): string {
    PrintAll(gs) + PrintEnding(e)
  }

  function WordMeaning(gs: seq<Segment>, e: Ending): string {
    MeaningAll(gs) + EndingMeaning(e)
  }

  predicate WordExpands(gs: seq<Segment>, e: Ending) {
    (exists g :: g in gs && Expands(g)) || EndingExpands(e)
  }

  lemma {:induction false} LexOpenAtoms(atoms: seq<Atom>, backslash: bool)
    requires forall a :: a in atoms ==> AtomOk(a)
    ensures var s := PrintAtoms(atoms) + if backslash then "\\" else "";
            LexDouble(s) == Quoted(AtomsMeaning(atoms) + if backslash then "\\" else "", Expands(Double(atoms)), |s|)
  {
    hide LexDouble, PrintAtom, AtomMeaning, AtomOk;
    var last := if backslash then "\\" else "";
    if atoms == [] {
      assert PrintAtoms(atoms) + last == last && AtomsMeaning(atoms) + last == last;
      LexDoubleLast();
    } else {
      var a, tail := atoms[0], PrintAtoms(atoms[1..]);
      assert a in atoms && atoms == [a] + atoms[1..];
      LexOpenAtoms(atoms[1..], backslash);
      Assoc(PrintAtom(a), tail, last);
      Assoc(AtomMeaning(a), AtomsMeaning(atoms[1..]), last);
      LexAtom(a, tail + last);
    }
  }

  lemma LexDoubleLast()
    ensures LexDouble("") == Quoted("", false, 0) && LexDouble("\\") == Quoted("\\", false, 1)
  {
    var last := "\\";
    assert last[1..] == "";
    assert "\\" + "" == "\\";
  }

  lemma LexEnding(e: Ending, rest: string)
    requires EndingOk(e) && Follows(e, rest)
    ensures LexWord(PrintEnding(e) + rest) == Lexed(EndingMeaning(e), EndingExpands(e), rest)
  {
    hide LexWord, LexDouble, PrintAtoms, AtomsMeaning, Expands;
    var s := PrintEnding(e) + rest;
    match e
    case Ended =>
      assert s == rest;
      LexWordEnd(rest);
    case OpenSingle(text) =>
      LexWordStep(s);
      assert s[1..] == text;
    case OpenDouble(atoms, backslash) =>
      var t := PrintAtoms(atoms) + if backslash then "\\" else "";
      LexWordStep(s);
      assert s == "\"" + t && s[1..] == t;
      LexOpenAtoms(atoms, backslash);
      LexWordEnd("");
      BeforeEnd(LexDouble(t).text, LexDouble(t).expanded, "", "");
      assert t[|t|..] == "" && EndingMeaning(e) + "" == EndingMeaning(e);
    case LoneEscape =>
      LexWordStep(s);
  }

  /** A word made of segments and an ending, closed or not, is read as what they mean. */
  lemma LexWritten(gs: seq<Segment>, e: Ending, rest: string)
    requires WordOk(gs, e, rest)
    ensures LexWord(WordText(gs, e) + rest) == Lexed(WordMeaning(gs, e), WordExpands(gs, e), rest)
  {
    hide SegmentOk, Expands, LexWord, PrintEnding, EndingMeaning, EndingExpands, EndingOk, Follows;
    Assoc(PrintAll(gs), PrintEnding(e), rest);
    LexPrefix(gs, PrintEnding(e) + rest);
    LexEnding(e, rest);
  }

  /** The atoms at the front of a text inside double quotes, up to the closing quote or the end. */
  lemma {:induction false} AtomsOf(s: string) returns (atoms: seq<Atom>, closed: bool, backslash: bool)
    ensures forall a :: a in atoms ==> AtomOk(a)
    ensures closed ==> PrintAtoms(atoms) + "\"" <= s
    ensures !closed ==> s == PrintAtoms(atoms) + if backslash then "\\" else ""
    decreases |s|
  {
    if s == "" {
      return [], false, false;
    }
    if s[0] == '"' {
      return [], true, false;
    }
    if s == "\\" {
      return [], false, true;
    }
    var a := if s[0] != '\\' then Plain(s[0])
             else if EscapableInDouble(s[1]) then EscapedSpecial(s[1]) else LoneBackslash(s[1]);
    var t := s[|PrintAtom(a)|..];
    var more, c, b := AtomsOf(t);
    assert s == PrintAtom(a) + t;
    atoms, closed, backslash := [a] + more, c, b;
    if c {
      Assoc(PrintAtom(a), PrintAtoms(more), "\"");
    } else {
      Assoc(PrintAtom(a), PrintAtoms(more), if backslash then "\\" else "");
    }
  }

  /** A text that is not at the end of a word starts with a segment, or is an ending. */
  lemma FirstPiece(s: string) returns (g: Option<Segment>, e: Ending, more: string)
    requires s != "" && !IsBlank(s[0])
    ensures g.Some? ==> SegmentOk(g.value) && s == Print(g.value) + more && |more| < |s|
    ensures g.None? ==> EndingOk(e) && !e.Ended? && s == PrintEnding(e)
  {
    hide PrintAtoms, AtomOk, IndexChar;
    e, more := Ended, s[1..];
    if s[0] == '\'' {
      var j := IndexChar(more, '\'');
      if j < 0 {
        return None, OpenSingle(more), "";
      }
      var text, behind := more[..j], more[j + 1..];
      assert more == text + "'" + behind;
      return Some(Single(text)), e, behind;
    }
    if s[0] == '"' {
      var atoms, closed, backslash := AtomsOf(more);
      if !closed {
        return None, OpenDouble(atoms, backslash), "";
      }
      var t := PrintAtoms(atoms) + "\"";
      assert more == t + more[|t|..];
      return Some(Double(atoms)), e, more[|t|..];
    }
    if s[0] == '\\' {
      if |s| == 1 {
        return None, LoneEscape, "";
      }
      return Some(Escaped(s[1])), e, s[2..];
    }
    g := Some(Bare(s[0]));
  }

  /** Every text starts with a word of this form, so that LexWritten describes the lexer on all
      inputs. */
  lemma {:induction false} EveryWord(s: string) returns (gs: seq<Segment>, e: Ending, rest: string)
    ensures WordOk(gs, e, rest) && s == WordText(gs, e) + rest
    decreases |s|
  {
    hide SegmentOk, Print, EndingOk, PrintEnding;
    if s == "" || IsBlank(s[0]) {
      EmptyWord(s);
      return [], Ended, s;
    }
    var g, last, more := FirstPiece(s);
    if g == None {
      assert s == "" + PrintEnding(last) + "";
      return [], last, "";
    }
    gs, e, rest := EveryWord(more);
    WordFront(g.value, gs, e, rest);
    gs := [g.value] + gs;
  }

  lemma EmptyWord(s: string)
    ensures s == WordText([], Ended) + s && EndingOk(Ended)
  {
  }

  lemma WordFront(g: Segment, gs: seq<Segment>, e: Ending, rest: string)
    ensures WordText([g] + gs, e) + rest == Print(g) + (WordText(gs, e) + rest)
  {
    assert ([g] + gs)[1..] == gs;
    Assoc(Print(g), PrintAll(gs), PrintEnding(e));
    Assoc(Print(g), PrintAll(gs) + PrintEnding(e), rest);
  }

  // ----- The lexer undoes the renderer's quoting -----

  /** The segments of a single-quoted string with escaped quotes. */
  function QuoteSegments(s: string): (gs: seq<Segment>)
    ensures forall g :: g in gs ==> SegmentOk(g) && !Expands(g)
    decreases |s|
  {
    var i := IndexChar(s, '\'');
    if i < 0 then [Single(s)] else [Single(s[..i]), Escaped('\'')] + QuoteSegments(s[i + 1..])
  }

  lemma {:induction false} ReplaceFrom(x: string, y: string)
    requires '\'' !in x
    ensures ReplaceAll(x + y, "'", "'\\''") == x + ReplaceAll(y, "'", "'\\''")
  {
    if x == "" {
      assert x + y == y;
    } else {
      assert (x + y)[1..] == x[1..] + y && (x + y)[0] == x[0];
      ReplaceFrom(x[1..], y);
      assert x == [x[0]] + x[1..];
    }
  }

  lemma {:induction false} QuoteIsSegments(s: string)
    ensures PrintAll(QuoteSegments(s)) == Quote(s) && MeaningAll(QuoteSegments(s)) == s
    decreases |s|
  {
    hide Quote, PrintAll, MeaningAll, IndexChar;
    var i := IndexChar(s, '\'');
    if i < 0 {
      QuotePlain(s);
    } else {
      var x, y := s[..i], s[i + 1..];
      QuoteIsSegments(y);
      TwoMore(Single(x), Escaped('\''), QuoteSegments(y));
      QuoteReopens(x, y);
      Assoc(x, ['\''], y);
      assert s == x + ['\''] + y;
    }
  }

  lemma QuotePlain(x: string)
    requires '\'' !in x
    ensures Quote(x) == PrintAll([Single(x)]) && MeaningAll([Single(x)]) == x
  {
    hide ReplaceAll;
    ReplaceNothing();
    ReplaceFrom(x, "");
    assert x + "" == x;
    assert "'" + x + "'" + "" == "'" + x + "'";
  }

  /** Quoting around one quote: close, escape, reopen. */
  lemma QuoteReopens(x: string, y: string)
    requires '\'' !in x
    ensures Quote(x + ['\''] + y) == "'" + x + "'" + (['\\', '\''] + Quote(y))
  {
    hide ReplaceAll;
    var body := ReplaceAll(y, "'", "'\\''");
    assert x + ['\''] + y == x + (['\''] + y);
    ReplaceFrom(x, ['\''] + y);
    ReplaceQuote(y);
    Reopen(x, body);
  }

  lemma ReplaceNothing()
    ensures ReplaceAll("", "'", "'\\''") == ""
  {
  }

  lemma ReplaceQuote(y: string)
    ensures ReplaceAll(['\''] + y, "'", "'\\''") == "'\\''" + ReplaceAll(y, "'", "'\\''")
  {
    assert (['\''] + y)[1..] == y;
  }

  lemma Reopen(x: string, body: string)
    ensures "'" + x + "'" + (['\\', '\''] + ("'" + body + "'")) == "'" + (x + ("'\\''" + body)) + "'"
  {
  }

  lemma TwoMore(g: Segment, h: Segment, tail: seq<Segment>)
    ensures PrintAll([g, h] + tail) == Print(g) + (Print(h) + PrintAll(tail))
    ensures MeaningAll([g, h] + tail) == Meaning(g) + (Meaning(h) + MeaningAll(tail))
  {
    assert ([g, h] + tail)[1..] == [h] + tail && ([h] + tail)[1..] == tail;
  }

  /** A quoted string lexes back to itself, without a note, whatever follows it. */
  lemma LexQuoted(s: string, rest: string)
    requires rest == "" || IsBlank(rest[0])
    ensures LexWord(Quote(s) + rest) == Lexed(s, false, rest)
  {
    hide Quote, LexWord;
    QuoteIsSegments(s);
    LexSegments(QuoteSegments(s), rest);
  }
}
