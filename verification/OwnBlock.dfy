/** The importer and the block in the rc file together: inserting AliasDeck's own block into a startup
    file changes nothing of what an import finds there. */
module OwnBlock {
  import opened Text
  import opened Importer
  import opened Bootstrap

  // ----- Lines of a concatenation -----

  lemma SplitFirst(h: string, rest: string)
    requires '\n' !in h
    ensures SplitLines(h + ['\n'] + rest) == [h] + SplitLines(rest)
  {
    var s := h + ['\n'] + rest;
    IndexCharIs(h, '\n', rest);
    assert s[..|h|] == h && s[|h| + 1..] == rest;
  }

  lemma NoBreak(s: string)
    requires '\n' !in s
    ensures SplitLines(s) == [s]
  {
  }

  lemma {:induction false} SplitJoin(a: string, b: string)
    ensures SplitLines(a + "\n" + b) == SplitLines(a) + SplitLines(b)
    decreases |a|
  {
    hide SplitLines;
    var i := IndexChar(a, '\n');
    if i < 0 {
      NoBreak(a);
      SplitFirst(a, b);
    } else {
      var h, t := a[..i], a[i + 1..];
      assert a == h + ['\n'] + t;
      SplitFirst(h, t);
      SplitJoin(t, b);
      SplitFirst(h, t + "\n" + b);
      assert a + "\n" + b == h + ['\n'] + (t + "\n" + b);
    }
  }

  /** Text without a line break extends the last line. */
  lemma {:induction false} SplitExtend(a: string, t: string)
    requires '\n' !in t
    ensures var lines := SplitLines(a); var n := |lines| - 1;
            SplitLines(a + t) == lines[..n] + [lines[n] + t]
    decreases |a|
  {
    hide SplitLines;
    var i := IndexChar(a, '\n');
    if i < 0 {
      NoBreak(a);
      NoBreak(a + t);
    } else {
      var h, r := a[..i], a[i + 1..];
      assert a == h + ['\n'] + r;
      SplitFirst(h, r);
      SplitExtend(r, t);
      SplitFirst(h, r + t);
      assert a + t == h + ['\n'] + (r + t);
    }
  }

  // ----- Parsing a concatenation -----

  /** Whether the parser is inside AliasDeck's own block after these lines. */
  function StateAfter(lines: seq<string>, inOwnBlock: bool): bool {
    if lines == [] then inOwnBlock
    else
      var line := CleanLine(lines[0]);
      StateAfter(lines[1..], if BeginMarker() <= line then true else if EndMarker() <= line then false else inOwnBlock)
  }

  lemma {:induction false} ParseAppend(x: seq<string>, y: seq<string>, n: nat, inOwnBlock: bool)
    ensures ParseLines(x + y, n, inOwnBlock)
            == Then(ParseLines(x, n, inOwnBlock), ParseLines(y, n + |x|, StateAfter(x, inOwnBlock)))
    decreases |x|
  {
    hide CleanLine, BeginMarker, EndMarker, ParseLine, Then;
    if x == [] {
      assert x + y == y;
      ThenNothing(ParseLines(y, n, inOwnBlock));
    } else {
      var line := CleanLine(x[0]);
      assert (x + y)[0] == x[0] && (x + y)[1..] == x[1..] + y;
      var next := if BeginMarker() <= line then true else if EndMarker() <= line then false else inOwnBlock;
      ParseAppend(x[1..], y, n + 1, next);
      ThenAssoc(ParseLine(line, n), ParseLines(x[1..], n + 1, false),
        ParseLines(y, n + |x|, StateAfter(x[1..], false)));
    }
  }

  /** One line counts only as cleaned. */
  lemma OneLine(p: string, q: string, n: nat, inOwnBlock: bool)
    requires CleanLine(p) == CleanLine(q)
    ensures ParseLines([p], n, inOwnBlock) == ParseLines([q], n, inOwnBlock)
    ensures StateAfter([p], inOwnBlock) == StateAfter([q], inOwnBlock)
  {
    hide CleanLine, BeginMarker, EndMarker, ParseLine, Then;
  }

  // ----- Carriage returns -----

  lemma SpaceFacts()
    ensures IsSpace('\r') && !IsSpace('#') && !IsSpace('>') && !IsSpace('<')
  {
  }

  lemma {:induction false} TrimLeftKeepsLast(s: string, c: char)
    requires IsSpace(c)
    ensures TrimLeftSpace(s + [c]) == if TrimLeftSpace(s) == "" then "" else TrimLeftSpace(s) + [c]
  {
    hide IsSpace;
    if s == "" {
      assert s + [c] == [c] && [c][1..] == "";
    } else if IsSpace(s[0]) {
      assert (s + [c])[1..] == s[1..] + [c];
      TrimLeftKeepsLast(s[1..], c);
    }
  }

  /** Trailing space is trimmed whatever is in front of it. */
  lemma TrimSpaceLast(s: string, c: char)
    requires IsSpace(c)
    ensures TrimSpace(s + [c]) == TrimSpace(s)
  {
    hide IsSpace;
    TrimLeftKeepsLast(s, c);
    var t := TrimLeftSpace(s);
    assert (t + [c])[..|t|] == t;
  }

  lemma ReturnCleaned(s: string)
    ensures CleanLine(s + "\r") == CleanLine(s)
  {
    hide TrimSpace, IsSpace;
    SpaceFacts();
    assert (s + "\r")[..|s|] == s;
    if s != "" && s[|s| - 1] == '\r' {
      assert s == s[..|s| - 1] + ['\r'];
      TrimSpaceLast(s[..|s| - 1], '\r');
    }
  }

  lemma CleanKeeps(s: string)
    requires s != "" && !IsSpace(s[0]) && !IsSpace(s[|s| - 1])
    ensures CleanLine(s) == s
  {
    hide TrimSpace, IsSpace;
    SpaceFacts();
    TrimSpaceKeeps(s);
  }

  lemma MarkersCleaned()
    ensures CleanLine(BeginMarker()) == BeginMarker() && CleanLine(EndMarker()) == EndMarker() && CleanLine("") == ""
    ensures !(BeginMarker() <= EndMarker()) && !(BeginMarker() <= "") && !(EndMarker() <= "")
  {
    hide CleanLine, IsSpace;
    SpaceFacts();
    CleanKeeps(BeginMarker());
    CleanKeeps(EndMarker());
    assert BeginMarker()[2] == '>' && EndMarker()[2] == '<';
    EmptyCleaned();
  }

  lemma EmptyCleaned()
    ensures CleanLine("") == ""
  {
  }

  // ----- The block -----

  function Return(eol: string): string {
    if eol == "\r\n" then "\r" else ""
  }

  function BlockLines(line: string, cr: string): seq<string> {
    [BeginMarker() + cr, line + cr, EndMarker() + cr]
  }

  lemma MarkedLines(line: string, eol: string)
    requires IsEOL(eol) && '\n' !in line
    ensures SplitLines(Marked(line, eol)) == BlockLines(line, Return(eol)) + [""]
  {
    hide BeginMarker, EndMarker, SplitLines, Return, Unlines, LineFree;
    var cr := Return(eol);
    ReturnIs(eol);
    ThreeLines(BeginMarker(), line, EndMarker(), cr);
    BlockLineFree(line, cr);
    SplitUnlines(BlockLines(line, cr));
  }

  lemma BlockLineFree(line: string, cr: string)
    requires '\n' !in line && '\n' !in cr
    ensures LineFree(BlockLines(line, cr))
  {
    hide BeginMarker, EndMarker;
    MarkersFree();
    FreeAppend(BeginMarker(), cr);
    FreeAppend(line, cr);
    FreeAppend(EndMarker(), cr);
  }

  lemma MarkersFree()
    ensures '\n' !in BeginMarker() && '\n' !in EndMarker()
  {
  }

  lemma FreeAppend(x: string, y: string)
    requires '\n' !in x && '\n' !in y
    ensures '\n' !in x + y
  {
  }

  lemma ReturnIs(eol: string)
    requires IsEOL(eol)
    ensures eol == Return(eol) + "\n" && '\n' !in Return(eol)
  {
  }

  lemma ThreeLines(a: string, b: string, c: string, cr: string)
    ensures var eol := cr + "\n";
            Unlines([a + cr, b + cr, c + cr]) == a + (eol + (b + (eol + (c + eol))))
  {
    var eol := cr + "\n";
    var lines := [a + cr, b + cr, c + cr];
    assert lines[1..] == [b + cr, c + cr] && lines[1..][1..] == [c + cr] && lines[1..][1..][1..] == [];
    Assoc(a, cr, "\n");
    Assoc(b, cr, "\n");
    Assoc(c, cr, "\n");
    assert Unlines([c + cr]) == c + eol;
    Assoc(b, eol, c + eol);
    Assoc(a, eol, b + (eol + (c + eol)));
  }

  lemma CleanReturn(s: string, cr: string)
    requires cr == "" || cr == "\r"
    ensures CleanLine(s + cr) == CleanLine(s)
  {
    if cr == "" {
      assert s + cr == s;
    } else {
      ReturnCleaned(s);
    }
  }

  /** A blank line and the block, from either state of the parser. */
  lemma BlockSkipped(line: string, cr: string, n: nat, inOwnBlock: bool)
    requires cr == "" || cr == "\r"
    ensures ParseLines(BlockLines(line, cr) + [""], n, inOwnBlock) == NOTHING
  {
    hide CleanLine, BeginMarker, EndMarker, Then, ParseLines;
    MarkersCleaned();
    CleanReturn(BeginMarker(), cr);
    CleanReturn(EndMarker(), cr);
    var b, l, e := BeginMarker() + cr, line + cr, EndMarker() + cr;
    assert BlockLines(line, cr) + [""] == [b] + ([l] + ([e] + [""]));
    PrefixSelf(BeginMarker());
    PrefixSelf(EndMarker());
    ParseFirst(b, [l] + ([e] + [""]), n, inOwnBlock);
    ParseFirst(l, [e] + [""], n + 1, true);
    ParseFirst(e, [""], n + 2, true);
    ParseFirst(e, [""], n + 2, false);
    BlankLine("", n + 3, false);
  }

  lemma ParseFirst(l: string, rest: seq<string>, n: nat, inOwnBlock: bool)
    ensures ParseLines([l] + rest, n, inOwnBlock) ==
            if BeginMarker() <= CleanLine(l) then ParseLines(rest, n + 1, true)
            else if EndMarker() <= CleanLine(l) then ParseLines(rest, n + 1, false)
            else if inOwnBlock then ParseLines(rest, n + 1, true)
            else Then(ParseLine(CleanLine(l), n), ParseLines(rest, n + 1, false))
  {
    hide CleanLine, BeginMarker, EndMarker, Then, ParseLine;
    assert ([l] + rest)[1..] == rest;
  }

  lemma PrefixSelf(s: string)
    ensures s <= s
  {
  }

  lemma BlankLine(cr: string, n: nat, inOwnBlock: bool)
    requires cr == "" || cr == "\r"
    ensures ParseLines([cr], n, inOwnBlock) == NOTHING && StateAfter([cr], inOwnBlock) == inOwnBlock
  {
    hide BeginMarker, EndMarker, CleanLine;
    MarkersCleaned();
    CleanReturn("", cr);
    assert "" + cr == cr;
    ThenNothing(NOTHING);
    assert AfterAliasKeyword("") == None;
  }

  /** Behind any lines, a blank line and the block yield nothing. */
  lemma TailSkipped(x: seq<string>, line: string, cr: string)
    requires cr == "" || cr == "\r"
    ensures ParseLines(x + ([cr] + (BlockLines(line, cr) + [""])), 1, false) == ParseLines(x, 1, false)
  {
    hide ParseLines, StateAfter, BlockLines, Then;
    var block := BlockLines(line, cr) + [""];
    var n, state := 1 + |x|, StateAfter(x, false);
    ParseAppend(x, [cr] + block, 1, false);
    ParseAppend([cr], block, n, state);
    BlankLine(cr, n, state);
    BlockSkipped(line, cr, n + 1, state);
    ThenNothing(NOTHING);
    ThenNothing(ParseLines(x, 1, false));
  }

  lemma LastLineClean(init: seq<string>, last: string, cr: string)
    requires cr == "" || cr == "\r"
    ensures ParseLines(init + [last + cr], 1, false) == ParseLines(init + [last], 1, false)
  {
    hide ParseLines, StateAfter, Then, CleanLine;
    CleanReturn(last, cr);
    OneLine(last + cr, last, 1 + |init|, StateAfter(init, false));
    ParseAppend(init, [last + cr], 1, false);
    ParseAppend(init, [last], 1, false);
  }

  lemma BlankLast(init: seq<string>)
    ensures ParseLines(init + [""], 1, false) == ParseLines(init, 1, false)
  {
    hide ParseLines, StateAfter, Then;
    ParseAppend(init, [""], 1, false);
    BlankLine("", 1 + |init|, StateAfter(init, false));
    ThenNothing(ParseLines(init, 1, false));
  }

  lemma WithBlock(content: string, body: string, cr: string, marked: string)
    requires content != "" && body == if content[|content| - 1] == '\n' then content[..|content| - 1] else content + cr
    ensures content + (Padding(content, cr + "\n") + marked) == body + "\n" + (cr + "\n" + marked)
  {
    var eol := cr + "\n";
    if content[|content| - 1] == '\n' {
      assert content == body + "\n";
    } else {
      Assoc(content, cr, "\n");
      Assoc(content, eol, eol);
    }
    Assoc(content, Padding(content, eol), marked);
    Assoc(body + "\n", eol, marked);
  }

  /** The lines of the content with the block appended. */
  lemma LinesWithBlock(content: string, line: string, eol: string)
    requires IsEOL(eol) && '\n' !in line && content != ""
    ensures var cr := Return(eol);
            var lines := SplitLines(if content[|content| - 1] == '\n' then content[..|content| - 1] else content + cr);
            SplitLines(content + BuildBlock(content, line, eol)) == lines + ([cr] + (BlockLines(line, cr) + [""]))
  {
    hide Marked, SplitLines, Padding, BlockLines, Return;
    var cr := Return(eol);
    var body := if content[|content| - 1] == '\n' then content[..|content| - 1] else content + cr;
    ReturnIs(eol);
    var marked := Marked(line, eol);
    WithBlock(content, body, cr, marked);
    MarkedLines(line, eol);
    var rest := cr + "\n" + marked;
    SplitJoin(body, rest);
    SplitJoin(cr, marked);
    NoBreak(cr);
  }

  /** Whatever a startup file holds, an import finds the same in it with the block appended. */
  lemma BlockChangesNothing(content: string, line: string, eol: string)
    requires IsEOL(eol) && '\n' !in line
    ensures ParsedFile(content + BuildBlock(content, line, eol)) == ParsedFile(content)
  {
    hide ParseLines, Marked, SplitLines, BlockLines;
    var cr := Return(eol);
    if content == "" {
      assert content + BuildBlock(content, line, eol) == Marked(line, eol);
      MarkedLines(line, eol);
      NoBreak("");
      BlankLine("", 1, false);
      BlockSkipped(line, cr, 1, false);
    } else {
      LinesWithBlock(content, line, eol);
      if content[|content| - 1] == '\n' {
        var body := content[..|content| - 1];
        assert content == body + "\n" + "";
        SplitJoin(body, "");
        NoBreak("");
        TailSkipped(SplitLines(body), line, cr);
        BlankLast(SplitLines(body));
      } else {
        SplitExtend(content, cr);
        var lines := SplitLines(content);
        var init, last := lines[..|lines| - 1], lines[|lines| - 1];
        assert lines == init + [last];
        TailSkipped(init + [last + cr], line, cr);
        LastLineClean(init, last, cr);
      }
    }
  }

  /** Inserting the block with AddBootstrap is invisible to an import, for every file. */
  lemma ImportUnaffected(content: string, line: string)
    requires '\n' !in line
    ensures ParsedFile(Added(Some(content), line).0.value) == ParsedFile(content)
  {
    hide ParsedFile, BuildBlock, Contains;
    BlockChangesNothing(content, line, DetectEOL(content));
  }
}
