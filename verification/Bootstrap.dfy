/** The marker-delimited block in a user's rc file (`internal/apply/bootstrap.go`): inserted and
    removed byte for byte, with a scan for the marker lines when the block was edited. */
module Bootstrap {
  import opened Text

  function BeginMarker(): string {
    "# >>> aliasdeck >>>"
  }

  function EndMarker(): string {
    "# <<< aliasdeck <<<"
  }

  function DetectEOL(existing: string): string {
    if Contains(existing, "\r\n") then "\r\n" else "\n"
  }

  predicate IsEOL(eol: string) {
    eol == "\n" || eol == "\r\n"
  }

  /** What separates the block from the content before it. */
  function Padding(existing: string, eol: string): string {
    if existing == "" then "" else if existing[|existing| - 1] != '\n' then eol + eol else eol
  }

  /** The marker lines around `interior`. */
  function Marked(interior: string, eol: string): string {
    BeginMarker() + (eol + (interior + (eol + (EndMarker() + eol))))
  }

  /** `buildBlock`: the exact bytes appended after `existing`. */
  function BuildBlock(existing: string, line: string, eol: string): string {
    Padding(existing, eol) + Marked(line, eol)
  }

  // ----- Marker lines -----

  /** `marker` is a whole line of the content, starting at `i`. */
  predicate WholeLineAt(content: string, marker: string, i: int) {
    && OccursAt(content, marker, i)
    && (i == 0 || content[i - 1] == '\n')
    && var end := i + |marker|;
       || end == |content| || content[end] == '\n'
       || (content[end] == '\r' && end + 1 < |content| && content[end + 1] == '\n')
  }

  /** The first whole line, at or after `from`, that is the marker; -1 if there is none. */
  function FirstLine(content: string, marker: string, from: nat): int
    decreases |content| + 1 - from
  {
    if from > |content| then -1
    else if WholeLineAt(content, marker, from) then from
    else FirstLine(content, marker, from + 1)
  }

  lemma {:induction false} FirstLineIs(content: string, marker: string, from: nat, i: int)
    requires from <= i && WholeLineAt(content, marker, i)
    requires forall j :: from <= j < i ==> !WholeLineAt(content, marker, j)
    ensures FirstLine(content, marker, from) == i
    decreases i - from
  {
    hide WholeLineAt;
    assert i <= |content| by { LineInside(content, marker, i); }
    if from < i {
      FirstLineIs(content, marker, from + 1, i);
    }
  }

  lemma LineInside(content: string, marker: string, i: int)
    requires WholeLineAt(content, marker, i)
    ensures 0 <= i <= |content|
  {
  }

  lemma {:induction false} FirstLineNone(content: string, marker: string, from: nat)
    requires forall j :: from <= j ==> !WholeLineAt(content, marker, j)
    ensures FirstLine(content, marker, from) == -1
    decreases |content| + 1 - from
  {
    hide WholeLineAt;
    if from <= |content| {
      FirstLineNone(content, marker, from + 1);
    }
  }

  lemma {:induction false} FirstLineFits(content: string, marker: string, from: nat)
    ensures var r := FirstLine(content, marker, from); r == -1 || (from <= r && r + |marker| <= |content|)
    decreases |content| + 1 - from
  {
    if from <= |content| && !WholeLineAt(content, marker, from) {
      FirstLineFits(content, marker, from + 1);
    }
  }

  /** Between the offset and the next occurrence of the marker there is no marker line. */
  lemma NoLineBefore(content: string, marker: string, offset: nat)
    requires offset <= |content|
    ensures var i := Index(content[offset..], marker);
            && (i >= 0 ==> OccursAt(content, marker, offset + i))
            && forall j :: offset <= j && (i < 0 || j < offset + i) ==> !WholeLineAt(content, marker, j)
  {
    hide WholeLineAt, OccursAt, Index;
    var i := Index(content[offset..], marker);
    IndexSign(content[offset..], marker);
    if i >= 0 { OccursShift(content, marker, offset, offset + i); }
    forall j | offset <= j && (i < 0 || j < offset + i) ensures !WholeLineAt(content, marker, j) {
      OccursShift(content, marker, offset, j);
      LineOccurs(content, marker, j);
    }
  }

  lemma IndexSign(s: string, pat: string)
    ensures Index(s, pat) >= -1
  {
  }

  lemma LineOccurs(content: string, marker: string, j: int)
    ensures WholeLineAt(content, marker, j) ==> OccursAt(content, marker, j)
  {
  }

  /** `indexOfLine`: substring search, moving on while the hit is not a whole line. */
  method IndexOfLine(content: string, marker: string) returns (r: int)
    requires marker != ""
    ensures r == FirstLine(content, marker, 0)
  {
    hide Index, FirstLine;
    var offset := 0;
    while true
      invariant 0 <= offset <= |content|
      invariant forall j :: 0 <= j < offset ==> !WholeLineAt(content, marker, j)
      decreases |content| - offset
    {
      var i := Index(content[offset..], marker);
      NoLineBefore(content, marker, offset);
      if i < 0 {
        FirstLineNone(content, marker, 0);
        return -1;
      }
      var idx := offset + i;
      var atLineStart := idx == 0 || content[idx - 1] == '\n';
      var end := idx + |marker|;
      var atLineEnd := end == |content| || content[end] == '\n'
        || (content[end] == '\r' && end + 1 < |content| && content[end + 1] == '\n');
      if atLineStart && atLineEnd {
        FirstLineIs(content, marker, 0, idx);
        return idx;
      }
      offset := idx + 1;
    }
  }

  lemma OccursShift(s: string, pat: string, offset: nat, j: int)
    requires offset <= |s| && offset <= j
    ensures OccursAt(s[offset..], pat, j - offset) == OccursAt(s, pat, j)
  {
    if j + |pat| <= |s| {
      assert s[offset..][j - offset..j - offset + |pat|] == s[j..j + |pat|];
    }
  }

  // ----- The fallback scan -----

  /** The position before the line ending that ends at `pos`, if one does. */
  function StripTrailingEOL(content: string, pos: nat): Option<nat>
    requires pos <= |content|
  {
    if pos >= 2 && content[pos - 2] == '\r' && content[pos - 1] == '\n' then Some(pos - 2)
    else if pos >= 1 && content[pos - 1] == '\n' then Some(pos - 1)
    else None
  }

  /** Where the removed span starts: a blank separator line before the block goes too. */
  function SpanStart(content: string, begin: nat): (r: nat)
    requires begin <= |content|
    ensures r <= begin
  {
    match StripTrailingEOL(content, begin)
    case None => begin
    case Some(p) => if p == 0 || StripTrailingEOL(content, p).Some? then p else begin
  }

  /** Where it ends: after the line ending of the end marker. */
  function SpanEnd(content: string, lineEnd: nat): (r: nat)
    requires lineEnd <= |content|
    ensures lineEnd <= r <= |content|
  {
    if lineEnd + 1 < |content| && content[lineEnd] == '\r' && content[lineEnd + 1] == '\n' then lineEnd + 2
    else if lineEnd < |content| && content[lineEnd] == '\n' then lineEnd + 1
    else lineEnd
  }

  /** `removeMarkerScan`: None when there is no well-formed pair of marker lines. */
  function MarkerScan(content: string): Option<string> {
    var begin := FirstLine(content, BeginMarker(), 0);
    var end := FirstLine(content, EndMarker(), 0);
    FirstLineFits(content, BeginMarker(), 0);
    FirstLineFits(content, EndMarker(), 0);
    if begin < 0 || end < begin then None
    else Some(content[..SpanStart(content, begin)] + content[SpanEnd(content, end + |EndMarker()|)..])
  }

  method RemoveMarkerScan(content: string) returns (updated: string, found: bool)
    ensures (if found then Some(updated) else None) == MarkerScan(content)
    ensures !found ==> updated == content
  {
    FirstLineFits(content, BeginMarker(), 0);
    FirstLineFits(content, EndMarker(), 0);
    hide FirstLine, BeginMarker, EndMarker;
    MarkersNotEmpty();
    var beginIdx := IndexOfLine(content, BeginMarker());
    if beginIdx < 0 {
      return content, false;
    }
    var endIdx := IndexOfLine(content, EndMarker());
    if endIdx < beginIdx {
      return content, false;
    }
    var start := beginIdx;
    var p := StripTrailingEOL(content, beginIdx);
    if p.Some? {
      var p2 := StripTrailingEOL(content, p.value);
      if p2.Some? || p.value == 0 {
        start := p.value;
      }
    }
    var lineEnd := endIdx + |EndMarker()|;
    if lineEnd + 1 < |content| && content[lineEnd] == '\r' && content[lineEnd + 1] == '\n' {
      lineEnd := lineEnd + 2;
    } else if lineEnd < |content| && content[lineEnd] == '\n' {
      lineEnd := lineEnd + 1;
    }
    return content[..start] + content[lineEnd..], true;
  }

  lemma MarkersNotEmpty()
    ensures BeginMarker() != "" && EndMarker() != ""
  {
  }

  // ----- The rc file -----

  /** What adding does to a file, and the block it records ("" when it leaves the file alone). */
  function Added(content: Option<string>, line: string): (Option<string>, string) {
    var existing := if content.Some? then content.value else "";
    if Contains(existing, BeginMarker()) then (content, "")
    else
      var block := BuildBlock(existing, line, DetectEOL(existing));
      (Some(existing + block), block)
  }

  /** What removing does, and whether it was byte-exact. */
  function Removed(content: Option<string>, block: string): (Option<string>, bool) {
    if content.None? then (content, true)
    else
      var i := Index(content.value, block);
      if block != "" && i >= 0 then (Some(content.value[..i] + content.value[i + |block|..]), true)
      else
        match MarkerScan(content.value)
        case None => (content, true)
        case Some(updated) => (Some(updated), false)
  }

  /** What goes wrong with the file this time: reading it, unless it is missing, or writing it. */
  datatype Io = Io(readFails: bool, writeFails: bool)

  /** Adding when the file may fail: None is an error, which leaves the file alone. */
  function AddedUnder(content: Option<string>, line: string, io: Io): (Option<string>, Option<string>) {
    var (after, block) := Added(content, line);
    if io.readFails || (block != "" && io.writeFails) then (content, None) else (after, Some(block))
  }

  /** Removing when the file may fail. */
  function RemovedUnder(content: Option<string>, block: string, io: Io): (Option<string>, Option<bool>) {
    var (after, exact) := Removed(content, block);
    if io.readFails || (after != content && io.writeFails) then (content, None) else (after, Some(exact))
  }

  class RcFile {
    var content: Option<string>

    constructor (content: Option<string>)
      ensures this.content == content
    {
      this.content := content;
    }

    method AddBootstrap(line: string, io: Io) returns (r: Option<string>)
      modifies this
      ensures (content, r) == AddedUnder(old(content), line, io)
    {
      if io.readFails {
        return None;
      }
      var existing := "";
      if content.Some? {
        existing := content.value;
      }
      if Contains(existing, BeginMarker()) {
        return Some("");
      }
      var block := BuildBlock(existing, line, DetectEOL(existing));
      BlockNotEmpty(existing, line, DetectEOL(existing));
      if io.writeFails {
        return None;
      }
      content := Some(existing + block);
      return Some(block);
    }

    method RemoveBootstrap(block: string, io: Io) returns (r: Option<bool>)
      modifies this
      ensures (content, r) == RemovedUnder(old(content), block, io)
    {
      hide BeginMarker, EndMarker, MarkerScan;
      if io.readFails {
        return None;
      }
      if content == None {
        return Some(true);
      }
      var existing := content.value;
      if block != "" {
        var idx := Index(existing, block);
        if idx >= 0 {
          var cut := existing[..idx] + existing[idx + |block|..];
          assert |cut| < |existing|;
          if io.writeFails {
            return None;
          }
          content := Some(cut);
          return Some(true);
        }
      }
      var updated, found := RemoveMarkerScan(existing);
      if !found {
        return Some(true);
      }
      ScanShortens(existing);
      if io.writeFails {
        return None;
      }
      content := Some(updated);
      return Some(false);
    }

    /** `BootstrapTargets`: whether there is a block, and whether it sources this line. */
    method BootstrapTargets(line: string, readFails: bool) returns (r: Option<(bool, bool)>)
      ensures r.None? <==> readFails
      ensures r.Some? ==> r.value.0 == IsMarked(content)
      ensures r.Some? && r.value.0 ==> r.value.1 == Contains(content.value, line)
    {
      if readFails {
        return None;
      }
      if content == None || !Contains(content.value, BeginMarker()) {
        return Some((false, false));
      }
      return Some((true, Contains(content.value, line)));
    }
  }

  /** The file has the marker text somewhere, as AddBootstrap tests it. */
  predicate IsMarked(content: Option<string>) {
    content.Some? && Contains(content.value, BeginMarker())
  }

  lemma ScanShortens(content: string)
    ensures MarkerScan(content).Some? ==> |MarkerScan(content).value| < |content|
  {
    hide BeginMarker, EndMarker, SpanStart, SpanEnd, FirstLine;
    FirstLineFits(content, BeginMarker(), 0);
    FirstLineFits(content, EndMarker(), 0);
    MarkersNotEmpty();
  }

  // ----- Where the markers can occur -----

  /** The shape of a marker: a number sign that occurs nowhere else in it, and no line break. */
  predicate MarkerLike(m: string) {
    |m| > 2 && m[0] == '#' && '#' !in m[1..] && '\n' !in m && '\r' !in m
  }

  lemma MarkersAreMarkers()
    ensures MarkerLike(BeginMarker()) && MarkerLike(EndMarker())
    ensures |BeginMarker()| == |EndMarker()| && BeginMarker()[2] == '>' && EndMarker()[2] == '<'
  {
  }

  /** No occurrence of `m` starts within `x` when `y` follows it. */
  ghost predicate Clear(x: string, y: string, m: string) {
    forall j :: 0 <= j < |x| ==> !OccursAt(x + y, m, j)
  }

  lemma OccursBehind(x: string, y: string, m: string, k: nat)
    ensures OccursAt(x + y, m, |x| + k) == OccursAt(y, m, k)
  {
    if k + |m| <= |y| {
      assert (x + y)[|x| + k..|x| + k + |m|] == y[k..k + |m|];
    }
  }

  lemma ClearAppend(x: string, z: string, y: string, m: string)
    requires Clear(x, z + y, m) && Clear(z, y, m)
    ensures Clear(x + z, y, m)
  {
    Assoc(x, z, y);
    forall j | 0 <= j < |x + z| ensures !OccursAt(x + z + y, m, j) {
      if j >= |x| { OccursBehind(x, z + y, m, j - |x|); }
    }
  }

  /** Text without the marker stays clear of it if what follows cannot continue a marker. */
  lemma ClearText(x: string, y: string, m: string)
    requires MarkerLike(m) && Index(x, m) == -1
    requires y != "" && (y[0] == '\n' || y[0] == '\r' || y[0] == '#')
    ensures Clear(x, y, m)
  {
    forall j | 0 <= j < |x| ensures !OccursAt(x + y, m, j) {
      if j + |m| <= |x| {
        assert (x + y)[j..j + |m|] == x[j..j + |m|];
        assert !OccursAt(x, m, j);
      } else if j + |m| <= |x + y| {
        var k := |x| - j;
        assert (x + y)[j..j + |m|][k] == y[0];
        assert m[1..][k - 1] == m[k];
      }
    }
  }

  lemma ClearBreak(eol: string, y: string, m: string)
    requires MarkerLike(m) && (IsEOL(eol) || eol == "" || exists e :: IsEOL(e) && eol == e + e)
    ensures Clear(eol, y, m)
  {
    forall j | 0 <= j < |eol| ensures !OccursAt(eol + y, m, j) {
      assert (eol + y)[j] != '#';
      if j + |m| <= |eol + y| {
        assert (eol + y)[j..j + |m|][0] == (eol + y)[j];
      }
    }
  }

  /** The first occurrence of the begin marker is the block's own. */
  lemma BeginFirst(a: string, pad: string, rest: string)
    requires Index(a, BeginMarker()) == -1
    requires IsEOL(pad) || pad == "" || exists e :: IsEOL(e) && pad == e + e
    ensures Clear(a + pad, BeginMarker() + rest, BeginMarker())
  {
    hide BeginMarker;
    MarkersAreMarkers();
    ClearText(a, pad + (BeginMarker() + rest), BeginMarker());
    ClearBreak(pad, BeginMarker() + rest, BeginMarker());
    ClearAppend(a, pad, BeginMarker() + rest, BeginMarker());
  }

  // ----- Exact removal -----

  lemma PartOccurs(s: string, pad: string, part: string, tail: string, j: int)
    ensures OccursAt(s, pad + (part + tail), j) ==> OccursAt(s, part, j + |pad|)
  {
    var whole := pad + (part + tail);
    if OccursAt(s, whole, j) {
      assert |whole| == |pad| + |part| + |tail|;
      assert forall i :: 0 <= i < |part| ==> s[j + |pad| + i] == s[j..j + |whole|][|pad| + i] == part[i];
      assert s[j + |pad|..j + |pad| + |part|] == part;
    }
  }

  lemma PaddingIsBreaks(existing: string, eol: string)
    requires IsEOL(eol)
    ensures var pad := Padding(existing, eol); IsEOL(pad) || pad == "" || exists e :: IsEOL(e) && pad == e + e
  {
  }

  /** The recorded block is found where it was put, however the text around it was edited, as long
      as no begin marker was added before it. */
  lemma BlockFoundAt(a: string, existing: string, line: string, eol: string, b: string)
    requires IsEOL(eol) && Index(a, BeginMarker()) == -1
    ensures Index(a + BuildBlock(existing, line, eol) + b, BuildBlock(existing, line, eol)) == |a|
  {
    hide Padding, BeginMarker, EndMarker, IsEOL;
    var pad := Padding(existing, eol);
    var block := BuildBlock(existing, line, eol);
    var tail := eol + (line + (eol + (EndMarker() + eol)));
    var s := a + block + b;
    PaddingIsBreaks(existing, eol);
    assert s == (a + pad) + (BeginMarker() + (tail + b)) by {
      assert block == pad + (BeginMarker() + tail);
      assert a + (pad + (BeginMarker() + tail)) + b == (a + pad) + (BeginMarker() + (tail + b));
    }
    BeginFirst(a, pad, tail + b);
    assert s[|a|..|a| + |block|] == block;
    forall j | 0 <= j < |a| ensures !OccursAt(s, block, j) {
      PartOccurs(s, pad, BeginMarker(), tail, j);
    }
    IndexIs(s, block, |a|);
  }

  /** Removing a recorded block restores exactly the text around it. */
  lemma ExactRemoval(a: string, existing: string, line: string, eol: string, b: string)
    requires IsEOL(eol) && Index(a, BeginMarker()) == -1
    ensures Removed(Some(a + BuildBlock(existing, line, eol) + b), BuildBlock(existing, line, eol))
            == (Some(a + b), true)
  {
    hide BuildBlock, MarkerScan, Index;
    var block := BuildBlock(existing, line, eol);
    BlockFoundAt(a, existing, line, eol, b);
    var s := a + block + b;
    assert s[..|a|] == a && s[|a| + |block|..] == b;
    BlockNotEmpty(existing, line, eol);
  }

  lemma BlockNotEmpty(existing: string, line: string, eol: string)
    ensures BuildBlock(existing, line, eol) != ""
  {
  }

  lemma DetectsEOL(existing: string)
    ensures IsEOL(DetectEOL(existing))
  {
  }

  // ----- Adding and removing -----

  /** Adding, then removing what was recorded, is the identity (a missing file becomes empty), and
      adding twice is adding once, provided the file had no begin marker. */
  lemma AddThenRemove(content: Option<string>, line: string)
    requires content.Some? ==> Index(content.value, BeginMarker()) == -1
    ensures var (after, block) := Added(content, line);
            && Removed(after, block) == (Some(if content.Some? then content.value else ""), true)
            && after.Some? && Added(after, line) == (after, "") && Contains(after.value, line)
  {
    hide BuildBlock, BeginMarker, MarkerScan, Index;
    var existing := if content.Some? then content.value else "";
    EmptyHasNoMarker();
    DetectsEOL(existing);
    var block := BuildBlock(existing, line, DetectEOL(existing));
    ExactRemoval(existing, existing, line, DetectEOL(existing), "");
    assert existing + block + "" == existing + block && existing + "" == existing;
    BlockHas(existing, line, DetectEOL(existing));
  }

  lemma EmptyHasNoMarker()
    ensures Index("", BeginMarker()) == -1
  {
  }

  lemma OccursThenContains(a: string, m: string, b: string)
    ensures Contains(a + m + b, m)
  {
    assert (a + m + b)[|a|..|a| + |m|] == m;
    assert OccursAt(a + m + b, m, |a|);
  }

  lemma BlockHas(existing: string, line: string, eol: string)
    ensures Contains(existing + BuildBlock(existing, line, eol), BeginMarker())
    ensures Contains(existing + BuildBlock(existing, line, eol), line)
  {
    hide BeginMarker, EndMarker, Padding, Contains;
    var pad, s := Padding(existing, eol), existing + BuildBlock(existing, line, eol);
    var end := eol + (EndMarker() + eol);
    assert s == existing + pad + BeginMarker() + (eol + (line + end));
    OccursThenContains(existing + pad, BeginMarker(), eol + (line + end));
    assert s == existing + pad + BeginMarker() + eol + line + end;
    OccursThenContains(existing + pad + BeginMarker() + eol, line, end);
  }

  /** A file that already has the marker text is left alone and nothing is recorded.  Calling
      RemoveBootstrap on it all the same, with the empty block, changes it exactly when it has a line that
      is the begin marker and the first one that is the end marker does not come before it. */
  lemma AddToMarked(content: string, line: string)
    requires Contains(content, BeginMarker())
    ensures var (after, block) := Added(Some(content), line);
            var begin, end := FirstLine(content, BeginMarker(), 0), FirstLine(content, EndMarker(), 0);
            && after == Some(content) && block == ""
            && (Removed(after, block).0 == Some(content) <==> begin < 0 || end < begin)
  {
    hide BeginMarker, EndMarker, SpanStart, SpanEnd, FirstLine;
    ScanShortens(content);
  }

  // ----- What is added -----

  ghost predicate AllReturned(s: string) {
    forall i :: 0 <= i < |s| && s[i] == '\n' ==> i > 0 && s[i - 1] == '\r'
  }

  /** What adding appends to a file without the marker: the line between the two markers, each on a line of its
      own, behind a blank line unless the file is empty; with CRLF if and only if the file has one already. */
  lemma AddedExactly(content: Option<string>, line: string)
    requires !IsMarked(content)
    ensures var (after, block) := Added(content, line);
            var existing := if content.Some? then content.value else "";
            var eol := if Index(existing, "\r\n") >= 0 then "\r\n" else "\n";
            var separator := if existing == "" then "" else if existing[|existing| - 1] == '\n' then eol else eol + eol;
            && after == Some(existing + block)
            && block == separator + "# >>> aliasdeck >>>" + eol + line + eol + "# <<< aliasdeck <<<" + eol
  {
    hide Contains;
    var existing := if content.Some? then content.value else "";
    EmptyContains();
    ContainsIs(existing, "\r\n");
    BlockWritten(Padding(existing, DetectEOL(existing)), BeginMarker(), line, EndMarker(), DetectEOL(existing));
  }

  lemma ContainsIs(s: string, pat: string)
    ensures Contains(s, pat) <==> Index(s, pat) >= 0
  {
  }

  lemma BlockWritten(pad: string, begin: string, line: string, end: string, eol: string)
    ensures pad + (begin + (eol + (line + (eol + (end + eol))))) == pad + begin + eol + line + eol + end + eol
  {
  }

  /** The block follows the line ending of the file: without a CRLF in the file it has no carriage return, and
      with one every line break in it is preceded by a carriage return. */
  lemma AddedLineEndings(content: Option<string>, line: string)
    requires !IsMarked(content) && '\n' !in line && '\r' !in line
    ensures var (after, block) := Added(content, line);
            var existing := if content.Some? then content.value else "";
            && after.Some? && existing <= after.value && after.value[|existing|..] == block
            && (Index(existing, "\r\n") < 0 ==> '\r' !in block)
            && (Index(existing, "\r\n") >= 0 ==> AllReturned(block))
  {
    hide Added, IsMarked, Index;
    var existing := if content.Some? then content.value else "";
    AddedExactly(content, line);
    MarkersPlain();
    var (begin, end) := ("# >>> aliasdeck >>>", "# <<< aliasdeck <<<");
    if Index(existing, "\r\n") < 0 {
      var separator := if existing == "" then "" else if existing[|existing| - 1] == '\n' then "\n" else "\n" + "\n";
      NoReturns(separator, begin, line, end);
    } else {
      ReturnedEOL();
      var separator := if existing == "" then "" else if existing[|existing| - 1] == '\n' then "\r\n"
                       else "\r\n" + "\r\n";
      ReturnedBlock(separator, begin, line, end);
    }
  }

  lemma ReturnedBlock(separator: string, begin: string, line: string, end: string)
    requires AllReturned(separator) && AllReturned(begin) && AllReturned(line) && AllReturned(end)
    ensures AllReturned(separator + begin + "\r\n" + line + "\r\n" + end + "\r\n")
  {
    hide AllReturned;
    ReturnedEOL();
    ReturnedAppend(separator, begin);
    ReturnedAppend(separator + begin, "\r\n");
    ReturnedAppend(separator + begin + "\r\n", line);
    ReturnedAppend(separator + begin + "\r\n" + line, "\r\n");
    ReturnedAppend(separator + begin + "\r\n" + line + "\r\n", end);
    ReturnedAppend(separator + begin + "\r\n" + line + "\r\n" + end, "\r\n");
  }

  lemma MarkersPlain()
    ensures '\n' !in "# >>> aliasdeck >>>" && '\r' !in "# >>> aliasdeck >>>"
    ensures '\n' !in "# <<< aliasdeck <<<" && '\r' !in "# <<< aliasdeck <<<"
  {
  }

  lemma NoReturns(separator: string, begin: string, line: string, end: string)
    requires '\r' !in separator && '\r' !in begin && '\r' !in line && '\r' !in end
    ensures '\r' !in separator + begin + "\n" + line + "\n" + end + "\n"
  {
  }

  lemma ReturnedEOL()
    ensures AllReturned("\r\n") && AllReturned("\r\n" + "\r\n") && AllReturned("")
  {
  }

  lemma ReturnedAppend(x: string, y: string)
    requires AllReturned(x) && AllReturned(y)
    ensures AllReturned(x + y)
  {
    forall i | 0 <= i < |x + y| && (x + y)[i] == '\n' ensures i > 0 && (x + y)[i - 1] == '\r' {
      if i >= |x| {
        assert y[i - |x|] == '\n';
      }
    }
  }

  /** A missing file is left missing, and a file that has no pair of marker lines and not the block is left
      alone; both count as exact. */
  lemma NothingToRemove(content: Option<string>, block: string)
    requires content.Some? ==> (block == "" || Index(content.value, block) < 0)
    requires content.Some? ==> FirstLine(content.value, BeginMarker(), 0) < 0
                               || FirstLine(content.value, EndMarker(), 0) < FirstLine(content.value, BeginMarker(), 0)
    ensures Removed(content, block) == (content, true)
  {
    hide BeginMarker, EndMarker, FirstLine, Index;
  }

  // ----- Installing and uninstalling -----

  datatype InitError = CheckFailed | AddFailed | RecordFailed

  /** One `init`: the line to add, whether the check in front can read the file, what goes wrong with adding,
      and whether the state file can be read and written. */
  datatype Install = Install(line: string, checkFails: bool, io: Io, recordFails: bool)

  /** What it does to the rc file and to the recorded block.  Nothing is recorded when nothing was added. */
  function Installed(content: Option<string>, record: Option<string>, i: Install)
    : (Option<string>, Option<string>, Option<InitError>)
  {
    if i.checkFails then (content, record, Some(CheckFailed))
    else
      match AddedUnder(content, i.line, i.io)
      case (after, None) => (after, record, Some(AddFailed))
      case (after, Some(block)) =>
        if block == "" then (after, record, None)
        else if i.recordFails then (after, record, Some(RecordFailed))
        else (after, Some(block), None)
  }

  /** `uninstall` removes a block only if one was recorded; an error keeps the record. */
  function Uninstalled(content: Option<string>, record: Option<string>, io: Io, stateStays: bool)
    : (Option<string>, Option<string>, Option<bool>)
  {
    if record.None? then (content, None, if stateStays then None else Some(true))
    else
      match RemovedUnder(content, record.value, io)
      case (after, None) => (after, record, None)
      case (after, Some(exact)) => if stateStays then (after, record, None) else (after, None, Some(exact))
  }

  class Installation {
    const rc: RcFile
    var record: Option<string>

    constructor (rc: RcFile)
      ensures this.rc == rc && record == None
    {
      this.rc, record := rc, None;
    }

    method Init(i: Install) returns (error: Option<InitError>)
      modifies this, rc
      ensures (rc.content, record, error) == Installed(old(rc.content), old(record), i)
    {
      var targets := rc.BootstrapTargets(i.line, i.checkFails);
      if targets == None {
        return Some(CheckFailed);
      }
      var block := rc.AddBootstrap(i.line, i.io);
      if block == None {
        return Some(AddFailed);
      }
      if block.value != "" {
        if i.recordFails {
          return Some(RecordFailed);
        }
        record := block;
      }
      return None;
    }

    method Uninstall(io: Io, stateStays: bool) returns (exact: Option<bool>)
      modifies this, rc
      ensures (rc.content, record, exact) == Uninstalled(old(rc.content), old(record), io, stateStays)
    {
      exact := Some(true);
      if record.Some? {
        exact := rc.RemoveBootstrap(record.value, io);
        if exact == None {
          return;
        }
      }
      if stateStays {
        return None;
      }
      record := None;
    }
  }

  /** Any number of installations. */
  function InstalledAll(content: Option<string>, record: Option<string>, runs: seq<Install>)
    : (Option<string>, Option<string>)
    decreases |runs|
  {
    if runs == [] then (content, record)
    else
      var (after, recorded, _) := Installed(content, record, runs[0]);
      InstalledAll(after, recorded, runs[1..])
  }

  predicate Works(i: Install) {
    !i.checkFails && !i.io.readFails && !i.io.writeFails
  }

  /** The first installation whose operations on the rc file all succeed: the one that adds the block. */
  function FirstAdding(runs: seq<Install>): Option<Install> {
    if runs == [] then None else if Works(runs[0]) then Some(runs[0]) else FirstAdding(runs[1..])
  }

  lemma {:induction false} MarkedStays(content: Option<string>, record: Option<string>, runs: seq<Install>)
    requires IsMarked(content)
    ensures InstalledAll(content, record, runs) == (content, record)
    decreases |runs|
  {
    hide BeginMarker, BuildBlock;
    if runs != [] {
      MarkedStays(content, record, runs[1..]);
    }
  }

  const FINE := Io(false, false)

  /** Installing any number of times, with any failures, and then uninstalling restores the file byte for byte
      (a missing one that got a block is left empty) exactly when the file was marked from the start, or no
      installation could add the block, or the one that did could record it. */
  lemma {:induction false} InstallUninstall(content: Option<string>, runs: seq<Install>)
    ensures var (after, record) := InstalledAll(content, None, runs);
            var adding := FirstAdding(runs);
            var restored := if content.None? && adding.Some? then Some("") else content;
            Uninstalled(after, record, FINE, false).0 == restored
            <==> IsMarked(content) || adding.None? || !adding.value.recordFails
    decreases |runs|
  {
    hide BeginMarker, BuildBlock, Contains, Removed;
    if IsMarked(content) {
      MarkedStays(content, None, runs);
    } else if runs != [] {
      if Works(runs[0]) {
        AddingFirst(content, runs);
      } else {
        FailingChangesNothing(content, runs[0]);
        InstallUninstall(content, runs[1..]);
      }
    }
  }

  lemma FailingChangesNothing(content: Option<string>, i: Install)
    requires !IsMarked(content) && !Works(i)
    ensures Installed(content, None, i).0 == content && Installed(content, None, i).1 == None
  {
    hide BeginMarker, BuildBlock, Contains;
    var existing := if content.Some? then content.value else "";
    EmptyContains();
    BlockNotEmpty(existing, i.line, DetectEOL(existing));
  }

  lemma AddingFirst(content: Option<string>, runs: seq<Install>)
    requires runs != [] && !IsMarked(content) && Works(runs[0])
    ensures var (after, record) := InstalledAll(content, None, runs);
            var restored := if content.None? then Some("") else content;
            Uninstalled(after, record, FINE, false).0 == restored <==> !runs[0].recordFails
  {
    hide BeginMarker, BuildBlock, Contains, Removed;
    var existing := if content.Some? then content.value else "";
    var line := runs[0].line;
    var (after, record, _) := Installed(content, None, runs[0]);
    EmptyContains();
    EmptyHasNoMarker();
    UnmarkedIndex(content);
    AddThenRemove(content, line);
    BlockNotEmpty(existing, line, DetectEOL(existing));
    BlockHas(existing, line, DetectEOL(existing));
    assert |existing + BuildBlock(existing, line, DetectEOL(existing))| > |existing|;
    MarkedStays(after, record, runs[1..]);
  }

  lemma EmptyContains()
    ensures !Contains("", BeginMarker())
  {
    EmptyHasNoMarker();
  }

  /** Uninstalling once more, when the state file stayed or came back, finds nothing to do in a file without
      the marker. */
  lemma UninstallAgain(content: string, existing: string, line: string, eol: string)
    requires !IsMarked(Some(content))
    ensures Removed(Some(content), BuildBlock(existing, line, eol)) == (Some(content), true)
  {
    hide BeginMarker, EndMarker, FirstLine, WholeLineAt, OccursAt, Padding, MarkerScan;
    var pad, tail := Padding(existing, eol), eol + (line + (eol + (EndMarker() + eol)));
    var block := BuildBlock(existing, line, eol);
    assert block == pad + (BeginMarker() + tail);
    UnmarkedIndex(Some(content));
    forall j: nat ensures !OccursAt(content, block, j) {
      PartOccurs(content, pad, BeginMarker(), tail, j);
    }
    NoOccurrence(content, block);
    NoMarkerNoScan(content);
  }

  lemma NoOccurrence(s: string, pat: string)
    requires forall j: nat :: !OccursAt(s, pat, j)
    ensures Index(s, pat) == -1
  {
  }

  lemma NoMarkerNoScan(content: string)
    requires Index(content, BeginMarker()) == -1
    ensures MarkerScan(content) == None
  {
    hide BeginMarker, EndMarker, FirstLine, WholeLineAt;
    forall j | 0 <= j ensures !WholeLineAt(content, BeginMarker(), j) {
      LineOccurs(content, BeginMarker(), j);
    }
    FirstLineNone(content, BeginMarker(), 0);
  }

  lemma UnmarkedIndex(content: Option<string>)
    ensures content.Some? && !IsMarked(content) ==> Index(content.value, BeginMarker()) == -1
  {
    hide BeginMarker;
  }

  // ----- The fallback -----

  /** The text around an edited block, where its marker lines are found. */
  lemma ScanPositions(a: string, pad: string, interior: string, eol: string, b: string)
    requires IsEOL(eol) && Index(a, BeginMarker()) == -1 && Index(a, EndMarker()) == -1
    requires Index(interior, EndMarker()) == -1
    requires pad == Padding(a, eol)
    ensures var content := a + pad + Marked(interior, eol) + b;
            && FirstLine(content, BeginMarker(), 0) == |a + pad|
            && FirstLine(content, EndMarker(), 0) == |a + pad + BeginMarker() + eol + interior + eol|
  {
    hide BeginMarker, EndMarker, FirstLine, Index, IsEOL, MarkerLike, Padding, Clear;
    MarkersAreMarkers();
    PaddingIsBreaks(a, eol);
    var tail := eol + (interior + (eol + (EndMarker() + (eol + b))));
    var content := a + pad + Marked(interior, eol) + b;
    Regroup(a + pad, BeginMarker(), eol, interior, EndMarker(), b);
    BeginFirst(a, pad, tail);
    BreakBefore(a, pad, eol);
    EOLStarts(eol, interior + (eol + (EndMarker() + (eol + b))));
    LineFound(a + pad, BeginMarker(), tail);
    EndFirst(a, pad, interior, eol, eol + b);
    EOLStarts(eol, b);
    BreakAtEnd(a + pad + BeginMarker() + eol + interior, eol);
    LineFound(a + pad + BeginMarker() + eol + interior + eol, EndMarker(), eol + b);
  }

  lemma Regroup(front: string, m: string, eol: string, x: string, n: string, b: string)
    ensures var content := front + (m + (eol + (x + (eol + (n + eol))))) + b;
            && content == front + (m + (eol + (x + (eol + (n + (eol + b))))))
            && content == front + m + eol + x + eol + (n + (eol + b))
            && content == front + m + eol + x + eol + n + (eol + b)
  {
  }

  lemma EOLStarts(eol: string, rest: string)
    requires IsEOL(eol)
    ensures "\n" <= eol + rest || "\r\n" <= eol + rest
  {
  }

  lemma BreakAtEnd(x: string, eol: string)
    requires IsEOL(eol)
    ensures x + eol != "" && (x + eol)[|x + eol| - 1] == '\n'
  {
  }

  lemma BreakBefore(a: string, pad: string, eol: string)
    requires IsEOL(eol) && pad == Padding(a, eol)
    ensures a + pad == "" || (a + pad)[|a + pad| - 1] == '\n'
  {
  }

  /** The first occurrence of a marker that is a whole line. */
  lemma LineFound(front: string, m: string, tail: string)
    requires MarkerLike(m) && Clear(front, m + tail, m)
    requires front == "" || front[|front| - 1] == '\n'
    requires "\n" <= tail || "\r\n" <= tail
    ensures FirstLine(front + (m + tail), m, 0) == |front|
  {
    var s := front + (m + tail);
    assert s[|front|..|front| + |m|] == m && s[|front| + |m|] == tail[0];
    assert WholeLineAt(s, m, |front|) by {
      if tail[0] == '\r' { assert s[|front| + |m| + 1] == tail[1]; }
    }
    FirstLineIs(s, m, 0, |front|);
  }

  /** The first occurrence of the end marker is the block's own. */
  lemma EndFirst(a: string, pad: string, interior: string, eol: string, rest: string)
    requires IsEOL(eol) && pad == Padding(a, eol)
    requires Index(a, EndMarker()) == -1 && Index(interior, EndMarker()) == -1
    ensures Clear(a + pad + BeginMarker() + eol + interior + eol, EndMarker() + rest, EndMarker())
  {
    hide BeginMarker, EndMarker, Index, Padding, Clear, IsEOL;
    MarkersAreMarkers();
    PaddingIsBreaks(a, eol);
    EOLNotEmpty(eol);
    var m, y0 := EndMarker(), EndMarker() + rest;
    ClearBreak(eol, y0, m);
    ClearText(interior, eol + y0, m);
    ClearAppend(interior, eol, y0, m);
    ClearBreak(eol, interior + eol + y0, m);
    ClearAppend(eol, interior + eol, y0, m);
    ClearOtherMarker(eol + (interior + eol) + y0);
    ClearAppend(BeginMarker(), eol + (interior + eol), y0, m);
    var z := BeginMarker() + (eol + (interior + eol));
    ClearBreak(pad, z + y0, m);
    ClearAppend(pad, z, y0, m);
    ClearPrefix(a, pad, z, y0);
    ClearAppend(a, pad + z, y0, m);
    assert a + (pad + z) == a + pad + BeginMarker() + eol + interior + eol;
  }

  lemma EOLNotEmpty(eol: string)
    requires IsEOL(eol)
    ensures eol != "" && (eol[0] == '\n' || eol[0] == '\r')
  {
  }

  lemma ClearPrefix(a: string, pad: string, z: string, y: string)
    requires Index(a, EndMarker()) == -1 && z != "" && z[0] == '#'
    requires IsEOL(pad) || pad == "" || exists e :: IsEOL(e) && pad == e + e
    ensures Clear(a, pad + z + y, EndMarker())
  {
    hide EndMarker, Index;
    MarkersAreMarkers();
    ClearText(a, pad + z + y, EndMarker());
  }

  lemma ClearOtherMarker(y: string)
    ensures Clear(BeginMarker(), y, EndMarker())
  {
    hide BeginMarker, EndMarker;
    MarkersAreMarkers();
    var s, m := BeginMarker() + y, EndMarker();
    forall j | 0 <= j < |BeginMarker()| ensures !OccursAt(s, m, j) {
      assert j > 0 ==> BeginMarker()[1..][j - 1] == s[j];
      if j + |m| <= |s| {
        assert s[j..j + |m|][0] == s[j] && s[j..j + |m|][2] == s[j + 2];
      }
    }
  }

  /** The scan cuts out an edited block with its separator, whatever its interior became. */
  lemma ScanRemoval(a: string, interior: string, eol: string, b: string)
    requires IsEOL(eol) && Index(a, BeginMarker()) == -1 && Index(a, EndMarker()) == -1
    requires Index(interior, EndMarker()) == -1
    ensures MarkerScan(a + BuildBlock(a, interior, eol) + b) ==
            Some(if a == "" || a[|a| - 1] == '\n' then a + b else a + eol + b)
  {
    hide BeginMarker, EndMarker, FirstLine, Index, SpanStart, SpanEnd, Padding, IsEOL, Marked;
    var pad, marked := Padding(a, eol), Marked(interior, eol);
    var content := a + pad + marked + b;
    Assoc(a, pad, marked);
    ScanPositions(a, pad, interior, eol, b);
    MarkedEnd(a + pad, interior, eol, b);
    SpanEndIs(a + pad + BeginMarker() + eol + interior + eol + EndMarker(), eol, b);
    SpanStartIs(a, eol, marked + b);
    Assoc(a + pad, marked, b);
    FirstLineFits(content, BeginMarker(), 0);
    FirstLineFits(content, EndMarker(), 0);
  }

  /** When the recorded block no longer occurs, because its interior was edited, RemoveBootstrap removes what
      is there whole and reports that it was not exact, as long as no marker text precedes it and no
      end marker is inside it: the text around it is restored, except that a last line without line
      ending keeps the added one. */
  lemma FallbackRemoval(a: string, line: string, interior: string, eol: string, b: string)
    requires IsEOL(eol) && Index(a, BeginMarker()) == -1 && Index(a, EndMarker()) == -1
    requires Index(interior, EndMarker()) == -1
    requires Index(a + BuildBlock(a, interior, eol) + b, BuildBlock(a, line, eol)) == -1
    ensures Removed(Some(a + BuildBlock(a, interior, eol) + b), BuildBlock(a, line, eol))
            == (Some(if a == "" || a[|a| - 1] == '\n' then a + b else a + eol + b), false)
  {
    hide BeginMarker, EndMarker, Index, IsEOL, BuildBlock, MarkerScan;
    ScanRemoval(a, interior, eol, b);
  }

  lemma MarkedEnd(front: string, interior: string, eol: string, b: string)
    ensures front + Marked(interior, eol) + b == front + BeginMarker() + eol + interior + eol + EndMarker() + (eol + b)
  {
    hide BeginMarker, EndMarker;
    Regroup(front, BeginMarker(), eol, interior, EndMarker(), b);
  }

  lemma SpanEndIs(front: string, eol: string, b: string)
    requires IsEOL(eol)
    ensures var content := front + (eol + b); content[SpanEnd(content, |front|)..] == b
  {
    var content := front + (eol + b);
    assert content[|front|] == eol[0];
    assert |eol| > 1 ==> content[|front| + 1] == eol[1];
  }

  lemma SpanStartIs(a: string, eol: string, rest: string)
    requires IsEOL(eol)
    ensures var content := a + Padding(a, eol) + rest;
            content[..SpanStart(content, |a + Padding(a, eol)|)] == if a == "" || a[|a| - 1] == '\n' then a else a + eol
  {
    var pad := Padding(a, eol);
    var content, n := a + pad + rest, |a + pad|;
    assert content[..n] == a + pad;
    if a != "" {
      var kept := if a[|a| - 1] == '\n' then a else a + eol;
      assert a + pad == kept + eol;
      assert forall i :: 0 <= i < n ==> content[i] == (kept + eol)[i];
      assert content[..|kept|] == kept;
    }
  }
}
