/** Searching a text of lines for a pattern that contains line breaks.  The migration marker is
    injected and found again by substring search alone; these lemmas say where such a search
    must end. */
module LineSearch {
  import opened Text

  /** A whole line at the front of a text is the text's first line. */
  lemma LineStarts(line: string, rest: string, g: string)
    requires '\n' !in line && '\n' !in g
    ensures g + "\n" <= line + "\n" + rest <==> g == line
  {
    var s, p := line + ['\n'] + rest, g + ['\n'];
    if p <= s {
      IndexCharIs(line, '\n', rest);
      assert s == g + ['\n'] + s[|p|..];
      IndexCharIs(g, '\n', s[|p|..]);
      assert g == s[..|g|] == line;
    }
  }

  /** A newline-free prefix of a text of lines is a prefix of its first line. */
  lemma PrefixInLine(line: string, rest: string, p: string)
    requires '\n' !in line && '\n' !in p
    ensures p <= line + "\n" + rest <==> p <= line
  {
    var s := line + ['\n'] + rest;
    assert s[|line|] == '\n';
    if p <= s {
      assert forall i :: 0 <= i < |p| ==> s[i] == p[i] != '\n';
    }
  }

  // ----- A pattern that is one whole line -----

  /** The search for "\n" + g + "\n" stops before the first line, after line 0, that equals g. */
  lemma {:induction false} WholeLineIndex(lines: seq<string>, g: string, k: int)
    requires LineFree(lines) && '\n' !in g
    requires 1 <= k < |lines| && lines[k] == g
    requires forall j :: 1 <= j < k ==> lines[j] != g
    ensures Index(Unlines(lines), "\n" + g + "\n") == |Unlines(lines[..k])| - 1
  {
    var pat := "\n" + g + "\n";
    var rest := lines[1..];
    var tail := "\n" + Unlines(rest);
    assert Unlines(lines) == lines[0] + tail;
    assert lines[0] in lines;
    IndexSkip(lines[0], tail, pat);
    assert lines[1] == rest[0] && Unlines(rest) == rest[0] + "\n" + Unlines(rest[1..]);
    LineStarts(rest[0], Unlines(rest[1..]), g);
    assert pat[1..] == g + "\n" && tail[1..] == Unlines(rest);
    assert (pat <= tail) == (pat[1..] <= tail[1..]) by {
      assert pat == ['\n'] + pat[1..] && tail == ['\n'] + tail[1..];
    }
    assert lines[..k][0] == lines[0] && lines[..k][1..] == rest[..k - 1];
    if k > 1 {
      WholeLineIndex(rest, g, k - 1);
    }
  }

  // ----- A pattern that spans two lines -----

  function Span(p1: string, p2: string): string {
    p1 + "\n" + p2
  }

  /** An occurrence that starts in the first line covers the end of that line and the start of
      what follows. */
  lemma SpanInFirstLine(line: string, rest: string, p1: string, p2: string, i: int)
    requires '\n' !in line && '\n' !in p1
    requires 0 <= i <= |line| && OccursAt(line + "\n" + rest, Span(p1, p2), i)
    ensures p1 == line[i..] && p2 <= rest
  {
    var s := line + "\n" + rest;
    var after := s[i + |Span(p1, p2)|..];
    assert s[i..] == Span(p1, p2) + after == p1 + ['\n'] + (p2 + after);
    assert s[i..] == line[i..] + ['\n'] + rest;
    IndexCharIs(p1, '\n', p2 + after);
    IndexCharIs(line[i..], '\n', rest);
    assert p1 == s[i..][..|p1|] && line[i..] == s[i..][..|line| - i];
    assert rest == s[i..][|p1| + 1..] == p2 + after;
  }

  lemma OccursAfterLine(line: string, rest: string, pat: string, i: int)
    requires i > |line|
    ensures OccursAt(line + "\n" + rest, pat, i) == OccursAt(rest, pat, i - |line| - 1)
  {
    var s := line + "\n" + rest;
    if i + |pat| <= |s| {
      assert s[i..i + |pat|] == rest[i - |line| - 1..i - |line| - 1 + |pat|];
    }
  }

  /** When what follows the first line does not start with p2, the search moves on to it. */
  lemma SkipFirstLine(line: string, rest: string, p1: string, p2: string)
    requires '\n' !in line && '\n' !in p1 && !(p2 <= rest)
    ensures Index(line + "\n" + rest, Span(p1, p2)) ==
            if Index(rest, Span(p1, p2)) < 0 then -1 else |line| + 1 + Index(rest, Span(p1, p2))
  {
    var s, pat := line + "\n" + rest, Span(p1, p2);
    var r := Index(rest, pat);
    forall i | 0 <= i && (i <= |line| || r < 0 || i < |line| + 1 + r)
      ensures !OccursAt(s, pat, i)
    {
      if i > |line| {
        OccursAfterLine(line, rest, pat, i);
      } else if OccursAt(s, pat, i) {
        SpanInFirstLine(line, rest, p1, p2, i);
      }
    }
    if r >= 0 {
      OccursAfterLine(line, rest, pat, |line| + 1 + r);
      IndexIs(s, pat, |line| + 1 + r);
    }
  }

  lemma NotAtStart(lines: seq<string>, p2: string)
    requires LineFree(lines) && '\n' !in p2 && p2 != "" && lines != []
    requires |lines| > 1 ==> !(p2 <= lines[1])
    ensures !(p2 <= Unlines(lines[1..]))
  {
    if |lines| > 1 {
      var l := lines[1];
      assert l in lines && lines[1..][0] == l;
      PrefixInLine(l, Unlines(lines[1..][1..]), p2);
    }
  }

  /** No later line starts with p2, so the spanning pattern does not occur at all. */
  lemma {:induction false} NoSpan(lines: seq<string>, p1: string, p2: string)
    requires LineFree(lines) && '\n' !in p1 && '\n' !in p2 && p2 != ""
    requires forall j :: 1 <= j < |lines| ==> !(p2 <= lines[j])
    ensures Index(Unlines(lines), Span(p1, p2)) == -1
  {
    if lines != [] {
      NoSpan(lines[1..], p1, p2);
      NotAtStart(lines, p2);
      assert lines[0] in lines;
      SkipFirstLine(lines[0], Unlines(lines[1..]), p1, p2);
    }
  }

  /** Exactly one line m starts with p2 and the line before it is p1: the pattern is found there. */
  lemma {:induction false} SpanIndex(lines: seq<string>, p1: string, p2: string, m: int)
    requires LineFree(lines) && '\n' !in p1 && '\n' !in p2 && p2 != ""
    requires 1 <= m < |lines| && lines[m - 1] == p1 && p2 <= lines[m]
    requires forall j :: 1 <= j < |lines| && j != m ==> !(p2 <= lines[j])
    ensures Index(Unlines(lines), Span(p1, p2)) == |Unlines(lines[..m - 1])|
  {
    hide Index, Span;
    if m == 1 {
      AroundSpan(lines, p1, p2, 1);
      assert lines[..0] == [];
      IndexAtFront(Span(p1, p2), Unlines([lines[1][|p2|..]] + lines[2..]));
    } else {
      var rest := lines[1..];
      SpanIndex(rest, p1, p2, m - 1);
      NotAtStart(lines, p2);
      assert lines[0] in lines;
      SkipFirstLine(lines[0], Unlines(rest), p1, p2);
      assert lines[..m - 1][0] == lines[0] && lines[..m - 1][1..] == rest[..m - 2];
    }
  }

  lemma IndexAtFront(pat: string, rest: string)
    ensures Index("" + pat + rest, pat) == 0
  {
    assert "" + pat + rest == pat + rest;
  }

  /** Splitting a text of lines around the spanning pattern. */
  lemma AroundSpan(lines: seq<string>, p1: string, p2: string, m: int)
    requires 1 <= m < |lines| && lines[m - 1] == p1 && p2 <= lines[m]
    ensures Unlines(lines) == Unlines(lines[..m - 1]) + Span(p1, p2) + Unlines([lines[m][|p2|..]] + lines[m + 1..])
  {
    hide Unlines;
    var tail, after := lines[m][|p2|..], lines[m + 1..];
    CutAround(lines, m);
    UnlinesAppend(lines[..m - 1], [p1] + ([lines[m]] + after));
    UnlinesCons(p1, [lines[m]] + after);
    UnlinesCons(lines[m], after);
    UnlinesCons(tail, after);
    assert p1 + "\n" + (lines[m] + "\n" + Unlines(after)) == Span(p1, p2) + (tail + "\n" + Unlines(after)) by {
      assert lines[m] == p2 + tail;
      Regroup(p1, p2, tail, Unlines(after));
    }
    Assoc(Unlines(lines[..m - 1]), Span(p1, p2), tail + "\n" + Unlines(after));
  }

  lemma CutAround<T>(s: seq<T>, m: int)
    requires 1 <= m < |s|
    ensures s == s[..m - 1] + ([s[m - 1]] + ([s[m]] + s[m + 1..]))
  {
  }

  lemma Regroup(p1: string, p2: string, tail: string, after: string)
    ensures p1 + "\n" + (p2 + tail + "\n" + after) == Span(p1, p2) + (tail + "\n" + after)
  {
  }

  lemma UnlinesCons(line: string, lines: seq<string>)
    ensures Unlines([line] + lines) == line + "\n" + Unlines(lines)
  {
    assert ([line] + lines)[1..] == lines;
  }

  lemma SpanCount(lines: seq<string>, p1: string, p2: string, m: int)
    requires LineFree(lines) && '\n' !in p1 && '\n' !in p2 && p2 != ""
    requires 1 <= m < |lines| && lines[m - 1] == p1 && p2 <= lines[m]
    requires forall j :: 1 <= j < |lines| && j != m ==> !(p2 <= lines[j])
    ensures Count(Unlines(lines), Span(p1, p2)) == 1
  {
    hide Unlines, Index, Count;
    var pat := Span(p1, p2);
    SpanIndex(lines, p1, p2, m);
    AroundSpan(lines, p1, p2, m);
    var tail := [lines[m][|p2|..]] + lines[m + 1..];
    NoSpanAfter(lines, p1, p2, m);
    CountOne(Unlines(lines[..m - 1]), pat, Unlines(tail));
  }

  lemma NoSpanAfter(lines: seq<string>, p1: string, p2: string, m: int)
    requires LineFree(lines) && '\n' !in p1 && '\n' !in p2 && p2 != ""
    requires 1 <= m < |lines| && p2 <= lines[m]
    requires forall j :: m < j < |lines| ==> !(p2 <= lines[j])
    ensures Index(Unlines([lines[m][|p2|..]] + lines[m + 1..]), Span(p1, p2)) == -1
  {
    hide Unlines, Index, Span;
    var tail := [lines[m][|p2|..]] + lines[m + 1..];
    assert lines[m] in lines;
    assert forall l :: l in lines[m + 1..] ==> l in lines;
    NoSpan(tail, p1, p2);
  }

  lemma CountOne(before: string, pat: string, after: string)
    requires pat != "" && Index(before + pat + after, pat) == |before| && Index(after, pat) == -1
    ensures Count(before + pat + after, pat) == 1
  {
    hide Index;
    assert (before + pat + after)[|before| + |pat|..] == after;
  }

  lemma SliceOfSlice(s: string, a: nat, n: nat)
    requires a + n <= |s|
    ensures s[a..][..n] == s[a..a + n]
  {
  }
}
