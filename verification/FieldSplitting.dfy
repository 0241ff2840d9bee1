/** How a shell splits an unquoted expansion into fields (section 2.6.5 of the Shell Command Language volume
    of POSIX.1-2017), and when that recovers a list of names joined with blanks. */
module FieldSplitting {
  import opened Text

  /** The characters of IFS that are white space of their own kind: runs of them delimit as one. */
  predicate IfsSpace(c: char, ifs: string) {
    c in ifs && (c == ' ' || c == '\t' || c == '\n')
  }

  function SkipSpace(s: string, ifs: string): (r: string)
    ensures |r| <= |s| && (r == "" || !IfsSpace(r[0], ifs))
  {
    if s != "" && IfsSpace(s[0], ifs) then SkipSpace(s[1..], ifs) else s
  }

  /** A delimiter: IFS white space with at most one other IFS character in it; the white space after
      that character is skipped in front of the next field. */
  function SkipDelimiter(s: string, ifs: string): (r: string)
    ensures |r| <= |s| && (s != "" && s[0] in ifs ==> |r| < |s|)
  {
    var t := SkipSpace(s, ifs);
    if t != "" && t[0] in ifs then t[1..] else t
  }

  /** The length of the text before the first IFS character. */
  function FieldLength(s: string, ifs: string): (n: nat)
    ensures n <= |s| && (n < |s| ==> s[n] in ifs)
    ensures forall i :: 0 <= i < n ==> s[i] !in ifs
  {
    if s == "" || s[0] in ifs then 0 else 1 + FieldLength(s[1..], ifs)
  }

  function Split(s: string, ifs: string): seq<string>
    decreases |s|
  {
    var t := SkipSpace(s, ifs);
    if t == "" then []
    else
      var n := FieldLength(t, ifs);
      [t[..n]] + Split(SkipDelimiter(t[n..], ifs), ifs)
  }

  /** A list of words comes apart at its blanks, and only there. */
  ghost predicate Splits(ifs: string, words: seq<string>) {
    && (|words| <= 1 || ' ' in ifs)
    && forall w, c :: w in words && c in w ==> c !in ifs
  }

  ghost predicate Separable(words: seq<string>) {
    forall w :: w in words ==> w != "" && ' ' !in w
  }

  /** No field holds a character of IFS. */
  lemma {:induction false} FieldsFree(s: string, ifs: string)
    ensures forall f, c :: f in Split(s, ifs) && c in f ==> c !in ifs
    decreases |s|
  {
    var t := SkipSpace(s, ifs);
    if t != "" {
      var n := FieldLength(t, ifs);
      FieldsFree(SkipDelimiter(t[n..], ifs), ifs);
    }
  }

  lemma {:induction false} FieldLengthIs(w: string, rest: string, ifs: string)
    requires forall c :: c in w ==> c !in ifs
    requires rest == "" || rest[0] in ifs
    ensures FieldLength(w + rest, ifs) == |w|
  {
    if w == "" {
      assert w + rest == rest;
    } else {
      assert w[0] in w && (w + rest)[1..] == w[1..] + rest;
      FieldLengthIs(w[1..], rest, ifs);
    }
  }

  /** A field in front of a delimiter or the end. */
  lemma FirstField(w: string, rest: string, ifs: string)
    requires w != "" && forall c :: c in w ==> c !in ifs
    requires rest == "" || rest[0] in ifs
    ensures Split(w + rest, ifs) == [w] + Split(SkipDelimiter(rest, ifs), ifs)
  {
    var s := w + rest;
    assert w[0] in w && s[0] == w[0];
    assert SkipSpace(s, ifs) == s;
    FieldLengthIs(w, rest, ifs);
    assert s[..|w|] == w && s[|w|..] == rest;
  }

  lemma BlankSkipped(s: string, ifs: string)
    requires ' ' in ifs && (s == "" || s[0] !in ifs)
    ensures SkipDelimiter(" " + s, ifs) == s
  {
    assert (" " + s)[1..] == s;
    assert SkipSpace(" " + s, ifs) == SkipSpace(s, ifs) == s;
  }

  lemma NothingSplits(ifs: string)
    ensures Split("", ifs) == [] && SkipDelimiter("", ifs) == ""
  {
  }

  lemma {:induction false} SplitJoined(words: seq<string>, ifs: string)
    requires Separable(words) && Splits(ifs, words)
    ensures Split(Join(words, " "), ifs) == words
    decreases |words|
  {
    hide Split, SkipDelimiter;
    NothingSplits(ifs);
    if words != [] {
      var w, tail := words[0], words[1..];
      assert w in words;
      if tail == [] {
        assert Join(words, " ") == w + "" && words == [w];
        FirstField(w, "", ifs);
      } else {
        var rest := Join(tail, " ");
        assert Join(words, " ") == w + (" " + rest);
        FirstField(w, " " + rest, ifs);
        assert tail[0] in words;
        JoinStarts(tail);
        assert tail[0][0] in tail[0];
        BlankSkipped(rest, ifs);
        assert forall x :: x in tail ==> x in words;
        SplitJoined(tail, ifs);
      }
    }
  }

  lemma JoinStarts(words: seq<string>)
    requires words != [] && words[0] != ""
    ensures Join(words, " ") != "" && Join(words, " ")[0] == words[0][0]
  {
  }

  lemma {:induction false} JoinLonger(words: seq<string>)
    requires |words| > 1
    ensures |Join(words, " ")| > |words[0]|
  {
  }

  /** Each word comes out as a field exactly when the list comes apart at its blanks and only there; then the
      fields are the words. */
  lemma SplitsExactly(words: seq<string>, ifs: string)
    requires Separable(words)
    ensures (forall w :: w in words ==> w in Split(Join(words, " "), ifs)) <==> Splits(ifs, words)
    ensures Split(Join(words, " "), ifs) == words <==> Splits(ifs, words)
  {
    hide Split, Join;
    var s := Join(words, " ");
    FieldsFree(s, ifs);
    if Splits(ifs, words) {
      SplitJoined(words, ifs);
    } else if forall w, c :: w in words && c in w ==> c !in ifs {
      JoinedWhole(words, ifs);
    }
  }

  /** Without a blank in IFS the list is one field, and none of its words. */
  lemma JoinedWhole(words: seq<string>, ifs: string)
    requires Separable(words) && |words| > 1 && ' ' !in ifs
    requires forall w, c :: w in words && c in w ==> c !in ifs
    ensures words[0] !in Split(Join(words, " "), ifs)
  {
    hide Split, Join, SkipDelimiter;
    var s := Join(words, " ");
    JoinLonger(words);
    forall c | c in ifs ensures c !in s {
      assert forall w :: w in words ==> c !in w;
      JoinFree(words, c);
    }
    FirstField(s, "", ifs);
    NothingSplits(ifs);
    assert s + "" == s;
  }

  /** An IFS of blanks, tabs and newlines with a blank among them, as it is by default, splits all words that
      hold none of these. */
  lemma OrdinaryIfs(words: seq<string>, ifs: string)
    requires ' ' in ifs && forall c :: c in ifs ==> c == ' ' || c == '\t' || c == '\n'
    requires forall w :: w in words ==> ' ' !in w && '\t' !in w && '\n' !in w
    ensures Splits(ifs, words)
  {
  }
}
