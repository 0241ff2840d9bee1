/** The operations of Go's `strings`, `bytes` and `strconv` packages that the program calls,
    over strings as sequences of code points.  Each is defined by what it returns; the lemmas
    below are the facts about them that the printers and parsers rely on. */
module Text {

  datatype Option<+T> = None | Some(value: T)

  lemma Assoc<T>(a: seq<T>, b: seq<T>, c: seq<T>)
    ensures a + (b + c) == a + b + c
  {
  }

  // ----- Searching -----

  predicate OccursAt(s: string, pat: string, i: int) {
    0 <= i && i + |pat| <= |s| && s[i..i + |pat|] == pat
  }

  /** The first position at which `pat` occurs, or -1. */
  function Index(s: string, pat: string): (r: int)
    ensures r == -1 || OccursAt(s, pat, r)
    ensures forall j :: 0 <= j && (r == -1 || j < r) ==> !OccursAt(s, pat, j)
  {
    if pat <= s then
      0
    else if s == [] then
      -1
    else
      var r := Index(s[1..], pat);
      assert forall j :: 1 <= j ==> OccursAt(s, pat, j) == OccursAt(s[1..], pat, j - 1) by {
        forall j | 1 <= j ensures OccursAt(s, pat, j) == OccursAt(s[1..], pat, j - 1) {
          if j + |pat| <= |s| { assert s[1..][j - 1..j - 1 + |pat|] == s[j..j + |pat|]; }
        }
      }
      if r == -1 then -1 else r + 1
  }

  predicate Contains(s: string, pat: string) {
    Index(s, pat) >= 0
  }

  predicate HasSuffix(s: string, pat: string) {
    |pat| <= |s| && s[|s| - |pat|..] == pat
  }

  /** The number of non-overlapping occurrences of `pat`, found from the left. */
  function Count(s: string, pat: string): nat
    requires pat != []
    decreases |s|
  {
    var i := Index(s, pat);
    if i < 0 then 0 else 1 + Count(s[i + |pat|..], pat)
  }

  lemma IndexIs(s: string, pat: string, i: int)
    requires OccursAt(s, pat, i)
    requires forall j :: 0 <= j < i ==> !OccursAt(s, pat, j)
    ensures Index(s, pat) == i
  {
  }

  /** A stretch without the pattern's first character can be skipped. */
  lemma IndexSkip(x: string, s: string, pat: string)
    requires pat != [] && pat[0] !in x
    ensures Index(x + s, pat) == if Index(s, pat) < 0 then -1 else |x| + Index(s, pat)
  {
    if x == [] {
      assert x + s == s;
    } else {
      assert (x + s)[0] == x[0];
      assert (x + s)[1..] == x[1..] + s;
      IndexSkip(x[1..], s, pat);
    }
  }

  // ----- Replacing -----

  /** Every occurrence of `target` replaced, scanning from the left without overlap. */
  function ReplaceAll(s: string, target: string, replacement: string): string
    requires target != []
    decreases |s|
  {
    if target <= s then
      replacement + ReplaceAll(s[|target|..], target, replacement)
    else if s == [] then
      []
    else
      [s[0]] + ReplaceAll(s[1..], target, replacement)
  }

  /** Only the first occurrence of `target` replaced. */
  function ReplaceFirst(s: string, target: string, replacement: string): string {
    var i := Index(s, target);
    if i < 0 then s else s[..i] + replacement + s[i + |target|..]
  }

  // ----- Lines and words -----

  function IndexChar(s: string, c: char): (r: int)
    ensures r == -1 ==> c !in s
    ensures r != -1 ==> 0 <= r < |s| && s[r] == c && c !in s[..r]
  {
    if s == [] then
      -1
    else if s[0] == c then
      0
    else
      var r := IndexChar(s[1..], c);
      assert s == [s[0]] + s[1..];
      if r == -1 then -1 else assert s[..r + 1] == [s[0]] + s[1..][..r]; r + 1
  }

  lemma IndexCharIs(x: string, c: char, y: string)
    requires c !in x
    ensures IndexChar(x + [c] + y, c) == |x|
  {
    var s := x + [c] + y;
    assert s[|x|] == c && s[..|x|] == x;
    assert forall r :: 0 <= r < |x| ==> s[r] == x[r];
    assert forall r :: |x| < r < |s| ==> s[..r][|x|] == c;
  }

  /** `strings.Split(s, "\n")`. */
  function SplitLines(s: string): (r: seq<string>)
    ensures |r| > 0
    ensures forall l :: l in r ==> '\n' !in l
    decreases |s|
  {
    var i := IndexChar(s, '\n');
    if i < 0 then [s] else [s[..i]] + SplitLines(s[i + 1..])
  }

  function Unlines(lines: seq<string>): string {
    if lines == [] then "" else lines[0] + "\n" + Unlines(lines[1..])
  }

  ghost predicate LineFree(lines: seq<string>) {
    forall l :: l in lines ==> '\n' !in l
  }

  lemma {:induction false} SplitUnlines(lines: seq<string>)
    requires LineFree(lines)
    ensures SplitLines(Unlines(lines)) == lines + [""]
  {
    if lines != [] {
      var rest := Unlines(lines[1..]);
      assert Unlines(lines) == lines[0] + ['\n'] + rest;
      IndexCharIs(lines[0], '\n', rest);
      assert Unlines(lines)[..|lines[0]|] == lines[0];
      assert Unlines(lines)[|lines[0]| + 1..] == rest;
      SplitUnlines(lines[1..]);
      assert lines + [""] == [lines[0]] + (lines[1..] + [""]);
    }
  }

  lemma {:induction false} UnlinesAppend(a: seq<string>, b: seq<string>)
    ensures Unlines(a + b) == Unlines(a) + Unlines(b)
  {
    if a == [] {
      assert a + b == b;
    } else {
      assert (a + b)[1..] == a[1..] + b;
      UnlinesAppend(a[1..], b);
    }
  }

  function Join(words: seq<string>, sep: string): string {
    if words == [] then "" else if |words| == 1 then words[0] else words[0] + sep + Join(words[1..], sep)
  }

  /** `unicode.IsSpace`. */
  predicate IsSpace(c: char) {
    || '\t' <= c <= '\r' || c == ' ' || c == '\U{0085}' || c == '\U{00A0}' || c == '\U{1680}'
    || '\U{2000}' <= c <= '\U{200A}' || c == '\U{2028}' || c == '\U{2029}'
    || c == '\U{202F}' || c == '\U{205F}' || c == '\U{3000}'
  }

  function TrimLeftSpace(s: string): (r: string)
    ensures |r| <= |s| && r == s[|s| - |r|..]
    ensures r == [] || !IsSpace(r[0])
  {
    if s != [] && IsSpace(s[0]) then TrimLeftSpace(s[1..]) else s
  }

  function TrimRightSpace(s: string): (r: string)
    ensures |r| <= |s| && r == s[..|r|]
    ensures r == [] || !IsSpace(r[|r| - 1])
  {
    if s != [] && IsSpace(s[|s| - 1]) then TrimRightSpace(s[..|s| - 1]) else s
  }

  /** `strings.TrimSpace`: no blank remains at either end. */
  function TrimSpace(s: string): (r: string)
    ensures r == [] || (!IsSpace(r[0]) && !IsSpace(r[|r| - 1]))
    ensures forall c :: c in r ==> c in s
  {
    TrimRightSpace(TrimLeftSpace(s))
  }

  lemma TrimSpaceKeeps(s: string)
    requires s == [] || (!IsSpace(s[0]) && !IsSpace(s[|s| - 1]))
    ensures TrimSpace(s) == s
  {
  }

  /** Only white space trims to nothing. */
  lemma {:induction false} TrimSpaceEmpty(s: string)
    ensures TrimSpace(s) == "" <==> forall c :: c in s ==> IsSpace(c)
  {
    hide IsSpace;
    if s != "" {
      assert s == [s[0]] + s[1..] && s[0] in s;
      if IsSpace(s[0]) {
        TrimSpaceEmpty(s[1..]);
      } else {
        TrimRightFirst(s);
      }
    }
  }

  lemma {:induction false} TrimRightFirst(s: string)
    requires s != "" && !IsSpace(s[0])
    ensures TrimRightSpace(s) != ""
  {
    hide IsSpace;
    if IsSpace(s[|s| - 1]) {
      TrimRightFirst(s[..|s| - 1]);
    }
  }

  /** Trimming takes away white space at both ends and nothing else. */
  lemma TrimSpaceParts(s: string) returns (left: string, right: string)
    ensures s == left + TrimSpace(s) + right
    ensures forall c :: c in left || c in right ==> IsSpace(c)
  {
    hide IsSpace;
    left := LeftPart(s);
    right := RightPart(TrimLeftSpace(s));
    Assoc(left, TrimSpace(s), right);
  }

  lemma {:induction false} LeftPart(s: string) returns (left: string)
    ensures s == left + TrimLeftSpace(s) && forall c :: c in left ==> IsSpace(c)
  {
    hide IsSpace;
    if s != "" && IsSpace(s[0]) {
      var more := LeftPart(s[1..]);
      left := [s[0]] + more;
      Assoc([s[0]], more, TrimLeftSpace(s));
      assert s == [s[0]] + s[1..];
    } else {
      left := "";
      assert "" + s == s;
    }
  }

  lemma {:induction false} RightPart(s: string) returns (right: string)
    ensures s == TrimRightSpace(s) + right && forall c :: c in right ==> IsSpace(c)
  {
    hide IsSpace, TrimRightSpace;
    TrimRightStep(s);
    if s != "" && IsSpace(s[|s| - 1]) {
      var front, last := s[..|s| - 1], [s[|s| - 1]];
      var more := RightPart(front);
      right := more + last;
      Assoc(TrimRightSpace(s), more, last);
      assert s == front + last;
    } else {
      right := "";
      assert s + "" == s;
    }
  }

  lemma TrimRightStep(s: string)
    ensures TrimRightSpace(s) == if s != "" && IsSpace(s[|s| - 1]) then TrimRightSpace(s[..|s| - 1]) else s
  {
  }

  predicate IsBlank(c: char) {
    c == ' ' || c == '\t'
  }

  /** `strings.TrimLeft(s, " \t")`. */
  function TrimBlanks(s: string): (r: string)
    ensures |r| <= |s| && r == s[|s| - |r|..]
    ensures r == [] || !IsBlank(r[0])
  {
    if s != [] && IsBlank(s[0]) then TrimBlanks(s[1..]) else s
  }

  /** The length of the longest prefix without white space. */
  function WordLength(s: string): (n: nat)
    ensures n <= |s|
    ensures s != [] && !IsSpace(s[0]) ==> n > 0
  {
    if s == [] || IsSpace(s[0]) then 0 else 1 + WordLength(s[1..])
  }

  /** `strings.Fields`. */
  function Fields(s: string): seq<string>
    decreases |s|
  {
    var t := TrimLeftSpace(s);
    if t == [] then [] else [t[..WordLength(t)]] + Fields(t[WordLength(t)..])
  }

  ghost predicate Word(w: string) {
    w != [] && forall c :: c in w ==> !IsSpace(c)
  }

  lemma {:induction false} WordLengthIs(w: string, rest: string)
    requires forall c :: c in w ==> !IsSpace(c)
    requires rest == [] || IsSpace(rest[0])
    ensures WordLength(w + rest) == |w|
  {
    if w == [] {
      assert w + rest == rest;
    } else {
      assert w[0] in w;
      assert (w + rest)[1..] == w[1..] + rest;
      WordLengthIs(w[1..], rest);
    }
  }

  /** Splitting at blanks undoes joining words with single blanks. */
  lemma {:induction false} FieldsJoin(words: seq<string>)
    requires forall w :: w in words ==> Word(w)
    ensures Fields(Join(words, " ")) == words
  {
    hide IsSpace, Fields;
    if words == [] {
      NoFields();
    } else {
      var w := words[0];
      var rest := if |words| == 1 then "" else " " + Join(words[1..], " ");
      assert Join(words, " ") == w + rest;
      BlankIsSpace();
      FieldsOfWord(w, rest);
      FieldsJoin(words[1..]);
      assert Fields(rest) == words[1..] by {
        if |words| > 1 {
          assert rest[1..] == Join(words[1..], " ");
          FieldsSkipBlank(rest);
        }
      }
    }
  }

  lemma NoFields()
    ensures Fields("") == []
  {
  }

  lemma BlankIsSpace()
    ensures IsSpace(' ')
  {
  }

  lemma FieldsOfWord(w: string, rest: string)
    requires Word(w) && (rest == [] || IsSpace(rest[0]))
    ensures Fields(w + rest) == [w] + Fields(rest)
  {
    hide IsSpace;
    WordLengthIs(w, rest);
    assert w[0] in w && (w + rest)[0] == w[0];
    assert (w + rest)[..|w|] == w && (w + rest)[|w|..] == rest;
  }

  lemma FieldsSkipBlank(s: string)
    requires s != [] && IsSpace(s[0])
    ensures Fields(s) == Fields(s[1..])
  {
  }

  lemma {:induction false} JoinFree(words: seq<string>, c: char)
    requires c != ' ' && forall w :: w in words ==> c !in w
    ensures c !in Join(words, " ")
  {
    if |words| > 1 {
      JoinFree(words[1..], c);
    }
  }

  // ----- Order -----

  /** Go's `<` on strings: lexicographic, a proper prefix first. */
  predicate Less(a: string, b: string) {
    b != [] && (a == [] || a[0] < b[0] || (a[0] == b[0] && Less(a[1..], b[1..])))
  }

  lemma LessIrreflexive(a: string)
    ensures !Less(a, a)
  {
  }

  lemma {:induction false} LessTransitive(a: string, b: string, c: string)
    requires Less(a, b) && Less(b, c)
    ensures Less(a, c)
  {
    if a != [] && a[0] == b[0] == c[0] {
      LessTransitive(a[1..], b[1..], c[1..]);
    }
  }

  lemma {:induction false} LessTotal(a: string, b: string)
    ensures Less(a, b) || a == b || Less(b, a)
  {
    if a != [] && b != [] && a[0] == b[0] {
      LessTotal(a[1..], b[1..]);
      assert a == [a[0]] + a[1..] && b == [b[0]] + b[1..];
    }
  }

  lemma LessAsymmetric(a: string, b: string)
    requires Less(a, b)
    ensures !Less(b, a)
  {
  }

  lemma NotLessTransitive(a: string, b: string, c: string)
    requires !Less(b, a) && !Less(c, b)
    ensures !Less(c, a)
  {
    LessTotal(a, b);
    LessTotal(b, c);
    if Less(a, b) && Less(b, c) { LessTransitive(a, b, c); }
    if Less(a, c) { LessAsymmetric(a, c); }
    LessIrreflexive(a);
  }

  // ----- Decimal numbers -----

  predicate IsDigit(c: char) {
    '0' <= c <= '9'
  }

  function Itoa(n: nat): (s: string)
    ensures s != [] && forall c :: c in s ==> IsDigit(c)
    ensures |s| > 1 ==> s[0] != '0'
    ensures n > 0 ==> s[0] != '0'
  {
    var last := [('0' as int + n % 10) as char];
    if n < 10 then last else Itoa(n / 10) + last
  }

  /** The value of a digit string, or None if a character is not a digit. */
  function Digits(s: string): Option<nat> {
    if s == [] then
      Some(0)
    else if !IsDigit(s[|s| - 1]) then
      None
    else
      match Digits(s[..|s| - 1])
      case None => None
      case Some(high) => Some(10 * high + (s[|s| - 1] as int - '0' as int))
  }

  /** `strconv.Atoi`, without its 64-bit range error: an optional sign and at least one digit. */
  function Atoi(s: string): Option<int> {
    var signed := s != [] && (s[0] == '+' || s[0] == '-');
    var digits := if signed then s[1..] else s;
    if digits == [] then
      None
    else
      match Digits(digits)
      case None => None
      case Some(n) =>
        var magnitude: int := n;
        Some(if signed && s[0] == '-' then -magnitude else magnitude)
  }

  lemma {:induction false} DigitsItoa(n: nat)
    ensures Digits(Itoa(n)) == Some(n)
  {
    var s := Itoa(n);
    if n < 10 {
      assert s[..|s| - 1] == [];
    } else {
      assert s[..|s| - 1] == Itoa(n / 10);
      DigitsItoa(n / 10);
    }
  }

  lemma AtoiItoa(n: nat)
    ensures Atoi(Itoa(n)) == Some(n)
  {
    DigitsItoa(n);
    assert Itoa(n)[0] in Itoa(n);
  }
}
