/** The few `java.lang.String` and Guava `Joiner` operations the authentication gate relies on,
    with the edge cases of the Java library made explicit: `split("\\s+")` keeps a leading empty
    piece and drops trailing ones, `trim()` strips every character up to U+0020, and
    `Joiner.on(sep)` puts the separator only between consecutive elements. */
module JavaStrings {
  import opened Wrappers

  // ---------------------------------------------------------------------------
  // Character classes
  // ---------------------------------------------------------------------------

  /** The regular-expression class `\s`: space, tab, line feed, vertical tab, form feed, return. */
  predicate IsWhitespace(c: char) {
    c == ' ' || c == '\t' || c == '\n' || c == '\U{000B}' || c == '\U{000C}' || c == '\r'
  }

  predicate NoWhitespace(s: string) {
    forall i :: 0 <= i < |s| ==> !IsWhitespace(s[i])
  }

  predicate AllWhitespace(s: string) {
    forall i :: 0 <= i < |s| ==> IsWhitespace(s[i])
  }

  /** Characters `String.trim()` removes: every code point up to and including U+0020. */
  predicate IsTrimmable(c: char) {
    c <= ' '
  }

  // ---------------------------------------------------------------------------
  // String.split("\\s+")
  // ---------------------------------------------------------------------------

  /** Length of the leading run of non-whitespace characters. */
  function WordLength(s: string): (n: nat)
    ensures n <= |s|
    ensures NoWhitespace(s[..n])
    ensures n < |s| ==> IsWhitespace(s[n])
  {
    if |s| == 0 || IsWhitespace(s[0]) then 0 else 1 + WordLength(s[1..])
  }

  /** Drops the leading run of whitespace characters. */
  function SkipWhitespace(s: string): (r: string)
    ensures |r| <= |s| && r == s[|s| - |r|..]
    ensures AllWhitespace(s[..|s| - |r|])
    ensures |r| > 0 ==> !IsWhitespace(r[0])
    ensures |s| > 0 && IsWhitespace(s[0]) ==> |r| < |s|
  {
    if |s| > 0 && IsWhitespace(s[0]) then
      var r := SkipWhitespace(s[1..]);
      SkipWhitespaceStep(s, r);
      r
    else s
  }

  /** A leading whitespace character joins the run skipped in the rest. */
  lemma SkipWhitespaceStep(s: string, r: string)
    requires |s| > 0 && IsWhitespace(s[0])
    requires |r| <= |s| - 1 && r == s[1..][|s| - 1 - |r|..] && AllWhitespace(s[1..][..|s| - 1 - |r|])
    ensures r == s[|s| - |r|..] && AllWhitespace(s[..|s| - |r|])
  {
    var k := |s| - |r|;
    assert s[1..][k - 1..] == s[k..];
    forall i | 0 < i < k
      ensures IsWhitespace(s[..k][i])
    {
      assert s[..k][i] == s[1..][..k - 1][i - 1];
    }
  }

  /** The pieces between maximal whitespace runs, including a leading empty piece when `s`
      starts with whitespace and a trailing one when it ends with whitespace. */
  function Pieces(s: string): (r: seq<string>)
    ensures |r| >= 1
    ensures forall i :: 0 <= i < |r| ==> NoWhitespace(r[i])
    decreases |s|
  {
    var n := WordLength(s);
    if n == |s| then [s]
    else [s[..n]] + Pieces(SkipWhitespace(s[n..]))
  }

  function DropTrailingEmpty(xs: seq<string>): (r: seq<string>)
    ensures |r| <= |xs| && r == xs[..|r|]
    ensures |r| > 0 ==> r[|r| - 1] != ""
    ensures forall i :: |r| <= i < |xs| ==> xs[i] == ""
  {
    if |xs| > 0 && xs[|xs| - 1] == "" then DropTrailingEmpty(xs[..|xs| - 1]) else xs
  }

  /** `s.split("\\s+")`: a string without any match is returned whole (even when empty);
      otherwise the pieces between matches, with trailing empty pieces removed. */
  function SplitWhitespace(s: string): (r: seq<string>)
    ensures forall i :: 0 <= i < |r| ==> NoWhitespace(r[i])
    ensures NoWhitespace(s) ==> r == [s]
  {
    if NoWhitespace(s) then [s] else DropTrailingEmpty(Pieces(s))
  }

  /** The characters of `s` with every whitespace character removed. */
  function RemoveWhitespace(s: string): string {
    if |s| == 0 then ""
    else (if IsWhitespace(s[0]) then "" else [s[0]]) + RemoveWhitespace(s[1..])
  }

  function Concat(xs: seq<string>): string {
    if |xs| == 0 then "" else xs[0] + Concat(xs[1..])
  }

  lemma {:induction false} RemoveWhitespaceAppend(a: string, b: string)
    ensures RemoveWhitespace(a + b) == RemoveWhitespace(a) + RemoveWhitespace(b)
    decreases |a|
  {
    if |a| == 0 {
      assert a + b == b;
    } else {
      assert (a + b)[1..] == a[1..] + b;
      RemoveWhitespaceAppend(a[1..], b);
    }
  }

  lemma {:induction false} RemoveWhitespaceOfWord(s: string)
    requires NoWhitespace(s)
    ensures RemoveWhitespace(s) == s
    decreases |s|
  {
    if |s| > 0 {
      RemoveWhitespaceOfWord(s[1..]);
    }
  }

  lemma {:induction false} RemoveWhitespaceOfBlank(s: string)
    requires AllWhitespace(s)
    ensures RemoveWhitespace(s) == ""
    decreases |s|
  {
    if |s| > 0 {
      RemoveWhitespaceOfBlank(s[1..]);
    }
  }

  lemma {:induction false} ConcatAppend(xs: seq<string>, ys: seq<string>)
    ensures Concat(xs + ys) == Concat(xs) + Concat(ys)
    decreases |xs|
  {
    if |xs| == 0 {
      assert xs + ys == ys;
    } else {
      assert (xs + ys)[1..] == xs[1..] + ys;
      ConcatAppend(xs[1..], ys);
    }
  }

  lemma {:induction false} PiecesKeepContent(s: string)
    ensures Concat(Pieces(s)) == RemoveWhitespace(s)
    decreases |s|
  {
    var n := WordLength(s);
    if n == |s| {
      assert s[..n] == s;
      RemoveWhitespaceOfWord(s);
    } else {
      var rest := SkipWhitespace(s[n..]);
      var gap := s[n..][..|s[n..]| - |rest|];
      WordGapRest(s, n, gap, rest);
      PiecesKeepContent(rest);
      WordThenPiecesContent(s[..n], gap, rest);
    }
  }

  lemma WordGapRest(s: string, n: nat, gap: string, rest: string)
    requires n + |rest| <= |s|
    requires rest == s[n..][|s[n..]| - |rest|..] && gap == s[n..][..|s[n..]| - |rest|]
    ensures s == s[..n] + gap + rest
  {
    assert s[n..] == gap + rest;
    assert s == s[..n] + s[n..];
  }

  /** A word, a blank gap and a rest whose pieces keep its content keep theirs together. */
  lemma WordThenPiecesContent(w: string, gap: string, rest: string)
    requires NoWhitespace(w) && AllWhitespace(gap)
    requires Concat(Pieces(rest)) == RemoveWhitespace(rest)
    ensures Concat([w] + Pieces(rest)) == RemoveWhitespace(w + gap + rest)
  {
    RemoveWhitespaceAppend(w + gap, rest);
    RemoveWhitespaceAppend(w, gap);
    RemoveWhitespaceOfWord(w);
    RemoveWhitespaceOfBlank(gap);
    ConcatAppend([w], Pieces(rest));
  }

  lemma {:induction false} DropTrailingEmptyKeepsContent(xs: seq<string>)
    ensures Concat(DropTrailingEmpty(xs)) == Concat(xs)
    decreases |xs|
  {
    if |xs| > 0 && xs[|xs| - 1] == "" {
      DropTrailingEmptyKeepsContent(xs[..|xs| - 1]);
      assert xs == xs[..|xs| - 1] + [""];
      ConcatAppend(xs[..|xs| - 1], [""]);
    }
  }

  /** Splitting on whitespace loses exactly the whitespace: gluing the pieces back together
      gives the input with its whitespace characters removed. */
  lemma {:induction false} SplitWhitespaceKeepsContent(s: string)
    ensures Concat(SplitWhitespace(s)) == RemoveWhitespace(s)
  {
    if NoWhitespace(s) {
      RemoveWhitespaceOfWord(s);
    } else {
      PiecesKeepContent(s);
      DropTrailingEmptyKeepsContent(Pieces(s));
    }
  }

  /** `words[0] + seps[0] + words[1] + ... + words[n-1]`: words separated by whitespace runs. */
  function Interleave(words: seq<string>, seps: seq<string>): string
    requires |words| == |seps| + 1
    decreases |seps|
  {
    if |seps| == 0 then words[0]
    else words[0] + seps[0] + Interleave(words[1..], seps[1..])
  }

  /** A well-formed word list: every word non-empty and free of whitespace. */
  predicate AreWords(words: seq<string>) {
    forall i :: 0 <= i < |words| ==> words[i] != "" && NoWhitespace(words[i])
  }

  /** Every separator is a non-empty run of whitespace. */
  predicate AreSeparators(seps: seq<string>) {
    forall i :: 0 <= i < |seps| ==> seps[i] != "" && AllWhitespace(seps[i])
  }

  lemma {:induction false} WordLengthOfWordThenGap(w: string, rest: string)
    requires NoWhitespace(w)
    requires |rest| == 0 || IsWhitespace(rest[0])
    ensures WordLength(w + rest) == |w|
    decreases |w|
  {
    if |w| > 0 {
      assert (w + rest)[1..] == w[1..] + rest;
      WordLengthOfWordThenGap(w[1..], rest);
    } else {
      assert w + rest == rest;
    }
  }

  lemma {:induction false} SkipWhitespaceOfGap(gap: string, rest: string)
    requires AllWhitespace(gap)
    requires |rest| == 0 || !IsWhitespace(rest[0])
    ensures SkipWhitespace(gap + rest) == rest
    decreases |gap|
  {
    if |gap| > 0 {
      assert (gap + rest)[1..] == gap[1..] + rest;
      SkipWhitespaceOfGap(gap[1..], rest);
    } else {
      assert gap + rest == rest;
    }
  }

  lemma {:induction false} PiecesOfWord(w: string)
    requires NoWhitespace(w)
    ensures Pieces(w) == [w]
  {
    WordLengthOfWordThenGap(w, "");
    assert w + "" == w;
  }

  lemma {:induction false} PiecesOfWordThenGap(w: string, gap: string, rest: string)
    requires NoWhitespace(w)
    requires gap != "" && AllWhitespace(gap)
    requires |rest| == 0 || !IsWhitespace(rest[0])
    ensures Pieces(w + gap + rest) == [w] + Pieces(rest)
  {
    var s := w + gap + rest;
    assert s == w + (gap + rest);
    WordLengthOfWordThenGap(w, gap + rest);
    assert s[..|w|] == w;
    assert s[|w|..] == gap + rest;
    SkipWhitespaceOfGap(gap, rest);
  }

  lemma {:induction false} PiecesOfWordThenTrailing(w: string, trailing: string)
    requires NoWhitespace(w)
    requires AllWhitespace(trailing)
    ensures trailing == "" ==> Pieces(w + trailing) == [w]
    ensures trailing != "" ==> Pieces(w + trailing) == [w, ""]
  {
    if trailing == "" {
      assert w + trailing == w;
      PiecesOfWord(w);
    } else {
      assert w + trailing == w + trailing + "";
      PiecesOfWordThenGap(w, trailing, "");
      PiecesOfWord("");
    }
  }

  /** The trailing empty piece left when the input ends with whitespace. */
  function TrailingPiece(trailing: string): seq<string> {
    if trailing == "" then [] else [""]
  }

  lemma {:induction false} PiecesOfInterleave(words: seq<string>, seps: seq<string>, trailing: string)
    requires |words| == |seps| + 1
    requires AreWords(words) && AreSeparators(seps)
    requires AllWhitespace(trailing)
    ensures Pieces(Interleave(words, seps) + trailing) == words + TrailingPiece(trailing)
    decreases |seps|
  {
    if |seps| == 0 {
      PiecesOfInterleaveBase(words, seps, trailing);
    } else {
      PiecesOfInterleaveStep(words, seps, trailing);
      TailsAreWords(words, seps);
      PiecesOfInterleave(words[1..], seps[1..], trailing);
      HeadThenTail(words, TrailingPiece(trailing));
    }
  }

  lemma TailsAreWords(words: seq<string>, seps: seq<string>)
    requires |words| == |seps| + 1 && |seps| > 0
    requires AreWords(words) && AreSeparators(seps)
    ensures |words[1..]| == |seps[1..]| + 1
    ensures AreWords(words[1..]) && AreSeparators(seps[1..])
  {
  }

  lemma HeadThenTail<T>(xs: seq<T>, ys: seq<T>)
    requires |xs| > 0
    ensures xs + ys == [xs[0]] + (xs[1..] + ys)
  {
    assert xs == [xs[0]] + xs[1..];
  }

  /** Concatenating two short displays gives the display of all their elements. */
  lemma OneThenOne<T>(a: T, b: T)
    ensures [a] + [b] == [a, b]
  {
  }

  lemma FourThenTwo<T>(a: T, b: T, c: T, d: T, e: T, g: T)
    ensures [a, b, c, d] + [e, g] == [a, b, c, d, e, g]
  {
  }

  /** A sequence is what comes before position `k`, the element there, and what follows. */
  lemma SplitAround<T>(s: seq<T>, k: nat)
    requires k < |s|
    ensures s == s[..k] + ([s[k]] + s[k + 1..])
  {
    assert s[k..] == [s[k]] + s[k + 1..];
    assert s == s[..k] + s[k..];
  }

  lemma ConsTail<T>(s: seq<T>)
    requires |s| > 0
    ensures s == [s[0]] + s[1..]
  {
  }

  /** Appending the head, then the tail, appends the whole. */
  lemma ConcatSplit<T>(a: seq<T>, values: seq<T>)
    requires |values| > 0
    ensures (a + [values[0]]) + values[1..] == a + values
  {
    assert [values[0]] + values[1..] == values;
  }

  lemma {:induction false} PiecesOfInterleaveBase(words: seq<string>, seps: seq<string>, trailing: string)
    requires |words| == |seps| + 1 && |seps| == 0
    requires AreWords(words)
    requires AllWhitespace(trailing)
    ensures Pieces(Interleave(words, seps) + trailing) == words + TrailingPiece(trailing)
  {
    PiecesOfWordThenTrailing(words[0], trailing);
    assert words == [words[0]];
  }

  lemma {:induction false} PiecesOfInterleaveStep(words: seq<string>, seps: seq<string>, trailing: string)
    requires |words| == |seps| + 1 && |seps| > 0
    requires AreWords(words) && AreSeparators(seps)
    ensures Pieces(Interleave(words, seps) + trailing)
         == [words[0]] + Pieces(Interleave(words[1..], seps[1..]) + trailing)
  {
    var tail := Interleave(words[1..], seps[1..]) + trailing;
    assert Interleave(words, seps) + trailing == words[0] + seps[0] + tail;
    InterleaveStartsWithWord(words[1..], seps[1..], trailing);
    assert !IsWhitespace(words[1][0]);
    PiecesOfWordThenGap(words[0], seps[0], tail);
  }

  lemma {:induction false} InterleaveStartsWithWord(words: seq<string>, seps: seq<string>, trailing: string)
    requires |words| == |seps| + 1
    requires AreWords(words)
    ensures |Interleave(words, seps) + trailing| > 0
    ensures (Interleave(words, seps) + trailing)[0] == words[0][0]
  {
    if |seps| > 0 {
      assert Interleave(words, seps) + trailing == words[0] + (seps[0] + Interleave(words[1..], seps[1..]) + trailing);
    }
  }

  lemma {:induction false} DropTrailingEmptyOfWords(words: seq<string>)
    requires AreWords(words)
    ensures DropTrailingEmpty(words) == words
    ensures DropTrailingEmpty(words + [""]) == words
  {
    assert (words + [""])[..|words|] == words;
  }

  /** One word followed by whitespace splits into that word alone. */
  lemma SplitWhitespaceOfWord(w: string, trailing: string)
    requires w != "" && NoWhitespace(w) && AllWhitespace(trailing)
    ensures SplitWhitespace(w + trailing) == [w]
  {
    SplitWhitespaceOfInterleave([w], [], trailing);
  }

  /** Splitting words joined by arbitrary non-empty whitespace runs, with optional trailing
      whitespace, gives back exactly the words, in order and with duplicates kept. */
  lemma {:induction false} SplitWhitespaceOfInterleave(words: seq<string>, seps: seq<string>, trailing: string)
    requires |words| == |seps| + 1
    requires AreWords(words) && AreSeparators(seps)
    requires AllWhitespace(trailing)
    ensures SplitWhitespace(Interleave(words, seps) + trailing) == words
  {
    var s := Interleave(words, seps) + trailing;
    PiecesOfInterleave(words, seps, trailing);
    DropTrailingEmptyOfWords(words);
    assert words + TrailingPiece(trailing) == if trailing == "" then words else words + [""];
    if |seps| > 0 || trailing != "" {
      InterleaveHasWhitespace(words, seps, trailing);
    } else {
      assert s == words[0];
    }
  }

  lemma {:induction false} InterleaveHasWhitespace(words: seq<string>, seps: seq<string>, trailing: string)
    requires |words| == |seps| + 1
    requires AreWords(words) && AreSeparators(seps)
    requires AllWhitespace(trailing)
    requires |seps| > 0 || trailing != ""
    ensures !NoWhitespace(Interleave(words, seps) + trailing)
  {
    var s := Interleave(words, seps) + trailing;
    if |seps| > 0 {
      assert s == words[0] + seps[0] + (Interleave(words[1..], seps[1..]) + trailing);
      assert s[|words[0]|] == seps[0][0];
    } else {
      assert s[|s| - 1] == trailing[|trailing| - 1];
    }
  }

  // ---------------------------------------------------------------------------
  // String.trim()
  // ---------------------------------------------------------------------------

  function TrimStart(s: string): (r: string)
    ensures |r| <= |s| && r == s[|s| - |r|..]
    ensures forall i :: 0 <= i < |s| - |r| ==> IsTrimmable(s[i])
    ensures |r| > 0 ==> !IsTrimmable(r[0])
  {
    if |s| > 0 && IsTrimmable(s[0]) then
      var r := TrimStart(s[1..]);
      assert s[1..][|s| - 1 - |r|..] == s[|s| - |r|..];
      forall i | 0 < i < |s| - |r|
        ensures IsTrimmable(s[i])
      {
        assert s[i] == s[1..][i - 1];
      }
      r
    else s
  }

  function TrimEnd(s: string): (r: string)
    ensures |r| <= |s| && r == s[..|r|]
    ensures forall i :: |r| <= i < |s| ==> IsTrimmable(s[i])
    ensures |r| > 0 ==> !IsTrimmable(r[|r| - 1])
  {
    if |s| > 0 && IsTrimmable(s[|s| - 1]) then TrimEnd(s[..|s| - 1]) else s
  }

  /** `s.trim()`: the longest infix without a trimmable character at either end. */
  function Trim(s: string): (r: string)
    ensures |r| <= |s|
    ensures |r| > 0 ==> !IsTrimmable(r[0]) && !IsTrimmable(r[|r| - 1])
    ensures (forall i :: 0 <= i < |s| ==> !IsTrimmable(s[i])) ==> r == s
  {
    TrimEnd(TrimStart(s))
  }

  /** What `Trim` removes is a run of trimmable characters at each end: its result is the
      infix `s[i..j]` with only trimmable characters before `i` and from `j` on. */
  lemma TrimIsInfix(s: string)
    ensures exists i, j :: 0 <= i <= j <= |s| && Trim(s) == s[i..j]
                           && (forall k :: 0 <= k < i ==> IsTrimmable(s[k]))
                           && (forall k :: j <= k < |s| ==> IsTrimmable(s[k]))
  {
    var t := TrimStart(s);
    var r := TrimEnd(t);
    var i := |s| - |t|;
    assert r == t[..|r|];
    forall k | i + |r| <= k < |s|
      ensures IsTrimmable(s[k])
    {
      assert s[k] == t[k - i];
    }
    assert Trim(s) == s[i..i + |r|];
  }

  /** Trimming twice trims nothing more. */
  lemma TrimIdempotent(s: string)
    ensures Trim(Trim(s)) == Trim(s)
  {
    var r := Trim(s);
    assert TrimStart(r) == r;
    assert TrimEnd(r) == r;
  }

  // ---------------------------------------------------------------------------
  // indexOf, startsWith, case-insensitive comparison
  // ---------------------------------------------------------------------------

  /** `s.indexOf(c)`: the first position of `c`, None for -1. */
  function IndexOf(s: string, c: char): (r: Option<nat>)
    ensures r.None? <==> c !in s
    ensures r.Some? ==> r.value < |s| && s[r.value] == c && c !in s[..r.value]
  {
    if |s| == 0 then None
    else if s[0] == c then Some(0)
    else match IndexOf(s[1..], c)
      case None => None
      case Some(k) =>
        assert s[..k + 1] == [s[0]] + s[1..][..k];
        Some(k + 1)
  }

  /** `s.split(c, 2)` for a one-character pattern: the text before the first `c` and the text
      after it; None when `c` does not occur (Java then returns the whole string alone). */
  function SplitOnce(s: string, c: char): (r: Option<(string, string)>)
    ensures r.None? <==> c !in s
    ensures r.Some? ==> c !in r.value.0 && r.value.0 + [c] + r.value.1 == s
  {
    match IndexOf(s, c)
    case Some(i) =>
      assert s == s[..i] + [c] + s[i + 1..];
      Some((s[..i], s[i + 1..]))
    case None => None
  }

  /** Splitting a joined pair gives it back, provided the first part has no `c`. */
  lemma SplitOnceOfJoined(a: string, c: char, b: string)
    requires c !in a
    ensures SplitOnce(a + [c] + b, c) == Some((a, b))
  {
    var t := a + [c] + b;
    assert t[|a|] == c;
    assert forall i :: 0 <= i < |a| ==> t[i] == a[i];
    assert t[..|a|] == a;
    assert t[|a| + 1..] == b;
  }

  predicate StartsWith(s: string, prefix: string) {
    prefix <= s
  }

  predicate EndsWith(s: string, suffix: string) {
    |suffix| <= |s| && s[|s| - |suffix|..] == suffix
  }

  /** Upper-case mapping of the ASCII letters; every other character is left alone. */
  function ToUpperChar(c: char): char {
    if 'a' <= c <= 'z' then (c as int - 32) as char else c
  }

  function ToUpper(s: string): (r: string)
    ensures |r| == |s|
    ensures forall i :: 0 <= i < |s| ==> r[i] == ToUpperChar(s[i])
  {
    if |s| == 0 then "" else [ToUpperChar(s[0])] + ToUpper(s[1..])
  }

  /** `a.equalsIgnoreCase(b)` over ASCII letters. */
  predicate EqualsIgnoreCase(a: string, b: string) {
    ToUpper(a) == ToUpper(b)
  }

  // ---------------------------------------------------------------------------
  // Guava Joiner.on(sep).join(xs) and its inverse
  // ---------------------------------------------------------------------------

  function TotalLength(xs: seq<string>): nat {
    if |xs| == 0 then 0 else |xs[0]| + TotalLength(xs[1..])
  }

  /** The elements with `sep` between consecutive ones and nowhere else. */
  function Join(xs: seq<string>, sep: string): string
    decreases |xs|
  {
    if |xs| == 0 then ""
    else if |xs| == 1 then xs[0]
    else xs[0] + sep + Join(xs[1..], sep)
  }

  /** Cuts `s` at every occurrence of `sep`, scanning left to right. */
  function Split(s: string, sep: string): (r: seq<string>)
    requires |sep| > 0
    ensures |r| >= 1
    decreases |s|
  {
    if |s| == 0 then [""]
    else if sep <= s then [""] + Split(s[|sep|..], sep)
    else
      var t := Split(s[1..], sep);
      [[s[0]] + t[0]] + t[1..]
  }

  /** The joined string starts with the first element, ends with the last, and is exactly as
      long as the elements plus one separator between each consecutive pair. */
  lemma {:induction false} JoinShape(xs: seq<string>, sep: string)
    requires |xs| > 0
    ensures xs[0] <= Join(xs, sep)
    ensures |Join(xs, sep)| == TotalLength(xs) + |sep| * (|xs| - 1)
    ensures EndsWith(Join(xs, sep), xs[|xs| - 1])
    decreases |xs|
  {
    if |xs| > 1 {
      JoinShape(xs[1..], sep);
      var j := Join(xs[1..], sep);
      assert Join(xs, sep) == xs[0] + (sep + j);
      assert xs[1..][|xs[1..]| - 1] == xs[|xs| - 1];
      EndsWithAfter(xs[0] + sep, j, xs[|xs| - 1]);
      assert xs[0] + sep + j == xs[0] + (sep + j);
    }
  }

  /** Text ending with `last` still ends with it after anything is put in front. */
  lemma EndsWithAfter(a: string, j: string, last: string)
    requires EndsWith(j, last)
    ensures EndsWith(a + j, last)
  {
    assert (a + j)[|a + j| - |last|..] == j[|j| - |last|..];
  }

  lemma {:induction false} SplitOfPlain(x: string, sep: string)
    requires |sep| > 0 && sep[0] !in x
    ensures Split(x, sep) == [x]
    decreases |x|
  {
    if |x| > 0 {
      assert !(sep <= x);
      SplitOfPlain(x[1..], sep);
      assert [x[0]] + x[1..] == x;
    }
  }

  lemma {:induction false} SplitOfPlainThenSep(x: string, sep: string, rest: string)
    requires |sep| > 0 && sep[0] !in x
    ensures Split(x + sep + rest, sep) == [x] + Split(rest, sep)
    decreases |x|
  {
    var s := x + sep + rest;
    if |x| == 0 {
      assert s == sep + rest;
      assert sep <= s;
      assert s[|sep|..] == rest;
    } else {
      assert s[0] == x[0] != sep[0];
      assert !(sep <= s);
      assert s[1..] == x[1..] + sep + rest;
      SplitOfPlainThenSep(x[1..], sep, rest);
      assert [x[0]] + x[1..] == x;
    }
  }

  /** Splitting the joined string on the separator recovers the elements, provided no element
      contains the separator's first character. */
  lemma {:induction false} SplitJoin(xs: seq<string>, sep: string)
    requires |xs| > 0 && |sep| > 0
    requires forall i :: 0 <= i < |xs| ==> sep[0] !in xs[i]
    ensures Split(Join(xs, sep), sep) == xs
    decreases |xs|
  {
    if |xs| == 1 {
      SplitOfPlain(xs[0], sep);
    } else {
      SplitOfPlainThenSep(xs[0], sep, Join(xs[1..], sep));
      SplitJoin(xs[1..], sep);
      assert xs == [xs[0]] + xs[1..];
    }
  }
}
