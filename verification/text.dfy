/** The handful of Ruby string operations the script relies on, stated over
    `seq<char>`: whitespace splitting, splitting on one separator character,
    joining, stripping, deleting characters, escaping double quotes and
    printing an integer in decimal. */
module Text {

  /** Ruby's ASCII whitespace: the blanks of `String#split` without an
      argument and of the regular-expression class `\s`. */
  predicate IsSpace(c: char) {
    c == ' ' || c == '\t' || c == '\n' || c == '\U{B}' || c == '\U{C}' || c == '\r'
  }

  /** What `String#strip` removes at either end: whitespace and NUL. */
  predicate IsStripSpace(c: char) {
    c == '\0' || IsSpace(c)
  }

  predicate NoSpace(s: string) {
    forall i :: 0 <= i < |s| ==> !IsSpace(s[i])
  }

  /** The concatenation of a sequence of sequences. */
  function Flatten<T>(xss: seq<seq<T>>): seq<T> {
    if xss == [] then [] else xss[0] + Flatten(xss[1..])
  }

  lemma {:induction false} FlattenSnoc<T>(xss: seq<seq<T>>, xs: seq<T>)
    ensures Flatten(xss + [xs]) == Flatten(xss) + xs
  {
    if xss == [] {
      assert xss + [xs] == [xs];
    } else {
      assert (xss + [xs])[1..] == xss[1..] + [xs];
      FlattenSnoc(xss[1..], xs);
    }
  }

  /* ---------------------------------------------------------------------- */
  /* Splitting on whitespace                                                  */
  /* ---------------------------------------------------------------------- */

  /** Length of the leading run of non-blank characters. */
  function WordLength(s: string): (n: nat)
    ensures n <= |s|
    ensures forall i :: 0 <= i < n ==> !IsSpace(s[i])
    ensures n < |s| ==> IsSpace(s[n])
  {
    if s == [] || IsSpace(s[0]) then 0 else 1 + WordLength(s[1..])
  }

  /** Ruby's `str.split` with no argument: leading blanks are skipped and the
      words are the maximal runs of non-blank characters, in order. */
  function Words(s: string): (ws: seq<string>)
    decreases |s|
    ensures forall i :: 0 <= i < |ws| ==> ws[i] != [] && NoSpace(ws[i])
  {
    if s == [] then []
    else if IsSpace(s[0]) then Words(s[1..])
    else
      var n := WordLength(s);
      [s[..n]] + Words(s[n..])
  }

  /** The non-blank characters of `s`, in order. */
  function NonBlank(s: string): (r: string) {
    if s == [] then [] else (if IsSpace(s[0]) then [] else [s[0]]) + NonBlank(s[1..])
  }

  lemma {:induction false} NonBlankAppend(a: string, b: string)
    ensures NonBlank(a + b) == NonBlank(a) + NonBlank(b)
  {
    if a == [] {
      assert a + b == b;
    } else {
      assert (a + b)[1..] == a[1..] + b;
      NonBlankAppend(a[1..], b);
    }
  }

  lemma {:induction false} NonBlankOfWord(w: string)
    requires NoSpace(w)
    ensures NonBlank(w) == w
  {
    if w != [] {
      NonBlankOfWord(w[1..]);
    }
  }

  /** Splitting on whitespace loses exactly the blanks: the words, glued
      back together, are the non-blank characters of the input in order. */
  lemma {:induction false} WordsKeepNonBlanks(s: string)
    ensures Flatten(Words(s)) == NonBlank(s)
    decreases |s|
  {
    if s == [] {
    } else if IsSpace(s[0]) {
      WordsKeepNonBlanks(s[1..]);
    } else {
      var n := WordLength(s);
      assert s == s[..n] + s[n..];
      WordsKeepNonBlanks(s[n..]);
      NonBlankAppend(s[..n], s[n..]);
      NonBlankOfWord(s[..n]);
      assert Words(s)[1..] == Words(s[n..]);
    }
  }

  lemma {:induction false} WordLengthOfWord(w: string, rest: string)
    requires NoSpace(w)
    requires rest == [] || IsSpace(rest[0])
    ensures WordLength(w + rest) == |w|
  {
    if w != [] {
      assert (w + rest)[1..] == w[1..] + rest;
      WordLengthOfWord(w[1..], rest);
    }
  }

  lemma WordsOfWordThen(w: string, rest: string)
    requires w != [] && NoSpace(w)
    requires rest == [] || IsSpace(rest[0])
    ensures Words(w + rest) == [w] + Words(rest)
  {
    WordLengthOfWord(w, rest);
    assert (w + rest)[..|w|] == w;
    assert (w + rest)[|w|..] == rest;
  }

  predicate AllSpace(s: string) {
    forall i :: 0 <= i < |s| ==> IsSpace(s[i])
  }

  /** Blanks alone hold no word. */
  lemma {:induction false} WordsOfBlanks(b: string)
    requires AllSpace(b)
    ensures Words(b) == []
  {
    if b != [] {
      WordsOfBlanks(b[1..]);
    }
  }

  /** The words are the maximal non-blank runs: after a run of blanks, a word
      ended by a blank (or by the end of the text) is the next word, whole. */
  lemma {:induction false} WordsOfBlanksWordThen(b: string, w: string, rest: string)
    requires AllSpace(b)
    requires w != [] && NoSpace(w)
    requires rest == [] || IsSpace(rest[0])
    ensures Words(b + w + rest) == [w] + Words(rest)
  {
    if b == [] {
      assert b + w + rest == w + rest;
      WordsOfWordThen(w, rest);
    } else {
      assert (b + w + rest)[1..] == b[1..] + w + rest;
      WordsOfBlanksWordThen(b[1..], w, rest);
    }
  }

  /* ---------------------------------------------------------------------- */
  /* Joining                                                                  */
  /* ---------------------------------------------------------------------- */

  /** Ruby's `Array#join(sep)`. */
  function Join(parts: seq<string>, sep: string): string {
    if parts == [] then []
    else if |parts| == 1 then parts[0]
    else parts[0] + sep + Join(parts[1..], sep)
  }

  lemma {:induction false} JoinSnoc(parts: seq<string>, x: string, sep: string)
    ensures Join(parts + [x], sep) == if parts == [] then x else Join(parts, sep) + sep + x
  {
    if parts == [] {
      assert parts + [x] == [x];
    } else if |parts| == 1 {
      assert (parts + [x])[1..] == [x];
    } else {
      assert (parts + [x])[1..] == parts[1..] + [x];
      JoinSnoc(parts[1..], x, sep);
    }
  }

  /** Words joined by single spaces split back into the same words. */
  lemma {:induction false} WordsOfJoin(ws: seq<string>)
    requires forall i :: 0 <= i < |ws| ==> ws[i] != [] && NoSpace(ws[i])
    ensures Words(Join(ws, " ")) == ws
  {
    if ws == [] {
    } else if |ws| == 1 {
      WordsOfWordThen(ws[0], []);
      assert ws[0] + [] == ws[0];
    } else {
      var rest := " " + Join(ws[1..], " ");
      assert Join(ws, " ") == ws[0] + rest;
      WordsOfWordThen(ws[0], rest);
      assert rest[1..] == Join(ws[1..], " ");
      WordsOfJoin(ws[1..]);
    }
  }

  lemma {:induction false} JoinHasNoChar(parts: seq<string>, sep: string, c: char)
    requires c !in sep
    requires forall i :: 0 <= i < |parts| ==> c !in parts[i]
    ensures c !in Join(parts, sep)
  {
    if |parts| > 1 {
      JoinHasNoChar(parts[1..], sep, c);
    }
  }

  /* ---------------------------------------------------------------------- */
  /* Splitting on one separator character                                     */
  /* ---------------------------------------------------------------------- */

  /** Position of the first `d` in `s`, or `|s|` when there is none. */
  function IndexOf(s: string, d: char): (n: nat)
    ensures n <= |s|
    ensures d !in s[..n]
    ensures n < |s| ==> s[n] == d
  {
    if s == [] || s[0] == d then 0
    else
      var n := 1 + IndexOf(s[1..], d);
      assert s[..n] == [s[0]] + s[1..][..n - 1];
      n
  }

  /** The part of `s` before the first `d` (all of `s` when `d` is absent). */
  function PrefixBefore(s: string, d: char): (r: string)
    ensures d !in r
    ensures r <= s
    ensures |r| < |s| ==> s[|r|] == d
  {
    s[..IndexOf(s, d)]
  }

  /** A prefix free of `d` that stops at a `d` (or at the end) is the part before the first `d`. */
  lemma PrefixBeforeIs(s: string, d: char, p: string)
    requires p <= s && d !in p
    requires |p| < |s| ==> s[|p|] == d
    ensures PrefixBefore(s, d) == p
  {
  }

  /** Every piece between occurrences of `d`, empty pieces included: one more
      piece than there are `d`s. */
  function Fields(s: string, d: char): (fs: seq<string>)
    decreases |s|
    ensures |fs| >= 1 && fs[0] == PrefixBefore(s, d)
    ensures forall i :: 0 <= i < |fs| ==> d !in fs[i]
  {
    var n := IndexOf(s, d);
    if n == |s| then [s] else [s[..n]] + Fields(s[n + 1..], d)
  }

  /** The pieces glued back with the separator give the input again. */
  lemma {:induction false} FieldsJoin(s: string, d: char)
    ensures Join(Fields(s, d), [d]) == s
    decreases |s|
  {
    var n := IndexOf(s, d);
    var fs := Fields(s, d);
    if n < |s| {
      var rest := s[n + 1..];
      FieldsJoin(rest, d);
      assert fs == [s[..n]] + Fields(rest, d);
      assert |fs| >= 2 && fs[1..] == Fields(rest, d);
      assert Join(fs, [d]) == s[..n] + [d] + Join(Fields(rest, d), [d]);
      assert s == s[..n] + [d] + rest;
    } else {
      assert fs == [s];
    }
  }

  lemma FieldsCons(a: string, d: char, rest: string)
    requires d !in a
    ensures Fields(a + [d] + rest, d) == [a] + Fields(rest, d)
  {
    var s := a + [d] + rest;
    PrefixBeforeIs(s, d, a);
    assert s[|a| + 1..] == rest;
  }

  /** Ruby drops the empty fields at the end of a split. */
  function DropTrailingEmpty(fs: seq<string>): (r: seq<string>)
    ensures r <= fs
    ensures r == [] || r[|r| - 1] != []
    ensures forall i :: |r| <= i < |fs| ==> fs[i] == []
  {
    if fs == [] || fs[|fs| - 1] != [] then fs else DropTrailingEmpty(fs[..|fs| - 1])
  }

  /** Ruby's `s.split(d)` for a one-character separator other than a space. */
  function SplitOn(s: string, d: char): seq<string> {
    DropTrailingEmpty(Fields(s, d))
  }

  predicate OnlyChar(s: string, d: char) {
    forall i :: 0 <= i < |s| ==> s[i] == d
  }

  predicate AllEmpty(fs: seq<string>) {
    forall i :: 0 <= i < |fs| ==> fs[i] == []
  }

  lemma AllEmptyCons(a: string, fs: seq<string>)
    ensures AllEmpty([a] + fs) <==> a == [] && AllEmpty(fs)
  {
    if a == [] && AllEmpty(fs) {
      forall i | 0 <= i < |[a] + fs| ensures ([a] + fs)[i] == [] {
        if i > 0 {
          assert ([a] + fs)[i] == fs[i - 1];
        }
      }
    }
    if AllEmpty([a] + fs) {
      assert a == ([a] + fs)[0];
      forall i | 0 <= i < |fs| ensures fs[i] == [] {
        assert fs[i] == ([a] + fs)[i + 1];
      }
    }
  }

  /** With the first `d` of `s` at `n`, `s` is all `d`s exactly when that
      `d` comes first and the rest is all `d`s. */
  lemma OnlyCharSplit(s: string, d: char, n: nat)
    requires n < |s| && s[n] == d && d !in s[..n]
    ensures OnlyChar(s, d) <==> n == 0 && OnlyChar(s[n + 1..], d)
  {
    var rest := s[n + 1..];
    assert n == 0 || s[0] in s[..n];
    if OnlyChar(s, d) {
      forall i | 0 <= i < |rest| ensures rest[i] == d {
        assert rest[i] == s[n + 1 + i];
      }
    }
    if n == 0 && OnlyChar(rest, d) {
      forall i | 0 <= i < |s| ensures s[i] == d {
        if i > 0 {
          assert s[i] == rest[i - 1];
        }
      }
    }
  }

  /** A text free of `d` is all `d`s only when it is empty. */
  lemma OnlyCharWithout(s: string, d: char)
    requires d !in s
    ensures OnlyChar(s, d) <==> s == []
  {
    if s != [] {
      assert s[0] != d;
    }
  }

  lemma {:induction false} FieldsAllEmpty(s: string, d: char)
    ensures AllEmpty(Fields(s, d)) <==> OnlyChar(s, d)
    decreases |s|
  {
    var n := IndexOf(s, d);
    if n < |s| {
      var rest := s[n + 1..];
      FieldsAllEmpty(rest, d);
      assert Fields(s, d) == [s[..n]] + Fields(rest, d);
      AllEmptyCons(s[..n], Fields(rest, d));
      OnlyCharSplit(s, d, n);
    } else {
      assert s[..n] == s;
      assert Fields(s, d) == [s];
      AllEmptyCons(s, []);
      OnlyCharWithout(s, d);
    }
  }

  /** `s.split(d)` is empty exactly when `s` holds nothing but `d`s. */
  lemma SplitOnEmpty(s: string, d: char)
    ensures SplitOn(s, d) == [] <==> OnlyChar(s, d)
  {
    FieldsAllEmpty(s, d);
    var fs := Fields(s, d);
    var r := SplitOn(s, d);
    if r != [] {
      assert r[|r| - 1] == fs[|r| - 1];
      assert !AllEmpty(fs);
    } else {
      assert AllEmpty(fs);
    }
  }

  /** When `s.split(d)` has a first element, it is the part before the first `d`. */
  lemma SplitOnFirst(s: string, d: char)
    requires SplitOn(s, d) != []
    ensures SplitOn(s, d)[0] == PrefixBefore(s, d)
  {
  }

  /* ---------------------------------------------------------------------- */
  /* Stripping, deleting and escaping                                         */
  /* ---------------------------------------------------------------------- */

  function TrimStart(s: string): (r: string)
    ensures r == [] || !IsStripSpace(r[0])
    ensures |r| <= |s| && r == s[|s| - |r|..] && AllStripSpace(s[..|s| - |r|])
  {
    if s != [] && IsStripSpace(s[0]) then TrimStart(s[1..]) else s
  }

  function TrimEnd(s: string): (r: string)
    ensures r == [] || !IsStripSpace(r[|r| - 1])
    ensures r <= s && AllStripSpace(s[|r|..])
  {
    if s != [] && IsStripSpace(s[|s| - 1]) then TrimEnd(s[..|s| - 1]) else s
  }

  predicate AllStripSpace(s: string) {
    forall i :: 0 <= i < |s| ==> IsStripSpace(s[i])
  }

  /** `r` sits in `s` at `i` with only blank or NUL padding around it. */
  predicate PaddedAt(s: string, r: string, i: int) {
    0 <= i <= |s| - |r| && s[i..i + |r|] == r && AllStripSpace(s[..i]) && AllStripSpace(s[i + |r|..])
  }

  lemma TrimBothPadded(s: string)
    ensures PaddedAt(s, TrimEnd(TrimStart(s)), |s| - |TrimStart(s)|)
  {
    var t := TrimStart(s);
    PaddedBetween(s, t, TrimEnd(t), |s| - |t|);
  }

  /** Padding before a suffix, and padding after a prefix of that suffix,
      surround the prefix. */
  lemma PaddedBetween(s: string, t: string, r: string, i: nat)
    requires i <= |s| && t == s[i..] && AllStripSpace(s[..i])
    requires r <= t && AllStripSpace(t[|r|..])
    ensures PaddedAt(s, r, i)
  {
    SliceOfSuffix(s, i, |r|);
  }

  lemma SliceOfSuffix<T>(s: seq<T>, i: nat, n: nat)
    requires i + n <= |s|
    ensures s[i..][..n] == s[i..i + n]
    ensures s[i..][n..] == s[i + n..]
  {
  }

  /** Ruby's `String#strip`: `s` with its blank and NUL padding removed from
      both ends, and nothing else. */
  function Strip(s: string): (r: string)
    ensures r == [] || (!IsStripSpace(r[0]) && !IsStripSpace(r[|r| - 1]))
    ensures exists i :: PaddedAt(s, r, i)
  {
    TrimBothPadded(s);
    TrimEnd(TrimStart(s))
  }

  lemma {:induction false} TrimStartPadding(p: string, t: string)
    requires AllStripSpace(p)
    requires t == [] || !IsStripSpace(t[0])
    ensures TrimStart(p + t) == t
  {
    if p != [] {
      assert (p + t)[1..] == p[1..] + t;
      TrimStartPadding(p[1..], t);
    }
  }

  lemma {:induction false} TrimEndPadding(t: string, q: string)
    requires AllStripSpace(q)
    requires t == [] || !IsStripSpace(t[|t| - 1])
    ensures TrimEnd(t + q) == t
  {
    if q != [] {
      assert (t + q)[..|t + q| - 1] == t + q[..|q| - 1];
      TrimEndPadding(t, q[..|q| - 1]);
    } else {
      assert t + q == t;
    }
  }

  /** `strip` removes exactly the blank padding on both sides: whatever text
      with non-blank ends is padded with blanks, stripping gives it back. */
  lemma StripPadding(p: string, t: string, q: string)
    requires AllStripSpace(p) && AllStripSpace(q)
    requires t == [] || (!IsStripSpace(t[0]) && !IsStripSpace(t[|t| - 1]))
    ensures Strip(p + t + q) == t
  {
    if t == [] {
      assert p + t + q == p + q;
      TrimStartPadding(p + q, []);
      assert p + q + [] == p + q;
    } else {
      assert p + t + q == p + (t + q);
      TrimStartPadding(p, t + q);
      TrimEndPadding(t, q);
    }
  }

  /** Ruby's `s.gsub(/[...]/, '')`: `s` without the characters in `bad`. */
  function Without(s: string, bad: set<char>): (r: string)
    ensures forall c :: c in r <==> c in s && c !in bad
    ensures |r| <= |s|
  {
    if s == [] then []
    else (if s[0] in bad then [] else [s[0]]) + Without(s[1..], bad)
  }

  lemma {:induction false} WithoutAppend(a: string, b: string, bad: set<char>)
    ensures Without(a + b, bad) == Without(a, bad) + Without(b, bad)
  {
    if a == [] {
      assert a + b == b;
    } else {
      assert (a + b)[1..] == a[1..] + b;
      WithoutAppend(a[1..], b, bad);
    }
  }

  lemma {:induction false} WithoutNone(s: string, bad: set<char>)
    requires forall i :: 0 <= i < |s| ==> s[i] !in bad
    ensures Without(s, bad) == s
  {
    if s != [] {
      WithoutNone(s[1..], bad);
    }
  }

  function Count(s: string, c: char): nat {
    if s == [] then 0 else (if s[0] == c then 1 else 0) + Count(s[1..], c)
  }

  /** Ruby's `s.gsub('"', '\"')`: a backslash in front of every double quote. */
  function EscapeQuotes(s: string): (r: string)
    ensures |r| == |s| + Count(s, '"')
    ensures forall i :: 0 <= i < |r| && r[i] == '"' ==> 0 < i && r[i - 1] == '\\'
  {
    if s == [] then []
    else (if s[0] == '"' then "\\\"" else [s[0]]) + EscapeQuotes(s[1..])
  }

  /** Turns every backslash-quote pair back into a quote. */
  function UnescapeQuotes(s: string): string {
    if s == [] then []
    else if |s| >= 2 && s[0] == '\\' && s[1] == '"' then ['"'] + UnescapeQuotes(s[2..])
    else [s[0]] + UnescapeQuotes(s[1..])
  }

  /** Escaping loses nothing: undoing it gives back the original text, so no
      character other than the inserted backslashes is changed. */
  lemma {:induction false} EscapeQuotesRoundTrip(s: string)
    ensures UnescapeQuotes(EscapeQuotes(s)) == s
  {
    if s != [] {
      EscapeQuotesRoundTrip(s[1..]);
      var e := EscapeQuotes(s);
      if s[0] == '"' {
        assert e[2..] == EscapeQuotes(s[1..]);
      } else {
        assert e[1..] == EscapeQuotes(s[1..]);
        var t := EscapeQuotes(s[1..]);
        assert t == [] || t[0] != '"';
      }
    }
  }

  lemma {:induction false} EscapeQuotesAppend(a: string, b: string)
    ensures EscapeQuotes(a + b) == EscapeQuotes(a) + EscapeQuotes(b)
  {
    if a != [] {
      assert (a + b)[1..] == a[1..] + b;
      EscapeQuotesAppend(a[1..], b);
    } else {
      assert a + b == b;
    }
  }

  lemma {:induction false} EscapeQuotesNoQuote(s: string)
    requires '"' !in s
    ensures EscapeQuotes(s) == s
  {
    if s != [] {
      EscapeQuotesNoQuote(s[1..]);
    }
  }

  /* ---------------------------------------------------------------------- */
  /* Decimal numerals                                                         */
  /* ---------------------------------------------------------------------- */

  predicate IsDigit(c: char) {
    '0' <= c <= '9'
  }

  function DigitChar(d: nat): (c: char)
    requires d < 10
    ensures IsDigit(c) && c as int - '0' as int == d
  {
    ('0' as int + d) as char
  }

  /** Ruby's `Integer#to_s` for a non-negative integer. */
  function NatToDecimal(n: nat): (r: string)
    ensures r != []
    ensures forall i :: 0 <= i < |r| ==> IsDigit(r[i])
    ensures |r| > 1 ==> r[0] != '0'
  {
    if n < 10 then [DigitChar(n)] else NatToDecimal(n / 10) + [DigitChar(n % 10)]
  }

  /** The number a string of decimal digits denotes. */
  function DecimalValue(s: string): nat
    requires forall i :: 0 <= i < |s| ==> IsDigit(s[i])
  {
    if s == [] then 0
    else
      assert IsDigit(s[|s| - 1]);
      DecimalValue(s[..|s| - 1]) * 10 + (s[|s| - 1] as int - '0' as int)
  }

  lemma {:induction false} DecimalRoundTrip(n: nat)
    ensures DecimalValue(NatToDecimal(n)) == n
  {
    if n >= 10 {
      DecimalRoundTrip(n / 10);
      var r := NatToDecimal(n);
      assert r[..|r| - 1] == NatToDecimal(n / 10);
    }
  }

  /** Ruby's `Integer#to_s`. */
  function IntToDecimal(i: int): (r: string)
    ensures r != [] && NoSpace(r) && '"' !in r
  {
    if i < 0 then "-" + NatToDecimal(-i) else NatToDecimal(i)
  }
}
