/** The string operations the reader and writer rely on, as Python defines
    them: str.isspace / strip / split / count / replace, readline on an
    already-decoded text, decimal integers, and substring search. */
module Text {
  import opened Wrappers

  /** str.isspace for one character; also what the regular expression
      class `\s` matches on text. */
  predicate IsSpace(c: char) {
    || c == ' ' || ('\t' <= c <= '\r') || ('\U{001C}' <= c <= '\U{001F}')
    || c == '\U{0085}' || c == '\U{00A0}' || c == '\U{1680}' || ('\U{2000}' <= c <= '\U{200A}')
    || c == '\U{2028}' || c == '\U{2029}' || c == '\U{202F}' || c == '\U{205F}' || c == '\U{3000}'
  }

  predicate NoSpace(s: string) {
    forall k :: 0 <= k < |s| ==> !IsSpace(s[k])
  }

  predicate AllSpace(s: string) {
    forall k :: 0 <= k < |s| ==> IsSpace(s[k])
  }

  /** str.lstrip(): the suffix left after every leading whitespace character. */
  function LStrip(s: string): (r: string)
    ensures |r| <= |s| && r == s[|s| - |r|..]
    ensures forall k :: 0 <= k < |s| - |r| ==> IsSpace(s[k])
    ensures |r| > 0 ==> !IsSpace(r[0])
  {
    if |s| > 0 && IsSpace(s[0]) then LStrip(s[1..]) else s
  }

  /** str.rstrip(): the prefix left after every trailing whitespace character. */
  function RStrip(s: string): (r: string)
    ensures |r| <= |s| && r == s[..|r|]
    ensures forall k :: |r| <= k < |s| ==> IsSpace(s[k])
    ensures |r| > 0 ==> !IsSpace(r[|r| - 1])
  {
    if |s| > 0 && IsSpace(s[|s| - 1]) then RStrip(s[..|s| - 1]) else s
  }

  /** str.strip(). */
  function Strip(s: string): string {
    RStrip(LStrip(s))
  }

  /** Leading whitespace is exactly what lstrip removes. */
  lemma {:induction false} LStripPadded(pad: string, s: string)
    requires AllSpace(pad)
    requires |s| > 0 ==> !IsSpace(s[0])
    ensures LStrip(pad + s) == s
  {
    if |pad| > 0 {
      assert (pad + s)[0] == pad[0] && (pad + s)[1..] == pad[1..] + s;
      LStripPadded(pad[1..], s);
    } else {
      assert pad + s == s;
    }
  }

  /** Trailing whitespace is exactly what rstrip removes. */
  lemma {:induction false} RStripPadded(s: string, pad: string)
    requires AllSpace(pad)
    requires |s| > 0 ==> !IsSpace(s[|s| - 1])
    ensures RStrip(s + pad) == s
  {
    if |pad| > 0 {
      var init := pad[..|pad| - 1];
      assert (s + pad)[|s + pad| - 1] == pad[|pad| - 1];
      assert (s + pad)[..|s + pad| - 1] == s + init;
      RStripPadded(s, init);
    } else {
      assert s + pad == s;
    }
  }

  /** strip() of a core that begins and ends with non-whitespace, padded on
      both sides with whitespace, is the core. */
  lemma StripPadded(pre: string, core: string, post: string)
    requires AllSpace(pre) && AllSpace(post)
    requires |core| > 0 && !IsSpace(core[0]) && !IsSpace(core[|core| - 1])
    ensures Strip(pre + core + post) == core
  {
    assert pre + core + post == pre + (core + post);
    LStripPadded(pre, core + post);
    RStripPadded(core, post);
  }

  /** str.count('"'). */
  function CountQuotes(s: string): nat {
    if |s| == 0 then 0 else (if s[0] == '"' then 1 else 0) + CountQuotes(s[1..])
  }

  lemma {:induction false} CountQuotesConcat(a: string, b: string)
    ensures CountQuotes(a + b) == CountQuotes(a) + CountQuotes(b)
  {
    if |a| > 0 {
      assert (a + b)[1..] == a[1..] + b;
      CountQuotesConcat(a[1..], b);
    } else {
      assert a + b == b;
    }
  }

  lemma {:induction false} CountQuotesPositive(s: string)
    ensures CountQuotes(s) > 0 <==> '"' in s
  {
    if |s| > 0 {
      CountQuotesPositive(s[1..]);
      assert forall c :: c in s <==> c == s[0] || c in s[1..];
    }
  }

  /** A quote-free text closed by one quote holds exactly one. */
  lemma CountQuotesOneClosing(w: string)
    requires '"' !in w
    ensures CountQuotes(w + "\"") == 1
  {
    CountQuotesPositive(w);
    CountQuotesConcat(w, "\"");
    assert CountQuotes("\"") == 1;
  }

  /** Whitespace holds no quote. */
  lemma {:induction false} CountQuotesAllSpace(s: string)
    requires AllSpace(s)
    ensures CountQuotes(s) == 0
  {
    if |s| > 0 {
      assert IsSpace(s[0]);
      assert AllSpace(s[1..]) by {
        forall i | 0 <= i < |s| - 1 ensures IsSpace(s[1..][i]) { assert s[1..][i] == s[i + 1]; }
      }
      CountQuotesAllSpace(s[1..]);
    }
  }

  // ---------------------------------------------------------------------
  // readline

  /** readline() on the remaining text: everything up to and including the
      first newline (all of it when there is none, "" at the end), and what
      is left after it. Only '\n' ends a line. */
  function ReadLine(src: string): (r: (string, string))
    ensures r.0 + r.1 == src
    ensures r.0 == "" <==> src == ""
    ensures |r.0| > 0 ==> '\n' !in r.0[..|r.0| - 1]
    ensures r.1 != "" ==> r.0[|r.0| - 1] == '\n'
  {
    if src == "" then ("", "")
    else if src[0] == '\n' then ("\n", src[1..])
    else
      var (line, rest) := ReadLine(src[1..]);
      assert ([src[0]] + line)[1..] == line;
      ([src[0]] + line, rest)
  }

  /** What print(s) adds to a file. */
  function Line(s: string): string {
    s + "\n"
  }

  /** A line read from a prefix that holds a whole line is read alike from
      any continuation of it. */
  lemma {:induction false} ReadLineAppend(x: string, y: string)
    requires |ReadLine(x).0| > 0 && ReadLine(x).0[|ReadLine(x).0| - 1] == '\n'
    ensures ReadLine(x + y) == (ReadLine(x).0, ReadLine(x).1 + y)
  {
    assert (x + y)[0] == x[0] && (x + y)[1..] == x[1..] + y;
    if x[0] != '\n' {
      ReadLineAppend(x[1..], y);
    }
  }

  /** What print(l) wrote, readline() reads back. */
  lemma {:induction false} ReadLineOf(l: string, rest: string)
    requires '\n' !in l
    ensures ReadLine(l + "\n" + rest) == (l + "\n", rest)
  {
    var s := l + "\n" + rest;
    if |l| == 0 {
      assert s == "\n" + rest && s[1..] == rest;
    } else {
      assert s[0] == l[0] && s[1..] == l[1..] + "\n" + rest;
      ReadLineOf(l[1..], rest);
      assert [l[0]] + (l[1..] + "\n") == l + "\n";
    }
  }

  /** readline() returns a printed line whole. */
  lemma ReadLineOfLine(l: string, rest: string)
    requires '\n' !in l
    ensures ReadLine(Line(l) + rest) == (Line(l), rest)
  {
    ReadLineOf(l, rest);
  }

  // ---------------------------------------------------------------------
  // Decimal integers

  predicate IsDigit(c: char) {
    '0' <= c <= '9'
  }

  predicate AllDigits(s: string) {
    forall k :: 0 <= k < |s| ==> IsDigit(s[k])
  }

  function DigitChar(d: nat): (c: char)
    requires d < 10
    ensures IsDigit(c)
  {
    ('0' as int + d) as char
  }

  function DigitValue(c: char): nat
    requires IsDigit(c)
  {
    c as int - '0' as int
  }

  /** The value of a string of decimal digits. */
  function DigitsValue(s: string): nat
    requires AllDigits(s)
  {
    if |s| == 0 then 0 else DigitsValue(s[..|s| - 1]) * 10 + DigitValue(s[|s| - 1])
  }

  /** str(n) for a natural number: its shortest decimal digits. */
  function NatText(n: nat): (r: string)
    ensures |r| > 0 && AllDigits(r)
    ensures |r| > 1 ==> r[0] != '0'
  {
    if n < 10 then [DigitChar(n)] else NatText(n / 10) + [DigitChar(n % 10)]
  }

  lemma {:induction false} NatTextValue(n: nat)
    ensures DigitsValue(NatText(n)) == n
  {
    if n >= 10 {
      NatTextValue(n / 10);
      var s := NatText(n);
      assert s[..|s| - 1] == NatText(n / 10);
    }
  }

  /** int(s) on text: surrounding whitespace, an optional sign, then ASCII
      decimal digits. */
  function ParseInt(s: string): (r: Option<int>)
    ensures r.Some? <==> ValidInt(Strip(s))
  {
    var t := Strip(s);
    if |t| > 0 && (t[0] == '-' || t[0] == '+') then
      var u := t[1..];
      var v: int := if |u| > 0 && AllDigits(u) then DigitsValue(u) else 0;
      if |u| > 0 && AllDigits(u) then Some(if t[0] == '-' then -v else v) else None
    else if |t| > 0 && AllDigits(t) then Some(DigitsValue(t))
    else None
  }

  /** The text int() accepts once stripped: an optional sign, then one or
      more ASCII decimal digits. */
  predicate ValidInt(t: string) {
    if |t| > 0 && (t[0] == '-' || t[0] == '+') then |t| > 1 && AllDigits(t[1..])
    else |t| > 0 && AllDigits(t)
  }

  /** int(str(n)) == n. */
  lemma ParseIntNatText(n: nat)
    ensures ParseInt(NatText(n)) == Some(n)
  {
    var s := NatText(n);
    StripPadded("", s, "");
    assert "" + s + "" == s;
    NatTextValue(n);
  }

  /** int(x) for a number: truncation toward zero. */
  function Trunc(x: real): (r: int)
    ensures x >= 0.0 ==> r as real <= x < r as real + 1.0
    ensures x < 0.0 ==> r as real - 1.0 < x <= r as real
  {
    if x >= 0.0 then x.Floor else -((-x).Floor)
  }

  // ---------------------------------------------------------------------
  // str.split()

  /** The longest prefix without whitespace. */
  function TakeWord(t: string): (r: string)
    ensures |r| <= |t| && r == t[..|r|] && NoSpace(r)
    ensures |r| < |t| ==> IsSpace(t[|r|])
  {
    if |t| == 0 || IsSpace(t[0]) then "" else [t[0]] + TakeWord(t[1..])
  }

  /** str.split() without arguments: the maximal runs of non-whitespace. */
  function SplitWords(s: string): (r: seq<string>)
    ensures forall k :: 0 <= k < |r| ==> |r[k]| > 0 && NoSpace(r[k])
    ensures r == [] <==> AllSpace(s)
    decreases |s|
  {
    if |s| == 0 then []
    else if IsSpace(s[0]) then
      assert AllSpace(s) <==> AllSpace(s[1..]) by {
        assert forall k :: 1 <= k < |s| ==> s[k] == s[1..][k - 1];
      }
      SplitWords(s[1..])
    else
      var w := TakeWord(s);
      [w] + SplitWords(s[|w|..])
  }

  /** ' '.join(ws). */
  function JoinSpaced(ws: seq<string>): string {
    if |ws| == 0 then "" else if |ws| == 1 then ws[0] else ws[0] + " " + JoinSpaced(ws[1..])
  }

  lemma {:induction false} TakeWordOf(w: string, rest: string)
    requires NoSpace(w)
    requires |rest| > 0 ==> IsSpace(rest[0])
    ensures TakeWord(w + rest) == w
  {
    if |w| > 0 {
      assert (w + rest)[1..] == w[1..] + rest;
      TakeWordOf(w[1..], rest);
    }
  }

  /** split() skips the whitespace before a word, takes the word whole up
      to the next whitespace, and goes on from there: with
      `r == [] <==> AllSpace(s)` this determines split() on every text. */
  lemma {:induction false} SplitPadded(pad: string, w: string, rest: string)
    requires AllSpace(pad) && |w| > 0 && NoSpace(w)
    requires |rest| > 0 ==> IsSpace(rest[0])
    ensures SplitWords(pad + w + rest) == [w] + SplitWords(rest)
    decreases |pad|
  {
    var s := pad + w + rest;
    if |pad| == 0 {
      assert s == w + rest;
      TakeWordOf(w, rest);
      assert s[0] == w[0];
      assert s[|w|..] == rest;
    } else {
      assert s[0] == pad[0];
      assert s[1..] == pad[1..] + w + rest;
      SplitPadded(pad[1..], w, rest);
    }
  }

  /** split() undoes ' '.join() for non-empty words without whitespace. */
  lemma {:induction false} SplitJoin(ws: seq<string>)
    requires forall k :: 0 <= k < |ws| ==> |ws[k]| > 0 && NoSpace(ws[k])
    ensures SplitWords(JoinSpaced(ws)) == ws
  {
    if |ws| == 1 {
      SplitPadded("", ws[0], "");
      assert "" + ws[0] + "" == JoinSpaced(ws);
    } else if |ws| > 1 {
      var tail := JoinSpaced(ws[1..]);
      assert JoinSpaced(ws) == "" + ws[0] + (" " + tail);
      SplitPadded("", ws[0], " " + tail);
      SplitSkipSpace(" ", tail);
      SplitJoin(ws[1..]);
    }
  }

  /** A leading whitespace character is skipped. */
  lemma SplitSkipSpace(c: string, t: string)
    requires |c| == 1 && IsSpace(c[0])
    ensures SplitWords(c + t) == SplitWords(t)
  {
    assert (c + t)[0] == c[0] && (c + t)[1..] == t;
  }

  // ---------------------------------------------------------------------
  // Searching

  predicate OccursAt(s: string, pat: string, i: nat) {
    i + |pat| <= |s| && s[i..i + |pat|] == pat
  }

  /** The first position from k on where pat occurs. */
  function FindFrom(s: string, pat: string, k: nat): (r: Option<nat>)
    ensures r.Some? ==> k <= r.value && OccursAt(s, pat, r.value)
    ensures r.Some? ==> forall i :: k <= i < r.value ==> !OccursAt(s, pat, i)
    ensures r.None? ==> forall i :: k <= i ==> !OccursAt(s, pat, i)
    decreases |s| - k
  {
    if k + |pat| > |s| then None
    else if OccursAt(s, pat, k) then Some(k)
    else FindFrom(s, pat, k + 1)
  }

  /** The last position of c in s. */
  function LastIndexOf(s: string, c: char): (r: Option<nat>)
    ensures r.None? <==> c !in s
    ensures r.Some? ==> r.value < |s| && s[r.value] == c
    ensures r.Some? ==> forall j :: r.value < j < |s| ==> s[j] != c
  {
    if |s| == 0 then None
    else if s[|s| - 1] == c then Some(|s| - 1)
    else LastIndexOf(s[..|s| - 1], c)
  }

  /** The text before the first newline: all a regular expression without
      DOTALL can match from the start. */
  function FirstLine(s: string): (r: string)
    ensures |r| <= |s| && r == s[..|r|] && '\n' !in r
    ensures |r| < |s| ==> s[|r|] == '\n'
  {
    if |s| == 0 || s[0] == '\n' then "" else [s[0]] + FirstLine(s[1..])
  }

  lemma FirstLineWhole(s: string)
    requires '\n' !in s
    ensures FirstLine(s) == s
  {
  }

  /** A key without '=' followed by sep (beginning with " =") puts the
      first occurrence of sep from position 1 right after the key. */
  lemma FindAfterKey(key: string, sep: string, v: string)
    requires |key| > 0 && '=' !in key
    requires |sep| >= 2 && sep[0] == ' ' && sep[1] == '='
    ensures FindFrom(key + sep + v, sep, 1) == Some(|key|)
  {
    var s := key + sep + v;
    assert s[|key|..|key| + |sep|] == sep;
    assert OccursAt(s, sep, |key|);
    forall i | 1 <= i < |key| ensures !OccursAt(s, sep, i) {
      if i + 1 < |key| {
        assert s[i + 1] == key[i + 1];
      } else {
        assert s[i + 1] == sep[0];
      }
      assert s[i + 1] != sep[1];
    }
  }

  // ---------------------------------------------------------------------
  // Praat's quote escaping

  /** _formatMark: every double quote doubled. */
  function FormatMark(s: string): (r: string)
    ensures CountQuotes(r) == 2 * CountQuotes(s)
    ensures |r| == |s| + CountQuotes(s)
  {
    if |s| == 0 then ""
    else
      var head := if s[0] == '"' then "\"\"" else [s[0]];
      CountQuotesConcat(head, FormatMark(s[1..]));
      head + FormatMark(s[1..])
  }

  /** str.replace('""', '"'): pairs of quotes collapsed, left to right. */
  function Unescape(s: string): string {
    if |s| >= 2 && s[0] == '"' && s[1] == '"' then "\"" + Unescape(s[2..])
    else if |s| == 0 then ""
    else [s[0]] + Unescape(s[1..])
  }

  /** Reading a mark back undoes writing it. */
  lemma {:induction false} UnescapeFormatMark(s: string)
    ensures Unescape(FormatMark(s)) == s
  {
    if |s| > 0 {
      UnescapeFormatMark(s[1..]);
      var f := FormatMark(s);
      if s[0] == '"' {
        assert f[2..] == FormatMark(s[1..]);
      } else {
        assert f[1..] == FormatMark(s[1..]);
      }
      assert s == [s[0]] + s[1..];
    }
  }

  /** Inside a written mark, every character other than a quote ends a
      prefix with an even number of quotes: the quotes come in pairs. */
  lemma {:induction false} FormatMarkEvenPrefix(s: string, j: nat)
    requires j < |FormatMark(s)| && FormatMark(s)[j] != '"'
    ensures CountQuotes(FormatMark(s)[..j + 1]) % 2 == 0
  {
    var head := if s[0] == '"' then "\"\"" else [s[0]];
    var f := FormatMark(s);
    assert f == head + FormatMark(s[1..]);
    if j < |head| {
      assert f[..j + 1] == [s[0]];
    } else {
      FormatMarkEvenPrefix(s[1..], j - |head|);
      assert f[..j + 1] == head + FormatMark(s[1..])[..j - |head| + 1];
      CountQuotesConcat(head, FormatMark(s[1..])[..j - |head| + 1]);
    }
  }
}
