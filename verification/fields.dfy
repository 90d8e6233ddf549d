/** One line of a Praat text file (`parse_line`) and the file header
    (`parse_header`): a value is either quoted text or a number, written
    bare (`"IntervalTier"`, `1.5`) in the short format and after a key
    (`class = "IntervalTier"`, `xmin = 1.5`) in the long one. */
module Fields {
  import opened Wrappers
  import opened Primitives
  import opened Text

  /** What parse_line returns: the quoted text or the (rounded) number. */
  datatype Field = Quoted(s: string) | Number(x: real)

  /** Python's number formatting ('{0}'.format(x)) and reading
      (round(float(t), digits)), which the model takes as given. */
  datatype NumberFormat = NumberFormat(show: real -> string, parse: string -> Option<real>)

  /** x is written as one whitespace- and quote-free token that reads back
      as x: it survives the rounding the reader applies. */
  predicate RoundTrips(nf: NumberFormat, x: real) {
    var t := nf.show(x);
    |t| > 0 && NoSpace(t) && '"' !in t && nf.parse(t) == Some(x)
  }

  /** Counts are written as plain decimal integers, which float() reads
      back exactly. */
  ghost predicate CountsParse(nf: NumberFormat) {
    forall n: nat :: nf.parse(NatText(n)) == Some(n as real)
  }

  /** float(t) rounded; ValueError for text that is not a number. */
  function ParseNumber(t: string, nf: NumberFormat): (r: Result<real, Error>)
    ensures r.Ok? <==> nf.parse(t).Some?
    ensures r.Ok? ==> r.value == nf.parse(t).value
    ensures r.Err? ==> r.error == BadNumber(t)
  {
    match nf.parse(t)
    case None => Err(BadNumber(t))
    case Some(x) => Ok(x)
  }

  /** re.match(r'.+? = "(.*)"', l): the lazy key stops at the first ` = "`
      after at least one character, the greedy capture runs to the last
      quote of the first line; without such a quote no key length works. */
  function QuotedValue(l: string): (r: Option<string>)
    ensures r.Some? ==> '\n' !in r.value
  {
    var h := FirstLine(l);
    match FindFrom(h, " = \"", 1)
    case None => None
    case Some(k) =>
      match LastIndexOf(h, '"')
      case None => None
      case Some(q) => if q >= k + 4 then Some(h[k + 4..q]) else None
  }

  /** re.match(r'.+? = (.*)', l): everything after the first ` = ` that
      follows at least one character, up to the end of the first line. */
  function BareValue(l: string): (r: Option<string>)
    ensures r.Some? ==> '\n' !in r.value
  {
    var h := FirstLine(l);
    match FindFrom(h, " = ", 1)
    case None => None
    case Some(k) => Some(h[k + 3..])
  }

  /** parse_line: the stripped line is text when it holds a quote, else a
      number. The short format takes the line between its first and last
      characters; the long one takes the value after the key. A failed
      match (AttributeError in Python) is NoMatch. */
  function ParseLine(line: string, short: bool, nf: NumberFormat): (r: Result<Field, Error>)
    ensures r.Ok? ==> (r.value.Quoted? <==> '"' in Strip(line))
    ensures short && '"' in Strip(line) ==> r.Ok?
    ensures r.Ok? && r.value.Number? ==> exists t :: nf.parse(t) == Some(r.value.x)
  {
    ParseStripped(Strip(line), short, nf)
  }

  /** parse_line after its strip(). */
  function ParseStripped(l: string, short: bool, nf: NumberFormat): (r: Result<Field, Error>)
    ensures r.Ok? ==> (r.value.Quoted? <==> '"' in l)
    ensures short && '"' in l ==> r.Ok?
    ensures r.Ok? && r.value.Number? ==> exists t :: nf.parse(t) == Some(r.value.x)
  {
    if short then
      if '"' in l then Ok(Quoted(if |l| >= 2 then l[1..|l| - 1] else ""))
      else
        var x :- ParseNumber(l, nf);
        Ok(Number(x))
    else if '"' in l then
      match QuotedValue(l)
      case None => Err(NoMatch(l))
      case Some(v) => Ok(Quoted(v))
    else
      match BareValue(l)
      case None => Err(NoMatch(l))
      case Some(t) =>
        var x :- ParseNumber(t, nf);
        Ok(Number(x))
  }

  /** The characters `[\w ]` admits, narrowed to ASCII: letters, digits,
      `_` and the space. On text, Python's `\w` also takes every other
      Unicode letter and digit. */
  predicate IsWordChar(c: char) {
    ('a' <= c <= 'z') || ('A' <= c <= 'Z') || ('0' <= c <= '9') || c == '_' || c == ' '
  }

  /** The longest run of word characters at the start of s. */
  function WordRun(s: string): (r: string)
    ensures |r| <= |s| && r == s[..|r|]
    ensures forall k :: 0 <= k < |r| ==> IsWordChar(r[k])
    ensures |r| < |s| ==> !IsWordChar(s[|r|])
  {
    if |s| == 0 || !IsWordChar(s[0]) then "" else [s[0]] + WordRun(s[1..])
  }

  predicate StartsWith(s: string, p: string) {
    |p| <= |s| && s[..|p|] == p
  }

  /** re.match('File type = "([\w ]+)"', header): the greedy run of word
      characters right after the opening quote, which must be followed by
      the closing quote (a shorter run would be followed by a word
      character, not a quote). */
  function FileTypeToken(header: string): (r: Option<string>)
    ensures r.Some? ==> StartsWith(header, "File type = \"" + r.value + "\"")
    ensures r.Some? ==> |r.value| > 0 && forall k :: 0 <= k < |r.value| ==> IsWordChar(r.value[k])
  {
    if StartsWith(header, "File type = \"") then
      var w := WordRun(header[13..]);
      if |w| > 0 && 13 + |w| < |header| && header[13 + |w|] == '"' then
        assert header[..13 + |w| + 1] == "File type = \"" + w + "\"";
        Some(w)
      else None
    else None
  }

  /** parse_header: the file-type line must name an `ooTextFile` (`short`
      anywhere in it selects the short format), the next line's quoted
      value is the object class, and one more line is skipped. A bare
      number there reaches round(x, '') in Python, a TypeError. Returns
      the class, the format and the rest of the input. */
  function ParseHeader(src: string, nf: NumberFormat): (r: Result<(string, bool, string), Error>)
    ensures r.Ok? ==> |r.value.2| < |src|
  {
    var (h, r1) := ReadLine(src);
    match FileTypeToken(h)
    case None => Err(BadHeader)
    case Some(tok) =>
      if !StartsWith(tok, "ooTextFile") then Err(BadHeader)
      else
        var short := FindFrom(tok, "short", 0).Some?;
        var (l2, r2) := ReadLine(r1);
        var f :- ParseLine(l2, short, nf);
        match f
        case Number(x) => Err(NotAString(x))
        case Quoted(cls) => Ok((cls, short, ReadLine(r2).1))
  }

  // ---------------------------------------------------------------------
  // What the writers print, read back

  /** A key parse_line can read: it starts the stripped line, holds no
      `=` (so the first ` = ` follows it) and no quote or newline. */
  predicate PlainKey(key: string) {
    |key| > 0 && !IsSpace(key[0]) && '=' !in key && '"' !in key && '\n' !in key
  }

  /** The text print('<indent><key> = <t>') writes. */
  function BareLine(indent: string, key: string, t: string): string {
    Line(indent + key + " = " + t)
  }

  /** The text print('<indent><key> = "<v>"') writes. */
  function QuotedLine(indent: string, key: string, v: string): string {
    Line(QuotedText(indent, key, v))
  }

  function QuotedText(indent: string, key: string, v: string): string {
    indent + key + " = \"" + v + "\""
  }

  /** The regular expression finds the value right after a plain key. */
  lemma BareValueOf(key: string, t: string)
    requires PlainKey(key) && '\n' !in t
    ensures BareValue(key + " = " + t) == Some(t)
  {
    var core := key + " = " + t;
    FirstLineWhole(core);
    FindAfterKey(key, " = ", t);
    assert core[|key| + 3..] == t;
  }

  /** The greedy capture after a plain key runs to the closing quote. */
  lemma QuotedValueOf(key: string, v: string)
    requires PlainKey(key) && '\n' !in v
    ensures QuotedValue(key + " = \"" + v + "\"") == Some(v)
  {
    var core := key + " = \"" + v + "\"";
    FirstLineWhole(core);
    assert core == key + " = \"" + (v + "\"");
    FindAfterKey(key, " = \"", v + "\"");
    LastIndexOfLast(core, '"');
    assert core[|key| + 4..|core| - 1] == v;
  }

  lemma LastIndexOfLast(s: string, c: char)
    requires |s| > 0 && s[|s| - 1] == c
    ensures LastIndexOf(s, c) == Some(|s| - 1)
  {
  }

  /** strip() removes the indentation and the newline of a printed line. */
  lemma StripLine(indent: string, core: string)
    requires AllSpace(indent)
    requires |core| > 0 && !IsSpace(core[0]) && !IsSpace(core[|core| - 1])
    ensures Strip(Line(indent + core)) == core
  {
    assert Line(indent + core) == indent + core + "\n";
    StripPadded(indent, core, "\n");
  }

  /** What the regular expression sees of a long-format `key = t` line. */
  lemma BareCore(indent: string, key: string, t: string)
    requires AllSpace(indent) && PlainKey(key)
    requires |t| > 0 && NoSpace(t) && '"' !in t
    ensures var core := key + " = " + t;
      Strip(BareLine(indent, key, t)) == core && '"' !in core && BareValue(core) == Some(t)
  {
    var core := key + " = " + t;
    assert BareLine(indent, key, t) == Line(indent + core);
    assert core[0] == key[0] && core[|core| - 1] == t[|t| - 1];
    assert !IsSpace(t[|t| - 1]);
    StripLine(indent, core);
    assert '"' !in core by {
      assert '"' !in " = ";
    }
    assert '\n' !in t by {
      forall i | 0 <= i < |t| ensures t[i] != '\n' { assert !IsSpace(t[i]); }
    }
    BareValueOf(key, t);
  }

  /** A long-format line `key = t` reads back as the number t denotes. */
  lemma ParseLineBare(indent: string, key: string, t: string, nf: NumberFormat)
    requires AllSpace(indent) && PlainKey(key)
    requires |t| > 0 && NoSpace(t) && '"' !in t
    ensures nf.parse(t).Some? ==> ParseLine(BareLine(indent, key, t), false, nf) == Ok(Number(nf.parse(t).value))
    ensures nf.parse(t).None? ==> ParseLine(BareLine(indent, key, t), false, nf) == Err(BadNumber(t))
  {
    BareCore(indent, key, t);
    ParseBareStripped(key + " = " + t, t, nf);
  }

  lemma ParseBareStripped(l: string, t: string, nf: NumberFormat)
    requires '"' !in l && BareValue(l) == Some(t)
    ensures ParseStripped(l, false, nf) == if nf.parse(t).Some? then Ok(Number(nf.parse(t).value)) else Err(BadNumber(t))
  {
  }

  /** A long-format line `key = "v"` reads back as the text v, whatever
      quotes v holds, as long as it stays on one line. */
  lemma ParseLineQuoted(indent: string, key: string, v: string, nf: NumberFormat)
    requires AllSpace(indent) && PlainKey(key) && '\n' !in v
    ensures ParseLine(QuotedLine(indent, key, v), false, nf) == Ok(Quoted(v))
  {
    var core := key + " = \"" + v + "\"";
    assert QuotedLine(indent, key, v) == Line(indent + core);
    StripLine(indent, core);
    assert core[|core| - 1] == '"';
    QuotedValueOf(key, v);
  }

  /** A short-format line `"v"` reads back as the text v. */
  lemma ParseLineShortQuoted(v: string, nf: NumberFormat)
    ensures ParseLine("\"" + v + "\"\n", true, nf) == Ok(Quoted(v))
  {
    var core := "\"" + v + "\"";
    assert Strip("\"" + v + "\"\n") == core by {
      assert "\"" + v + "\"\n" == "" + core + "\n";
      StripPadded("", core, "\n");
    }
    assert core[0] == '"';
    assert core[1..|core| - 1] == v;
  }

  /** A short-format line holding only a number's text reads back as that
      number. */
  lemma ParseLineShortNumber(x: real, nf: NumberFormat)
    requires RoundTrips(nf, x)
    ensures ParseLine(nf.show(x) + "\n", true, nf) == Ok(Number(x))
  {
    var t := nf.show(x);
    assert Strip(t + "\n") == t by {
      assert t + "\n" == "" + t + "\n";
      assert !IsSpace(t[0]) && !IsSpace(t[|t| - 1]);
      StripPadded("", t, "\n");
    }
  }

  /** The long-format header every writer prints. */
  function HeaderText(cls: string): string {
    Line(FileTypeText) + QuotedLine("", "Object class", cls) + Line("")
  }

  const FileTypeText := "File type = \"ooTextFile\""

  lemma WordRunOf(w: string, rest: string)
    requires forall k :: 0 <= k < |w| ==> IsWordChar(w[k])
    requires |rest| > 0 && !IsWordChar(rest[0])
    ensures WordRun(w + rest) == w
  {
    if |w| > 0 {
      assert (w + rest)[1..] == w[1..] + rest;
      WordRunOf(w[1..], rest);
    } else {
      assert w + rest == rest;
    }
  }

  /** A token without an `s` does not mention `short`. */
  lemma NoShort(tok: string)
    requires 's' !in tok
    ensures FindFrom(tok, "short", 0).None?
  {
    forall i | 0 <= i ensures !OccursAt(tok, "short", i) {
      if i + 5 <= |tok| {
        assert tok[i] != 's';
        assert tok[i..i + 5][0] != "short"[0];
      }
    }
  }

  /** The file-type line every writer prints names the long format. */
  lemma FileTypeLine()
    ensures FileTypeToken(Line(FileTypeText)) == Some("ooTextFile")
    ensures FindFrom("ooTextFile", "short", 0).None?
    ensures StartsWith("ooTextFile", "ooTextFile")
  {
    var l1 := Line(FileTypeText);
    assert StartsWith(l1, "File type = \"");
    assert l1[13..] == "ooTextFile" + "\"\n";
    WordRunOf("ooTextFile", "\"\n");
    NoShort("ooTextFile");
  }

  /** parse_header's happy path, step by step. */
  lemma ParseHeaderSteps(src: string, nf: NumberFormat, r1: string, tok: string, l2: string, r2: string, cls: string)
    requires ReadLine(src).1 == r1 && FileTypeToken(ReadLine(src).0) == Some(tok)
    requires StartsWith(tok, "ooTextFile")
    requires ReadLine(r1) == (l2, r2)
    requires ParseLine(l2, FindFrom(tok, "short", 0).Some?, nf) == Ok(Quoted(cls))
    ensures ParseHeader(src, nf) == Ok((cls, FindFrom(tok, "short", 0).Some?, ReadLine(r2).1))
  {
  }

  /** The header splits into its three printed lines. */
  lemma HeaderLines(cls: string, rest: string)
    requires '\n' !in cls
    ensures var l2 := QuotedLine("", "Object class", cls);
      && ReadLine(HeaderText(cls) + rest) == (Line(FileTypeText), l2 + (Line("") + rest))
      && ReadLine(l2 + (Line("") + rest)) == (l2, Line("") + rest)
      && ReadLine(Line("") + rest).1 == rest
  {
    var l2 := QuotedLine("", "Object class", cls);
    var r2 := Line("") + rest;
    assert HeaderText(cls) + rest == Line(FileTypeText) + (l2 + r2);
    assert '\n' !in FileTypeText;
    ReadLineOfLine(FileTypeText, l2 + r2);
    assert '\n' !in QuotedText("", "Object class", cls);
    ReadLineOfLine(QuotedText("", "Object class", cls), r2);
    ReadLineOfLine("", rest);
  }

  /** The header's second key is a plain one. */
  lemma ObjectClassKey()
    ensures AllSpace("") && PlainKey("Object class")
  {
    var k := "Object class";
    assert forall i :: 0 <= i < |k| ==> k[i] != '=' && k[i] != '"' && k[i] != '\n';
  }

  /** The written header reads back: long format, the class as written,
      and the input positioned after the blank line. */
  lemma ParseHeaderRoundTrip(cls: string, rest: string, nf: NumberFormat)
    requires '\n' !in cls
    ensures ParseHeader(HeaderText(cls) + rest, nf) == Ok((cls, false, rest))
  {
    var l2 := QuotedLine("", "Object class", cls);
    HeaderLines(cls, rest);
    FileTypeLine();
    ObjectClassKey();
    ParseLineQuoted("", "Object class", cls, nf);
    ParseHeaderSteps(HeaderText(cls) + rest, nf, l2 + (Line("") + rest), "ooTextFile", l2, Line("") + rest, cls);
  }
}
