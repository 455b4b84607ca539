/** `read_symbols` (fetch_and_insert_kbars.py): the symbol list is the file's lines, stripped,
    with the blank ones dropped. The file arrives as its decoded text, or as `None` when it
    cannot be opened. */
module SymbolSource {
  import opened Outcomes
  import opened Seqs
  import opened Text

  /** How many characters the first line break or character of `raw` takes: two for "\r\n". */
  function NewlineWidth(raw: string): (w: nat)
    requires raw != []
    ensures 1 <= w <= |raw|
    ensures w == 2 <==> raw[0] == '\r' && |raw| > 1 && raw[1] == '\n'
    ensures w != 2 ==> w == 1
  {
    if raw[0] == '\r' && |raw| > 1 && raw[1] == '\n' then 2 else 1
  }

  /** What text mode yields for those characters: "\n" for a line break, the character otherwise. */
  function Translated(c: char): string
  {
    if c == '\r' then "\n" else [c]
  }

  /** Python's text mode with universal newlines: "\r\n" and a lone "\r" both read as "\n". */
  function TranslateNewlines(raw: string): (text: string)
    ensures forall k :: 0 <= k < |text| ==> text[k] != '\r'
    decreases |raw|
  {
    if raw == [] then [] else Translated(raw[0]) + TranslateNewlines(raw[NewlineWidth(raw)..])
  }

  /** Text without a carriage return is read exactly as it is stored. */
  lemma {:induction false} TranslateKeepsPlainText(raw: string)
    requires forall k :: 0 <= k < |raw| ==> raw[k] != '\r'
    ensures TranslateNewlines(raw) == raw
    decreases |raw|
  {
    if raw != [] {
      TranslateKeepsPlainText(raw[1..]);
      assert raw == [raw[0]] + raw[1..];
    }
  }

  /** Translation works piece by piece, unless the cut separates the two halves of a "\r\n". */
  lemma {:induction false} TranslateAppend(a: string, b: string)
    requires a == [] || b == [] || a[|a| - 1] != '\r' || b[0] != '\n'
    ensures TranslateNewlines(a + b) == TranslateNewlines(a) + TranslateNewlines(b)
    decreases |a|
  {
    if a == [] {
      assert a + b == b;
    } else {
      var ab, w := a + b, NewlineWidth(a);
      assert ab[0] == a[0];
      assert |a| > 1 ==> ab[1] == a[1];
      assert NewlineWidth(ab) == w;
      assert ab[w..] == a[w..] + b;
      TranslateAppend(a[w..], b);
    }
  }

  /** Each "\r\n" is read as one "\n". */
  lemma TranslateCrLf(a: string, b: string)
    ensures TranslateNewlines(a + "\r\n" + b) == TranslateNewlines(a) + "\n" + TranslateNewlines(b)
  {
    assert a + "\r\n" + b == a + ("\r\n" + b);
    var crlf := "\r\n" + b;
    TranslateAppend(a, crlf);
    assert NewlineWidth(crlf) == 2 && crlf[2..] == b;
  }

  /** A "\r" not followed by "\n" is read as one "\n". */
  lemma TranslateLoneCr(a: string, b: string)
    requires b == [] || b[0] != '\n'
    ensures TranslateNewlines(a + "\r" + b) == TranslateNewlines(a) + "\n" + TranslateNewlines(b)
  {
    var rb := "\r" + b;
    assert a + "\r" + b == a + rb;
    TranslateLoneCrFirst(b);
    TranslateAppend(a, rb);
  }

  lemma TranslateLoneCrFirst(b: string)
    requires b == [] || b[0] != '\n'
    ensures TranslateNewlines("\r" + b) == "\n" + TranslateNewlines(b)
  {
    var rb := "\r" + b;
    assert |rb| > 1 ==> rb[1] == b[0];
    assert NewlineWidth(rb) == 1 && rb[1..] == b;
  }

  /** The length of the first line of `text`, its newline included when it has one. */
  function LineLength(text: string): (n: nat)
    requires text != []
    ensures 1 <= n <= |text|
    ensures forall k :: 0 <= k < n - 1 ==> text[k] != '\n'
    ensures n < |text| ==> text[n - 1] == '\n'
  {
    if text[0] == '\n' || |text| == 1 then 1 else 1 + LineLength(text[1..])
  }

  /** `for line in f`: the lines of `text`, each keeping its newline; the last may lack one. */
  function Lines(text: string): seq<string>
    decreases |text|
  {
    if text == [] then [] else var n := LineLength(text); [text[..n]] + Lines(text[n..])
  }

  function Concat(lines: seq<string>): string
  {
    if lines == [] then [] else lines[0] + Concat(lines[1..])
  }

  /** A line as iteration yields it: not empty, with a newline at most as its last character. */
  ghost predicate IsLine(line: string)
  {
    line != [] && forall k :: 0 <= k < |line| - 1 ==> line[k] != '\n'
  }

  /** Splitting into lines loses nothing and adds nothing: the lines put back together are the text. */
  lemma {:induction false} LinesRoundTrip(text: string)
    ensures Concat(Lines(text)) == text
    decreases |text|
  {
    if text != [] {
      var n := LineLength(text);
      LinesRoundTrip(text[n..]);
      assert text == text[..n] + text[n..];
    }
  }

  /** Every line is a proper line, and every line but the last ends with a newline. */
  lemma {:induction false} LinesShape(text: string)
    ensures forall k :: 0 <= k < |Lines(text)| ==> IsLine(Lines(text)[k])
    ensures forall k :: 0 <= k < |Lines(text)| - 1 ==> Lines(text)[k] != [] && Lines(text)[k][|Lines(text)[k]| - 1] == '\n'
    decreases |text|
  {
    if text != [] {
      var n := LineLength(text);
      LinesShape(text[n..]);
      var ls := Lines(text);
      assert ls == [text[..n]] + Lines(text[n..]);
      if |ls| > 1 {
        assert text[n..] != [];
      }
    }
  }

  predicate HasText(line: string)
  {
    Strip(line) != []
  }

  /** `[line.strip() for line in lines if line.strip()]` */
  function CleanSymbols(lines: seq<string>): (r: seq<string>)
    ensures |r| <= |lines|
    ensures forall k :: 0 <= k < |r| ==> r[k] != []
    ensures r == [] <==> forall line :: line in lines ==> !HasText(line)
  {
    FilterEmpty(lines, HasText);
    var kept := Filter(lines, HasText);
    assert forall k :: 0 <= k < |kept| ==> kept[k] in kept;
    seq(|kept|, k requires 0 <= k < |kept| => Strip(kept[k]))
  }

  /** `read_symbols(file_path)`: `None` when the file cannot be opened, which ends the run. */
  function ReadSymbols(file: Option<string>): (r: Option<seq<string>>)
    ensures r.Some? <==> file.Some?
    ensures r.Some? ==> |r.value| <= |Lines(TranslateNewlines(file.value))|
  {
    match file
    case None => None
    case Some(raw) => Some(CleanSymbols(Lines(TranslateNewlines(raw))))
  }

  /** The cleaned list holds exactly the stripped non-blank lines, in file order: the k-th symbol
      is the stripped line at the k-th position of an ascending run of line numbers, and every
      line left out is blank. */
  lemma CleanSymbolsSelects(lines: seq<string>)
    ensures var r, ix := CleanSymbols(lines), Positions(lines, HasText);
      && |ix| == |r|
      && Ascending(ix)
      && (forall k :: 0 <= k < |r| ==> ix[k] < |lines| && r[k] == Strip(lines[ix[k]]))
      && (forall i :: 0 <= i < |lines| && i !in ix ==> AllSpace(lines[i]))
  {
    FilterPositions(lines, HasText);
    forall i | 0 <= i < |lines| && i !in Positions(lines, HasText)
      ensures AllSpace(lines[i])
    {
      StripEmptyIffBlank(lines[i]);
    }
  }

  /** No symbol is empty or carries whitespace at either end. */
  lemma CleanSymbolsTrimmed(lines: seq<string>)
    ensures forall s :: s in CleanSymbols(lines) ==> s != [] && !IsSpace(s[0]) && !IsSpace(s[|s| - 1])
  {
    var kept := Filter(lines, HasText);
    forall s | s in CleanSymbols(lines)
      ensures s != [] && !IsSpace(s[0]) && !IsSpace(s[|s| - 1])
    {
      var k :| 0 <= k < |kept| && s == Strip(kept[k]);
      assert kept[k] in kept;
      StripSpec(kept[k]);
    }
  }

  /** The stripped text of a line never holds a newline: the only one a line can have is its last
      character, and stripping removes it. */
  lemma StripLineHasNoNewline(line: string)
    requires IsLine(line)
    ensures forall k :: 0 <= k < |Strip(line)| ==> Strip(line)[k] != '\n'
  {
    StripSpec(line);
    var s := Strip(line);
    var i, j :| 0 <= i <= j <= |line| && s == line[i..j] && AllSpace(line[..i]) && AllSpace(line[j..]);
    forall k | 0 <= k < |s| ensures s[k] != '\n' {
      assert s[k] == line[i + k];
      if i + k == |line| - 1 {
        assert k == |s| - 1;
      }
    }
  }

  /** Symbols cleaned from proper lines hold no newline. */
  lemma CleanSymbolsOneLine(lines: seq<string>)
    requires forall k :: 0 <= k < |lines| ==> IsLine(lines[k])
    ensures forall s :: s in CleanSymbols(lines) ==> forall k :: 0 <= k < |s| ==> s[k] != '\n'
  {
    CleanSymbolsSelects(lines);
    var r, ix := CleanSymbols(lines), Positions(lines, HasText);
    forall s | s in r
      ensures forall k :: 0 <= k < |s| ==> s[k] != '\n'
    {
      var m :| 0 <= m < |r| && r[m] == s;
      StripLineHasNoNewline(lines[ix[m]]);
    }
  }

  /** Each symbol read from a file is non-empty, has no surrounding whitespace and lies within one
      line of the file. */
  lemma ReadSymbolsWellFormed(raw: string)
    ensures ReadSymbols(Some(raw)).Some?
    ensures forall s :: s in ReadSymbols(Some(raw)).value ==>
      && s != [] && !IsSpace(s[0]) && !IsSpace(s[|s| - 1])
      && forall k :: 0 <= k < |s| ==> s[k] != '\n'
  {
    var lines := Lines(TranslateNewlines(raw));
    LinesShape(TranslateNewlines(raw));
    CleanSymbolsTrimmed(lines);
    CleanSymbolsOneLine(lines);
  }

}
