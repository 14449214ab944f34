/**
 * The region lookup table (LUT) of an adult brain atlas: integer region id to
 * display name, a built-in default, dict.update-style merging, the "Region <id>"
 * fallback for ids it does not know, and the parser of ITK-SNAP label files
 * whose entries can be merged into it.
 */
module RegionCatalog {
  import opened Wrappers
  import opened Text

  /**
   * A stand-in for the built-in table: the background entry 0, the first
   * named regions and the five reserved "unknown" ids 900-904.
   */
  const DefaultRegionLut: map<int, string> := map[
    0 := "Clear Label",
    1 := "A (anterior thalamic nucleus)",
    2 := "AC (anterior cerebellar tract)",
    3 := "ALLN (anterior lateral line nerves)",
    4 := "AON (anterior octaval nucleus)",
    5 := "APN (accessory pretectal nucleus)",
    900 := "UnkD (unknown diencephalon)",
    901 := "UnkMS (unknown mesencephalon)",
    902 := "UnkR (unkonwn rhombencephalon)",
    903 := "UnkSC (unknown spinal cord)",
    904 := "UnkVT (unknown ventral telencephalon)"
  ]

  /** The default table names the background 0 and the reserved "unknown" ids such as 904. */
  lemma DefaultLookupKnown()
    ensures LookupName(DefaultRegionLut, 0) == "Clear Label"
    ensures LookupName(DefaultRegionLut, 904) == "UnkVT (unknown ventral telencephalon)"
  {
  }

  /** Ids 199 and 905 lie just past the default table's ranges 0-198 and 900-904 and fall back to "Region <id>". */
  lemma DefaultLookupFallback()
    ensures LookupName(DefaultRegionLut, 199) == "Region 199"
    ensures LookupName(DefaultRegionLut, 905) == "Region 905"
  {
    assert 199 !in DefaultRegionLut && 905 !in DefaultRegionLut;
    assert NatToString(19) == "19";
    assert IntToString(199) == "199";
    assert NatToString(90) == "90";
    assert IntToString(905) == "905";
  }


  /** The table after dict.update(entries): every supplied entry wins, every other entry stays. */
  function Merge(lut: map<int, string>, entries: map<int, string>): (r: map<int, string>)
    ensures r.Keys == lut.Keys + entries.Keys
    ensures forall k :: k in entries ==> r[k] == entries[k]
    ensures forall k :: k in lut && k !in entries ==> r[k] == lut[k]
  {
    lut + entries
  }

  /** The display name of a region: its table entry, else "Region <id>". */
  function LookupName(lut: map<int, string>, id: int): string {
    if id in lut then lut[id] else "Region " + IntToString(id)
  }

  /**
   * A known region is shown by its table entry; an unknown one by a name that
   * is "Region " followed by the printed id, so the id can be read back from it.
   */
  lemma LookupNameFallback(lut: map<int, string>, id: int)
    ensures id in lut ==> LookupName(lut, id) == lut[id]
    ensures id !in lut ==> |LookupName(lut, id)| > 7 && LookupName(lut, id)[..7] == "Region "
    ensures id !in lut ==> ParseInt(LookupName(lut, id)[7..]) == Some(id)
  {
    if id !in lut {
      IntToStringPlain(id);
      ParseIntToString(id);
      assert LookupName(lut, id)[7..] == IntToString(id);
    }
  }

  // ---------------------------------------------------------------------------
  // ITK-SNAP label files

  /**
   * What the loader takes from one line: None for a blank line, a '#' comment,
   * a line without '"', or a line whose first word before the quote is missing
   * or not an integer; otherwise the id and the stripped text between the first
   * quote and the next one (or the end of the line).
   */
  function ParseLabelLine(line: string): (r: Option<(int, string)>)
    ensures Strip(line) == [] || Strip(line)[0] == '#' || '"' !in Strip(line) ==> r == None
  {
    var s := Strip(line);
    if s == [] || s[0] == '#' || '"' !in s then None
    else
      var left := BeforeQuote(s);
      var name := Strip(BeforeQuote(s[|left| + 1..]));
      match FirstWord(Strip(left))
      case None => None
      case Some(token) =>
        match ParseInt(token)
        case None => None
        case Some(id) => Some((id, name))
  }

  /**
   * An entry's id is the integer value of the first word before the first
   * quote, and its name holds no quote and no whitespace at either end.
   */
  lemma ParseLabelLineEntry(line: string)
    requires ParseLabelLine(line).Some?
    ensures var word := FirstWord(Strip(BeforeQuote(Strip(line))));
      word.Some? && ParseInt(word.value) == Some(ParseLabelLine(line).value.0)
    ensures var name := ParseLabelLine(line).value.1;
      '"' !in name && (name != [] ==> !IsSpace(name[0]) && !IsSpace(name[|name| - 1]))
  {
    var s := Strip(line);
    var left := BeforeQuote(s);
    StripTrimmed(BeforeQuote(s[|left| + 1..]));
  }

  function LabelEntry(line: string, keepZero: bool): Option<(int, string)> {
    match ParseLabelLine(line)
    case None => None
    case Some((id, name)) => if id == 0 && !keepZero then None else Some((id, name))
  }

  /** A table built from entries in order, a later entry for an id replacing an earlier one. */
  function BuildLut(entries: seq<Option<(int, string)>>): map<int, string> {
    if entries == [] then map[]
    else
      var lut := BuildLut(entries[..|entries| - 1]);
      match entries[|entries| - 1]
      case None => lut
      case Some((id, name)) => lut[id := name]
  }

  /** Entry i of entries is one for id. */
  predicate EntryFor(entries: seq<Option<(int, string)>>, i: int, id: int) {
    0 <= i < |entries| && entries[i].Some? && entries[i].value.0 == id
  }

  /** An id is in the built table exactly when some entry is one for it. */
  lemma {:induction false} BuildLutKeys(entries: seq<Option<(int, string)>>, id: int)
    ensures id in BuildLut(entries) <==> exists i :: EntryFor(entries, i, id)
  {
    if entries != [] {
      var n := |entries| - 1;
      var init := entries[..n];
      BuildLutKeys(init, id);
      assert forall i :: EntryFor(init, i, id) ==> EntryFor(entries, i, id);
      if EntryFor(entries, n, id) {
        assert BuildLut(entries) == BuildLut(init)[id := entries[n].value.1];
      } else {
        assert id in BuildLut(entries) <==> id in BuildLut(init);
        if exists i :: EntryFor(entries, i, id) {
          var i :| EntryFor(entries, i, id);
          assert EntryFor(init, i, id);
        }
      }
    }
  }

  /** The last entry for an id decides its name. */
  lemma {:induction false} BuildLutLastWins(entries: seq<Option<(int, string)>>, i: int)
    requires 0 <= i < |entries| && entries[i].Some?
    requires forall j :: i < j < |entries| ==> !EntryFor(entries, j, entries[i].value.0)
    ensures entries[i].value.0 in BuildLut(entries)
    ensures BuildLut(entries)[entries[i].value.0] == entries[i].value.1
  {
    var n := |entries| - 1;
    if i < n {
      var init := entries[..n];
      assert init[i] == entries[i];
      forall j | i < j < |init|
        ensures !EntryFor(init, j, init[i].value.0)
      {
        assert init[j] == entries[j];
        assert !EntryFor(entries, j, entries[i].value.0);
      }
      BuildLutLastWins(init, i);
      assert !EntryFor(entries, n, entries[i].value.0);
    }
  }

  /** The entries the lines of a label file contribute, in file order. */
  function LineEntries(lines: seq<string>, keepZero: bool): seq<Option<(int, string)>> {
    seq(|lines|, i requires 0 <= i < |lines| => LabelEntry(lines[i], keepZero))
  }

  /** The table the loader builds from the lines of a label file, first line to last. */
  function ItkSnapLut(lines: seq<string>, keepZero: bool): (lut: map<int, string>)
    ensures keepZero || 0 !in lut
  {
    var es := LineEntries(lines, keepZero);
    BuildLutKeys(es, 0);
    BuildLut(es)
  }

  /** Line i of lines contributes an entry for id. */
  predicate EntryAt(lines: seq<string>, keepZero: bool, i: int, id: int) {
    0 <= i < |lines| && LabelEntry(lines[i], keepZero).Some? && LabelEntry(lines[i], keepZero).value.0 == id
  }

  /** An id is in the loaded table exactly when some line contributes an entry for it. */
  lemma ItkSnapLutKeys(lines: seq<string>, keepZero: bool, id: int)
    ensures id in ItkSnapLut(lines, keepZero) <==> exists i :: EntryAt(lines, keepZero, i, id)
  {
    var es := LineEntries(lines, keepZero);
    BuildLutKeys(es, id);
    assert forall i :: EntryFor(es, i, id) <==> EntryAt(lines, keepZero, i, id);
  }

  /** The last line that contributes an entry for an id decides its name. */
  lemma ItkSnapLutLaterWins(lines: seq<string>, keepZero: bool, i: int)
    requires 0 <= i < |lines| && LabelEntry(lines[i], keepZero).Some?
    requires forall j :: i < j < |lines| ==> !EntryAt(lines, keepZero, j, LabelEntry(lines[i], keepZero).value.0)
    ensures LabelEntry(lines[i], keepZero).value.0 in ItkSnapLut(lines, keepZero)
    ensures ItkSnapLut(lines, keepZero)[LabelEntry(lines[i], keepZero).value.0] == LabelEntry(lines[i], keepZero).value.1
  {
    var es := LineEntries(lines, keepZero);
    assert forall j :: i < j < |es| ==> !EntryFor(es, j, es[i].value.0) by {
      forall j | i < j < |es| ensures !EntryFor(es, j, es[i].value.0) {
        assert !EntryAt(lines, keepZero, j, LabelEntry(lines[i], keepZero).value.0);
      }
    }
    BuildLutLastWins(es, i);
  }

  /** Reading one more line extends the table by that line's entry, as the loader's loop does. */
  lemma ItkSnapLutStep(lines: seq<string>, keepZero: bool, i: int)
    requires 0 <= i < |lines|
    ensures ItkSnapLut(lines[..i + 1], keepZero) ==
      match LabelEntry(lines[i], keepZero)
      case None => ItkSnapLut(lines[..i], keepZero)
      case Some((id, name)) => ItkSnapLut(lines[..i], keepZero)[id := name]
  {
    var es := LineEntries(lines[..i + 1], keepZero);
    assert es[..i] == LineEntries(lines[..i], keepZero);
  }

  /** A label-file line: the index, the colour and visibility columns, then the quoted label. */
  function FormatLabelLine(id: int, columns: string, name: string): string {
    IntToString(id) + " " + columns + "\"" + name + "\""
  }

  lemma {:induction false} BeforeQuoteOf(a: string, b: string)
    requires '"' !in a
    ensures BeforeQuote(a + "\"" + b) == a
  {
    if a != [] {
      assert (a + "\"" + b)[1..] == a[1..] + "\"" + b;
      BeforeQuoteOf(a[1..], b);
    }
  }

  lemma {:induction false} TakeWordOf(w: string, t: string)
    requires forall i :: 0 <= i < |w| ==> !IsSpace(w[i])
    requires |t| >= |w| && t[..|w|] == w
    requires |t| == |w| || IsSpace(t[|w|])
    ensures TakeWord(t) == w
  {
    if w != [] {
      assert t[0] == w[0];
      assert t[1..][..|w| - 1] == w[1..];
      TakeWordOf(w[1..], t[1..]);
    }
  }

  lemma StripPlain(s: string)
    requires |s| > 0 && !IsSpace(s[0]) && !IsSpace(s[|s| - 1])
    ensures Strip(s) == s
  {
  }

  /** The first word of "w rest", stripped, is w when w is a word. */
  lemma FirstWordOf(w: string, rest: string)
    requires |w| > 0 && forall i :: 0 <= i < |w| ==> !IsSpace(w[i])
    ensures FirstWord(Strip(w + " " + rest)) == Some(w)
  {
    var left := w + " " + rest;
    assert left[0] == w[0];
    assert TrimStart(left) == left;
    var t := TrimEnd(left);
    assert !IsSpace(left[|w| - 1]) by { assert left[|w| - 1] == w[|w| - 1]; }
    assert |t| >= |w|;
    assert t[..|w|] == left[..|w|] == w;
    assert t[0] == w[0];
    assert TrimStart(t) == t;
    assert |t| > |w| ==> t[|w|] == left[|w|] == ' ';
    TakeWordOf(w, t);
  }

  lemma NoQuoteInLeft(id: int, columns: string)
    requires '"' !in columns
    ensures '"' !in IntToString(id) + " " + columns
  {
    var digits := IntToString(id);
    IntToStringPlain(id);
    var left := digits + " " + columns;
    forall k | 0 <= k < |left| ensures left[k] != '"' {
      if k < |digits| { assert left[k] == digits[k]; }
      else if k > |digits| { assert left[k] == columns[k - |digits| - 1]; }
    }
  }

  /** The first word before the quote of a formatted line is the printed id, which parses back. */
  lemma FormattedLineId(id: int, columns: string)
    ensures FirstWord(Strip(IntToString(id) + " " + columns)) == Some(IntToString(id))
    ensures ParseInt(IntToString(id)) == Some(id)
  {
    IntToStringPlain(id);
    FirstWordOf(IntToString(id), columns);
    ParseIntToString(id);
  }

  /** A line that is left, a quote, then rest, where left holds no quote, splits at that quote. */
  lemma QuoteSplit(s: string, left: string, rest: string)
    requires s == left + "\"" + rest && '"' !in left
    ensures '"' in s && BeforeQuote(s) == left && |left| < |s| && s[|left| + 1..] == rest
  {
    assert s[|left|] == '"';
    BeforeQuoteOf(left, rest);
  }

  /** Text without a quote followed by a quote or by the end: element 0 of its split('"') is that text. */
  lemma NameIsSecondPart(q: string, rest: string)
    requires '"' !in q && (rest == [] || rest[0] == '"')
    ensures BeforeQuote(q + rest) == q
  {
    if rest == [] {
      assert q + rest == q;
    } else {
      assert q + rest == q + "\"" + rest[1..];
      BeforeQuoteOf(q, rest[1..]);
    }
  }

  /** ParseLabelLine in terms of the stripped line, the text before its first quote and the text after. */
  lemma ParseLabelLineParts(line: string, s: string, left: string, after: string, name: string)
    requires Strip(line) == s && '"' in s
    requires BeforeQuote(s) == left && |left| < |s| && s[|left| + 1..] == after
    requires Strip(BeforeQuote(after)) == name
    ensures ParseLabelLine(line).Some? <==>
      (s[0] != '#' && FirstWord(Strip(left)).Some? && ParseInt(FirstWord(Strip(left)).value).Some?)
    ensures ParseLabelLine(line).Some? ==>
      ParseLabelLine(line) == Some((ParseInt(FirstWord(Strip(left)).value).value, name))
  {
  }

  /**
   * Any stripped line left '"' q rest, where left and q hold no quote and rest
   * is empty or starts with the closing quote: the line yields an entry exactly
   * when it is not a comment and the first word of left is an integer, and the
   * entry is (that integer, q stripped).
   */
  lemma ParseLabelLineSplit(line: string, left: string, q: string, rest: string)
    requires Strip(line) == left + "\"" + q + rest
    requires '"' !in left && '"' !in q
    requires rest == [] || rest[0] == '"'
    ensures ParseLabelLine(line).Some? <==>
      (Strip(line)[0] != '#' && FirstWord(Strip(left)).Some? && ParseInt(FirstWord(Strip(left)).value).Some?)
    ensures ParseLabelLine(line).Some? ==>
      ParseLabelLine(line) == Some((ParseInt(FirstWord(Strip(left)).value).value, Strip(q)))
  {
    var s := Strip(line);
    var after := q + rest;
    assert s == left + "\"" + after;
    QuoteSplit(s, left, after);
    NameIsSecondPart(q, rest);
    ParseLabelLineParts(line, s, left, after, Strip(q));
  }

  /** A formatted line followed by more text, regrouped around its first and second quote. */
  lemma QuotedRegroup(s: string, core: string, left: string, name: string, t: string)
    requires core == left + "\"" + name + "\"" && s == core + t
    ensures s == left + "\"" + name + ("\"" + t)
    ensures |left| > 0 ==> s[0] == left[0]
  {
  }

  /**
   * Parsing a label line as ITK-SNAP writes it, `<id> <columns> "<name>"`,
   * indented by any whitespace and followed by any text, gives back its index
   * and its name stripped.
   */
  lemma ParseFormattedLine(indent: string, id: int, columns: string, name: string, tail: string)
    requires forall i :: 0 <= i < |indent| ==> IsSpace(indent[i])
    requires '"' !in columns && '"' !in name
    ensures ParseLabelLine(indent + FormatLabelLine(id, columns, name) + tail) == Some((id, Strip(name)))
  {
    var digits := IntToString(id);
    var left := digits + " " + columns;
    var core := FormatLabelLine(id, columns, name);
    var line := indent + core + tail;
    var rest := "\"" + TrimEnd(tail);
    IntToStringPlain(id);
    assert core[0] == left[0] == digits[0];
    assert core[|core| - 1] == '"';
    StripFramed(line, indent, core, tail);
    var stripped := Strip(line);
    QuotedRegroup(stripped, core, left, name, TrimEnd(tail));
    NoQuoteInLeft(id, columns);
    FormattedLineId(id, columns);
    ParseLabelLineSplit(line, left, name, rest);
  }

  /** ITK-SNAP's colour, opacity and visibility columns of a sample line. */
  const SampleColumns: string := "  255    0    0        1  1  1    "

  /** The sample line's columns and label hold no quote. */
  lemma SampleNoQuotes()
    ensures '"' !in SampleColumns && '"' !in "Label 1"
  {
    var name := "Label 1";
    assert forall i :: 0 <= i < |SampleColumns| ==> SampleColumns[i] in " 0125";
    assert forall i :: 0 <= i < |name| ==> name[i] in "Label 1";
  }

  /** The sample line's indent is whitespace and its label is already stripped. */
  lemma SampleIndentAndName()
    ensures forall i :: 0 <= i < |"    "| ==> IsSpace("    "[i])
    ensures Strip("Label 1") == "Label 1"
  {
    var indent := "    ";
    forall i | 0 <= i < |indent|
      ensures IsSpace(indent[i])
    {
      assert indent[i] == ' ';
    }
    var name := "Label 1";
    assert name[0] == 'L' && name[|name| - 1] == '1';
    StripPlain(name);
  }


  /** A line as ITK-SNAP writes it, indented columns then the quoted label, yields that label. */
  lemma ParseItkSnapSample()
    ensures ParseLabelLine("    " + FormatLabelLine(1, SampleColumns, "Label 1") + "\n") == Some((1, "Label 1"))
  {
    SampleNoQuotes();
    SampleIndentAndName();
    ParseFormattedLine("    ", 1, SampleColumns, "Label 1", "\n");
  }



}
