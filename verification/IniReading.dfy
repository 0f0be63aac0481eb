/** The lines the rewriter prints, read back by the parser. */
module IniReading {
  import opened Wrappers
  import opened IniText
  import opened IniParser
  import opened IniRewrite

  predicate ValidName(o: string) {
    o != [] && IsNameStart(o[0]) && (forall i | 0 <= i < |o| :: IsNameChar(o[i])) && Lower(o) == o
  }

  predicate Blank(s: string) {
    forall i | 0 <= i < |s| :: IsSpace(s[i])
  }

  lemma {:induction false} BlankGoes(s: string)
    requires Blank(s)
    ensures Rstrip(s) == "" && Lstrip(s) == ""
  {
    if s != [] {
      BlankGoes(s[1..]);
      BlankGoes(s[..|s| - 1]);
    }
  }

  lemma {:induction false} LstripBlank(s: string, t: string)
    requires Blank(s) && t != [] && !IsSpace(t[0])
    ensures Lstrip(s + t) == t
  {
    if s == [] {
      assert s + t == t;
    } else {
      assert (s + t)[1..] == s[1..] + t;
      LstripBlank(s[1..], t);
    }
  }

  lemma {:induction false} NameLengthOf(o: string, t: string)
    requires (forall i | 0 <= i < |o| :: IsNameChar(o[i])) && (t == [] || !IsNameChar(t[0]))
    ensures NameLength(o + t) == |o|
  {
    if o != [] {
      assert (o + t)[1..] == o[1..] + t;
      NameLengthOf(o[1..], t);
    } else {
      assert o + t == t;
    }
  }

  lemma FirstDelimiterAt(s: string, t: string)
    requires (forall i | 0 <= i < |s| :: !IsDelimiter(s[i])) && t != [] && IsDelimiter(t[0])
    ensures FirstDelimiter(s + t) == Some(|s|)
  {
    assert (s + t)[|s|] == t[0];
  }

  /** An option line taken apart: name, spaces, `=`, the rest. */
  function Line(o: string, gap: string, rest: string): string {
    o + gap + "=" + rest
  }

  lemma ActiveLine(o: string, gap: string, rest: string)
    requires ValidName(o) && Blank(gap)
    ensures ActiveOption(Line(o, gap, rest)) == Some(o)
  {
    var line := Line(o, gap, rest);
    assert line == o + (gap + ("=" + rest));
    assert !IsNameChar((gap + ("=" + rest))[0]);
    NameLengthOf(o, gap + ("=" + rest));
    assert line[|o|..] == gap + ("=" + rest);
    LstripBlank(gap, "=" + rest);
    assert line[..|o|] == o;
  }

  /** Every active line has this form. */
  lemma ActiveLineForm(line: string) returns (gap: string, rest: string)
    requires ActiveOption(line).Some?
    ensures Blank(gap) && line == Line(ActiveOption(line).value, gap, rest)
  {
    hide NameLength, Lstrip;
    var n := NameLength(line);
    var tail := line[n..];
    var after := Lstrip(tail);
    gap, rest := tail[..|tail| - |after|], after[1..];
    assert tail == gap + after;
    assert after == "=" + rest;
    Reassemble(line, n, gap, rest);
  }

  lemma Reassemble(line: string, n: nat, gap: string, rest: string)
    requires n <= |line| && line[n..] == gap + ("=" + rest)
    ensures line == Line(line[..n], gap, rest)
  {
    assert line == line[..n] + line[n..];
  }

  lemma AtTheMargin(line: string)
    requires line != [] && !IsSpace(line[0])
    ensures Lstrip(line) == line && Indent(line) == 0 && Strip(line) == Rstrip(line)
  {
  }

  lemma StrippedLine(o: string, gap: string, rest: string)
    requires o != [] && !IsSpace(o[0])
    ensures Indent(Line(o, gap, rest)) == 0
    ensures Strip(Line(o, gap, rest)) == Line(o, gap, Rstrip(rest))
  {
    assert Line(o, gap, rest)[0] == o[0];
    AtTheMargin(Line(o, gap, rest));
    RstripKeeps(o + gap + "=", rest);
  }

  lemma OptionLineParts(o: string, gap: string, rest: string)
    requires ValidName(o) && Blank(gap)
    ensures OptionLine(Line(o, gap, rest)) == Some((o, Strip(rest)))
  {
    var line, head := Line(o, gap, rest), o + gap;
    assert line == head + ("=" + rest);
    FirstDelimiterAt(head, "=" + rest);
    assert line[..|head|] == head && line[|head| + 1..] == rest;
    RstripKeeps(o, gap);
    BlankGoes(gap);
    assert o + "" == o;
  }

  lemma LineIsNoHeader(o: string, gap: string, rest: string)
    requires ValidName(o)
    ensures var line := Line(o, gap, rest); line != "" && !CommentStart(line) && SectionHeader(line).None?
  {
    assert Line(o, gap, rest)[0] == o[0];
  }

  /** Reading an option line opens a new option. */
  lemma ReadOptionLine(p: Parser, o: string, gap: string, rest: string)
    requires ValidName(o) && Blank(gap) && !p.failed
    ensures ReadLine(p, Line(o, gap, rest)) == NewOption(p, Some((o, Strip(Rstrip(rest)))), 0)
  {
    hide Rstrip, Lstrip, Strip, OptionLine, SectionHeader, NewOption, NewSection, Indent;
    StrippedLine(o, gap, rest);
    OptionLineParts(o, gap, Rstrip(rest));
    LineIsNoHeader(o, gap, Rstrip(rest));
  }

  /** The first printed line of a value. */
  lemma FirstPrintedLine(o: string, first: string) returns (rest: string)
    requires ValidName(o) && Stripped(first)
    ensures Rstrip(o + " = " + first) == Line(o, " ", rest) && Strip(Rstrip(rest)) == first
  {
    hide Lstrip, Rstrip, Strip, ValidName;
    rest := Rstrip(" " + first);
    Regrouped(o, first);
    RstripKeeps(o + " " + "=", " " + first);
    PaddedValue(first);
  }

  lemma Regrouped(o: string, first: string)
    ensures o + " = " + first == (o + " " + "=") + (" " + first)
  {
  }

  lemma PaddedValue(first: string)
    requires Stripped(first)
    ensures Strip(Rstrip(Rstrip(" " + first))) == first
  {
    hide Lstrip, Rstrip;
    if first == "" {
      BlankGoes(" ");
      BlankGoes("");
      assert " " + first == " ";
    } else {
      RstripKeeps(" " + first, "");
      BlankGoes("");
      assert (" " + first) + "" == " " + first;
      LstripBlank(" ", first);
      RstripKeeps(first, "");
      assert first + "" == first;
    }
  }

  /** The option just opened, with further lines appended to its value. */
  function Extended(p: Parser, more: seq<string>): Parser
    requires p.entries != []
  {
    var k := |p.entries| - 1;
    p.(entries := p.entries[k := p.entries[k].(lines := p.entries[k].lines + more)])
  }

  lemma ReadContinuation(p: Parser, part: string)
    requires !p.failed && p.optionOpen && p.indent == 0 && p.entries != []
    requires Stripped(part) && !CommentStart(part)
    ensures ReadLine(p, "  " + part) == Extended(p, [part])
  {
    hide Lstrip, Rstrip, NewOption, NewSection, OptionLine, SectionHeader;
    IndentedPart(part);
    hide Strip, Indent;
    assert Grow(p.entries, part) == Extended(p, [part]).entries;
  }

  lemma IndentedPart(part: string)
    requires Stripped(part)
    ensures Strip("  " + part) == part && (part != "" ==> Indent("  " + part) == 2)
  {
    if part == "" {
      BlankGoes("  ");
      assert "  " + part == "  ";
    } else {
      LstripBlank("  ", part);
      StripStripped(part);
    }
  }

  lemma {:induction false} ReadContinuations(p: Parser, parts: seq<string>)
    requires !p.failed && p.optionOpen && p.indent == 0 && p.entries != []
    requires forall i | 0 <= i < |parts| :: Stripped(parts[i]) && !CommentStart(parts[i])
    ensures ReadLines(p, Continuations(parts)) == Extended(p, parts)
  {
    hide ReadLine, ReadLines, Stripped, CommentStart;
    var lines := Continuations(parts);
    if parts == [] {
      ExtendedByNothing(p);
      ReadNothing(p);
      assert lines == [];
    } else {
      var front, last := parts[..|parts| - 1], parts[|parts| - 1];
      assert lines == Continuations(front) + ["  " + last];
      ReadContinuations(p, front);
      ReadAppend(p, Continuations(front), ["  " + last]);
      ReadContinuation(Extended(p, front), last);
      ReadOne(Extended(p, front), "  " + last);
      ExtendedTwice(p, front, last);
      assert front + [last] == parts;
    }
  }

  lemma ReadNothing(p: Parser)
    ensures ReadLines(p, []) == p
  {
  }

  lemma ExtendedByNothing(p: Parser)
    requires p.entries != []
    ensures Extended(p, []) == p
  {
    var k := |p.entries| - 1;
    assert p.entries[k].lines + [] == p.entries[k].lines;
    assert p.entries[k := p.entries[k]] == p.entries;
  }

  lemma ExtendedTwice(p: Parser, front: seq<string>, last: string)
    requires p.entries != []
    ensures Extended(Extended(p, front), [last]) == Extended(p, front + [last])
  {
    var k := |p.entries| - 1;
    assert p.entries[k].lines + front + [last] == p.entries[k].lines + (front + [last]);
  }

  lemma ReadOne(p: Parser, line: string)
    ensures ReadLines(p, [line]) == ReadLine(p, line)
  {
    assert [line][..0] == [];
  }

  lemma OpensEntry(p: Parser, o: string, first: string)
    requires !p.failed && p.cursect.Some? && !Has(p.entries, p.cursect.value, o)
    ensures NewOption(p, Some((o, first)), 0) ==
      p.(entries := p.entries + [Entry(p.cursect.value, o, [first])], optionOpen := true, indent := 0)
  {
  }

  lemma PrintedForm(o: string, value: string) returns (rest: string)
    requires ValidName(o) && Stripped(Split(value)[0])
    ensures FormatOption(o, value) == [Line(o, " ", rest)] + Continuations(Split(value)[1..])
    ensures Strip(Rstrip(rest)) == Split(value)[0]
  {
    rest := FirstPrintedLine(o, Split(value)[0]);
  }

  lemma ExtendedLast(p: Parser, e: Entry, more: seq<string>)
    requires p.entries != [] && p.entries[|p.entries| - 1] == e
    ensures Extended(p, more) == p.(entries := p.entries[..|p.entries| - 1] + [e.(lines := e.lines + more)])
  {
  }

  lemma ReadFirstPrinted(p: Parser, o: string, first: string, rest: string)
    requires ValidName(o) && Strip(Rstrip(rest)) == first
    requires !p.failed && p.cursect.Some? && !Has(p.entries, p.cursect.value, o)
    ensures ReadLines(p, [Line(o, " ", rest)]) ==
      p.(entries := p.entries + [Entry(p.cursect.value, o, [first])], optionOpen := true, indent := 0)
  {
    hide ReadLine, ReadLines, NewOption, Rstrip, Lstrip, Has;
    ReadOptionLine(p, o, " ", rest);
    ReadOne(p, Line(o, " ", rest));
    OpensEntry(p, o, first);
  }

  lemma ReadBlock(p: Parser, q: Parser, head: seq<string>, e: Entry, parts: seq<string>)
    requires ReadLines(p, head) == q && !q.failed && q.optionOpen && q.indent == 0
    requires q.entries == p.entries + [e]
    requires forall i | 0 <= i < |parts| :: Stripped(parts[i]) && !CommentStart(parts[i])
    ensures ReadLines(p, head + Continuations(parts)) == q.(entries := p.entries + [e.(lines := e.lines + parts)])
  {
    hide ReadLine;
    ReadAppend(p, head, Continuations(parts));
    ReadContinuations(q, parts);
    ExtendedLast(q, e, parts);
    assert q.entries[..|p.entries|] == p.entries;
  }

  lemma PrintedValue(value: string)
    requires Printable(value)
    ensures Rstrip(Join(Split(value))) == value
  {
    JoinSplit(value);
  }

  /** Printing an option and reading it back: one more entry, with the same value. */
  lemma PrintedOptionReadsBack(p: Parser, o: string, value: string)
    requires ValidName(o) && Printable(value)
    requires !p.failed && p.cursect.Some? && !Has(p.entries, p.cursect.value, o)
    ensures ReadLines(p, FormatOption(o, value)) ==
      p.(entries := p.entries + [Entry(p.cursect.value, o, Split(value))], optionOpen := true, indent := 0)
    ensures Entry(p.cursect.value, o, Split(value)).Value() == value
  {
    hide ReadLine, ReadLines, FormatOption, Rstrip, Join, Split, Has, ValidName, Strip;
    PrintedValue(value);
    var parts := Split(value);
    var rest := PrintedForm(o, value);
    ReadFirstPrinted(p, o, parts[0], rest);
    var e := Entry(p.cursect.value, o, [parts[0]]);
    var q := p.(entries := p.entries + [e], optionOpen := true, indent := 0);
    ReadBlock(p, q, [Line(o, " ", rest)], e, parts[1..]);
    assert [parts[0]] + parts[1..] == parts;
  }

  /** A line that starts with `#` means nothing to the parser. */
  lemma CommentIsIgnored(p: Parser, line: string)
    requires line != [] && line[0] == '#'
    ensures ReadLine(p, line) == p
  {
    assert Lstrip(line) == line;
    RstripKeeps(line[..1], line[1..]);
    assert line[..1] + line[1..] == line;
  }
}
