/** Python's `configparser`, as the rewriter uses it: strict, no interpolation, `[DEFAULT]` an ordinary section. */
module IniParser {
  import opened Wrappers
  import opened IniText

  /** An option as read: the stripped pieces of its value, one per line. */
  datatype Entry = Entry(section: string, option: string, lines: seq<string>) {
    function Value(): string {
      Rstrip(Join(lines))
    }
  }

  datatype Parser = Parser(
    sections: seq<string>,
    cursect: Option<string>,
    optionOpen: bool,
    indent: nat,
    entries: seq<Entry>,
    failed: bool)

  const START := Parser([], None, false, 0, [], false)

  // ---- one line -----------------------------------------------------------

  function LastIndexOf(s: string, c: char): (r: Option<nat>)
    ensures r.Some? ==> r.value < |s| && s[r.value] == c
    ensures r.None? <==> c !in s
  {
    if s == [] then None
    else if s[|s| - 1] == c then Some(|s| - 1)
    else LastIndexOf(s[..|s| - 1], c)
  }

  /** `\[(?P<header>.+)\]` at the start of the line. */
  function SectionHeader(clean: string): Option<string> {
    if clean == [] || clean[0] != '[' then None
    else
      var close := LastIndexOf(clean, ']');
      if close.Some? && close.value >= 2 then Some(clean[1..close.value]) else None
  }

  predicate IsDelimiter(c: char) {
    c == '=' || c == ':'
  }

  /** The first `=` or `:`. */
  function FirstDelimiter(s: string): (r: Option<nat>)
    ensures r.Some? ==> r.value < |s| && IsDelimiter(s[r.value]) && forall i | 0 <= i < r.value :: !IsDelimiter(s[i])
    ensures r.None? ==> forall i | 0 <= i < |s| :: !IsDelimiter(s[i])
  {
    if s == [] then None
    else if IsDelimiter(s[0]) then Some(0)
    else
      var rest := FirstDelimiter(s[1..]);
      if rest.Some? then Some(rest.value + 1) else None
  }

  function LowerChar(c: char): char {
    if 'A' <= c <= 'Z' then c - 'A' + 'a' else c
  }

  function Lower(s: string): (r: string)
    ensures |r| == |s| && forall i | 0 <= i < |s| :: r[i] == LowerChar(s[i])
  {
    seq(|s|, i requires 0 <= i < |s| => LowerChar(s[i]))
  }

  predicate Has(entries: seq<Entry>, section: string, option: string) {
    exists i :: 0 <= i < |entries| && entries[i].section == section && entries[i].option == option
  }

  /** The name and the first piece of the value on an option line; nothing when the line is not one. */
  function OptionLine(clean: string): Option<(string, string)> {
    var d := FirstDelimiter(clean);
    if d.None? then None
    else
      var name := Lower(Rstrip(clean[..d.value]));
      if name == "" then None else Some((name, Strip(clean[d.value + 1..])))
  }

  function Grow(entries: seq<Entry>, line: string): seq<Entry> {
    if entries == [] then [] else
      var last := entries[|entries| - 1];
      entries[|entries| - 1 := last.(lines := last.lines + [line])]
  }

  function NewSection(p: Parser, name: string, ind: nat): Parser {
    if name in p.sections then p.(failed := true)
    else p.(sections := p.sections + [name], cursect := Some(name), optionOpen := false, indent := ind)
  }

  function NewOption(p: Parser, o: Option<(string, string)>, ind: nat): Parser {
    if p.cursect.None? || o.None? || Has(p.entries, p.cursect.value, o.value.0) then p.(failed := true)
    else p.(entries := p.entries + [Entry(p.cursect.value, o.value.0, [o.value.1])], optionOpen := true, indent := ind)
  }

  /** Once reading has failed the rest of the file is of no interest. */
  function ReadLine(p: Parser, line: string): Parser {
    var clean := Strip(line);
    if p.failed || CommentStart(clean) then p
    else if clean == "" then
      if p.optionOpen then p.(entries := Grow(p.entries, "")) else p
    else if p.optionOpen && Indent(line) > p.indent then p.(entries := Grow(p.entries, clean))
    else if SectionHeader(clean).Some? then NewSection(p, SectionHeader(clean).value, Indent(line))
    else NewOption(p, OptionLine(clean), Indent(line))
  }

  function ReadLines(p: Parser, lines: seq<string>): Parser {
    if lines == [] then p else ReadLine(ReadLines(p, lines[..|lines| - 1]), lines[|lines| - 1])
  }

  lemma {:induction false} ReadAppend(p: Parser, a: seq<string>, b: seq<string>)
    ensures ReadLines(p, a + b) == ReadLines(ReadLines(p, a), b)
  {
    hide ReadLine;
    if b == [] {
      assert a + b == a;
    } else {
      var all := a + b;
      ReadAppend(p, a, b[..|b| - 1]);
      assert all[..|all| - 1] == a + b[..|b| - 1] && all[|all| - 1] == b[|b| - 1];
    }
  }

  /** `parse_ini_text` */
  method ParseIniText(text: string) returns (site: Outcome<seq<Entry>>)
    ensures site == Parsed(text)
  {
    hide ReadLine;
    var lines := SplitLines(text);
    var p := START;
    for i := 0 to |lines|
      invariant p == ReadLines(START, lines[..i])
    {
      assert lines[..i + 1][..i] == lines[..i];
      p := ReadLine(p, lines[i]);
    }
    assert lines[..|lines|] == lines;
    site := if p.failed then Raised(ConfigParserError) else Returned(p.entries);
  }

  function Parsed(text: string): Outcome<seq<Entry>> {
    var p := ReadLines(START, SplitLines(text));
    if p.failed then Raised(ConfigParserError) else Returned(p.entries)
  }

  // ---- what a parsed file looks like --------------------------------------

  /** No option appears twice in a section, and an open option is the last one read. */
  ghost predicate WellFormed(p: Parser) {
    && (forall i, j | 0 <= i < j < |p.entries| ::
          p.entries[i].section != p.entries[j].section || p.entries[i].option != p.entries[j].option)
    && (forall i | 0 <= i < |p.entries| :: ValueLines(p.entries[i].lines))
    && (p.optionOpen ==> p.cursect.Some? && p.entries != [])
  }

  lemma StripOneLine(line: string)
    requires OneLine(line)
    ensures OneLine(Strip(line))
  {
  }

  lemma GrowKeepsWellFormed(p: Parser, line: string)
    requires WellFormed(p) && p.optionOpen && OneLine(line) && Stripped(line) && !CommentStart(line)
    ensures WellFormed(p.(entries := Grow(p.entries, line)))
  {
    var last := p.entries[|p.entries| - 1];
    assert ValueLines(last.lines + [line]);
  }

  lemma OptionLineValue(clean: string)
    requires OneLine(clean) && OptionLine(clean).Some?
    ensures ValueLines([OptionLine(clean).value.1])
  {
    StripOneLine(clean[FirstDelimiter(clean).value + 1..]);
  }

  lemma AddedEntryIsNew(entries: seq<Entry>, e: Entry)
    requires forall i, j | 0 <= i < j < |entries| ::
        entries[i].section != entries[j].section || entries[i].option != entries[j].option
    requires !Has(entries, e.section, e.option)
    ensures var all := entries + [e];
      forall i, j | 0 <= i < j < |all| :: all[i].section != all[j].section || all[i].option != all[j].option
  {
  }

  lemma NewOptionKeepsWellFormed(p: Parser, o: Option<(string, string)>, ind: nat)
    requires WellFormed(p) && (o.Some? ==> ValueLines([o.value.1]))
    ensures WellFormed(NewOption(p, o, ind))
  {
    if p.cursect.Some? && o.Some? && !Has(p.entries, p.cursect.value, o.value.0) {
      AddedEntryIsNew(p.entries, Entry(p.cursect.value, o.value.0, [o.value.1]));
    }
  }

  lemma ReadLineKeepsWellFormed(p: Parser, line: string)
    requires WellFormed(p) && OneLine(line)
    ensures WellFormed(ReadLine(p, line))
  {
    hide Strip, Indent, SectionHeader, OptionLine, Grow, NewOption;
    var clean := Strip(line);
    StripOneLine(line);
    if p.failed || CommentStart(clean) {
    } else if clean == "" {
      if p.optionOpen {
        GrowKeepsWellFormed(p, "");
      }
    } else if p.optionOpen && Indent(line) > p.indent {
      GrowKeepsWellFormed(p, clean);
    } else if SectionHeader(clean).Some? {
    } else {
      if OptionLine(clean).Some? {
        OptionLineValue(clean);
      }
      NewOptionKeepsWellFormed(p, OptionLine(clean), Indent(line));
    }
  }

  lemma {:induction false} ReadLinesWellFormed(lines: seq<string>)
    requires AllLines(lines)
    ensures WellFormed(ReadLines(START, lines))
  {
    if lines != [] {
      ReadLinesWellFormed(lines[..|lines| - 1]);
      ReadLineKeepsWellFormed(ReadLines(START, lines[..|lines| - 1]), lines[|lines| - 1]);
    }
  }

  /** Every value of a parsed file can be written back, and no option is set twice in one section. */
  lemma ParsedIsPrintable(text: string)
    requires Parsed(text).Returned?
    ensures var site := Parsed(text).value;
      && (forall i | 0 <= i < |site| :: Printable(site[i].Value()))
      && (forall i, j | 0 <= i < j < |site| :: site[i].section != site[j].section || site[i].option != site[j].option)
  {
    ReadLinesWellFormed(SplitLines(text));
    var site := Parsed(text).value;
    forall i | 0 <= i < |site| ensures Printable(site[i].Value()) {
      CollectedIsPrintable(site[i].lines);
    }
  }
}
