/**
 The rewrite preserves meaning. For a tidy example, the effective values that change are exactly those
 of options the site really sets and the example does not document.
 */
module IniMeaning {
  import opened Wrappers
  import opened IniText
  import opened IniParser
  import opened IniRewrite
  import opened IniReading

  // ---- tidy examples ------------------------------------------------------

  /**
   What the example's lines so far leave open: the sections and the options outside the registry, the
   indentation of such an option that may still be continued, the registry option documented last
   since then, all options documented, and whether an example value is being skipped.
   */
  datatype Outline =
    | Untidy
    | Outline(sections: seq<string>, section: Option<string>, foreign: set<(string, string)>,
              level: Option<nat>, placed: Option<string>, done: set<string>, skipping: bool)

  const TOP := Outline([], None, {}, None, None, {}, false)

  /**
   One line of a tidy example. Registry options are first documented below a header and set by nothing
   but active lines; below a documented option no indented line is left standing; sections and other
   options do not repeat, and every other line can be read.
   */
  function Follow(rules: Rules, t: Outline, line: string): Outline {
    if t.Untidy? || (t.skipping && Indented(line)) then t
    else if Documented(rules, line).Some? then FollowDoc(t, Documented(rules, line).value, IsActive(line))
    else FollowCopied(rules, t.(skipping := false), line)
  }

  function FollowDoc(t: Outline, o: string, active: bool): Outline
    requires t.Outline?
  {
    if o in t.done then t.(skipping := active)
    else if t.section.None? then Untidy
    else t.(done := t.done + {o}, placed := Some(o), skipping := active)
  }

  function FollowCopied(rules: Rules, t: Outline, line: string): Outline
    requires t.Outline?
  {
    var clean := Strip(line);
    if clean == "" || CommentStart(clean) then t
    else if t.placed.Some? && Indent(line) > 0 then Untidy
    else if t.placed.None? && t.level.Some? && Indent(line) > t.level.value then t
    else if SectionHeader(clean).Some? then FollowHeader(t, SectionHeader(clean).value)
    else FollowOption(rules, t, OptionLine(clean), Indent(line))
  }

  function FollowHeader(t: Outline, name: string): Outline
    requires t.Outline?
  {
    if name in t.sections then Untidy
    else t.(sections := t.sections + [name], section := Some(name), level := None, placed := None)
  }

  function FollowOption(rules: Rules, t: Outline, o: Option<(string, string)>, ind: nat): Outline
    requires t.Outline?
  {
    if t.section.None? || o.None? || o.value.0 in rules.registry
      || (t.section.value, o.value.0) in t.foreign then Untidy
    else t.(foreign := t.foreign + {(t.section.value, o.value.0)}, level := Some(ind), placed := None)
  }

  function Outlined(rules: Rules, example: seq<string>): Outline {
    if example == [] then TOP else Follow(rules, Outlined(rules, example[..|example| - 1]), example[|example| - 1])
  }

  predicate Tidy(rules: Rules, example: seq<string>) {
    Outlined(rules, example).Outline?
  }

  /** Registry options are lower-case identifiers with one-line defaults. */
  ghost predicate ValidRules(rules: Rules) {
    forall o | o in rules.registry ::
      ValidName(o) && (rules.registry[o].default.Some? ==> OneLine(rules.registry[o].default.value))
  }

  ghost predicate PrintableValues(values: map<string, string>) {
    forall o | o in values :: Printable(values[o])
  }

  // ---- the parser behind the rewriter -------------------------------------

  predicate EntryOk(rules: Rules, foreign: set<(string, string)>, done: set<string>, e: Entry) {
    e.lines != [] && if e.option in rules.registry then e.option in done else (e.section, e.option) in foreign
  }

  /** The site gives the option a value of its own. */
  predicate Own(rules: Rules, values: map<string, string>, o: string) {
    o in values && o in rules.registry && !ValueEqualsDefault(rules, values[o], rules.registry[o].default)
  }

  /** What the parser has open: the unknown option of the outline, or the site's own registry option. */
  predicate OpenAs(rules: Rules, values: map<string, string>, t: Outline, p: Parser)
    requires t.Outline? && (p.optionOpen ==> p.entries != [])
  {
    match t.placed
    case None =>
      && (p.optionOpen <==> t.level.Some?)
      && (p.optionOpen ==> p.indent == t.level.value && p.entries[|p.entries| - 1].option !in rules.registry)
    case Some(o) =>
      o in t.done && (Own(rules, values, o) ==> p.optionOpen && p.indent == 0 && p.entries[|p.entries| - 1].option == o)
  }

  /** The parser, having read the output so far, agrees with the outline of the example so far. */
  ghost predicate Sim(rules: Rules, values: map<string, string>, t: Outline, p: Parser) {
    && t.Outline? && !p.failed
    && p.sections == t.sections && p.cursect == t.section
    && (p.optionOpen ==> p.cursect.Some? && p.entries != [])
    && OpenAs(rules, values, t, p)
    && (forall i | 0 <= i < |p.entries| :: EntryOk(rules, t.foreign, t.done, p.entries[i]))
    && AllSet(p.entries, t.foreign)
  }

  /** Every one of these options is set. */
  ghost predicate AllSet(entries: seq<Entry>, foreign: set<(string, string)>) {
    forall f | f in foreign :: Has(entries, f.0, f.1)
  }

  lemma StaysSet(entries: seq<Entry>, entries': seq<Entry>, foreign: set<(string, string)>)
    requires AllSet(entries, foreign) && |entries| <= |entries'|
    requires forall i | 0 <= i < |entries| ::
        entries'[i].section == entries[i].section && entries'[i].option == entries[i].option
    ensures AllSet(entries', foreign)
  {
    forall f | f in foreign ensures Has(entries', f.0, f.1) {
      var i :| 0 <= i < |entries| && entries[i].section == f.0 && entries[i].option == f.1;
      assert entries'[i].section == f.0 && entries'[i].option == f.1;
    }
  }

  ghost predicate SettledAt(entries: seq<Entry>, o: string, v: string, k: int) {
    && 0 <= k < |entries| && entries[k].option == o && entries[k].Value() == v
    && forall i | 0 <= i < |entries| && i != k :: entries[i].option != o
  }

  /** The option is set nowhere, or in one place and to this value. */
  ghost predicate Settled(entries: seq<Entry>, o: string, expected: Option<string>) {
    match expected
    case None => forall i | 0 <= i < |entries| :: entries[i].option != o
    case Some(v) => exists k :: SettledAt(entries, o, v, k)
  }

  lemma GrowSettled(entries: seq<Entry>, line: string, o: string, expected: Option<string>)
    requires entries != [] && entries[|entries| - 1].lines != [] && Settled(entries, o, expected)
    requires entries[|entries| - 1].option != o || line == ""
    ensures Settled(Grow(entries, line), o, expected)
  {
    var grown := Grow(entries, line);
    if expected.Some? {
      var k :| SettledAt(entries, o, expected.value, k);
      if k == |entries| - 1 {
        TrailingBlank(entries[k].lines);
      }
      assert SettledAt(grown, o, expected.value, k);
    }
  }

  lemma AddSettled(entries: seq<Entry>, e: Entry, o: string, expected: Option<string>)
    requires Settled(entries, o, expected) && e.option != o
    ensures Settled(entries + [e], o, expected)
  {
    if expected.Some? {
      var k :| SettledAt(entries, o, expected.value, k);
      assert SettledAt(entries + [e], o, expected.value, k);
    }
  }

  lemma NewlySettled(entries: seq<Entry>, e: Entry)
    requires Settled(entries, e.option, None)
    ensures Settled(entries + [e], e.option, Some(e.Value()))
  {
    assert SettledAt(entries + [e], e.option, e.Value(), |entries|);
  }

  lemma GrowOk(rules: Rules, foreign: set<(string, string)>, done: set<string>, entries: seq<Entry>, line: string)
    requires entries != [] && forall i | 0 <= i < |entries| :: EntryOk(rules, foreign, done, entries[i])
    ensures var grown := Grow(entries, line);
      && |grown| == |entries| && grown[|grown| - 1].option == entries[|entries| - 1].option
      && forall i | 0 <= i < |grown| :: EntryOk(rules, foreign, done, grown[i])
  {
  }

  /** A header of the example. */
  lemma CopiedHeader(rules: Rules, values: map<string, string>, t: Outline, p: Parser, name: string, ind: nat)
    requires Sim(rules, values, t, p) && FollowHeader(t, name).Outline?
    ensures Sim(rules, values, FollowHeader(t, name), NewSection(p, name, ind))
    ensures NewSection(p, name, ind).entries == p.entries
  {
  }

  /** An option of the example that the registry does not know. */
  lemma CopiedOption(rules: Rules, values: map<string, string>, t: Outline, p: Parser,
                     x: Option<(string, string)>, ind: nat, o: string, expected: Option<string>)
    requires Sim(rules, values, t, p) && FollowOption(rules, t, x, ind).Outline?
    requires o in rules.registry ==> Settled(p.entries, o, expected)
    ensures Sim(rules, values, FollowOption(rules, t, x, ind), NewOption(p, x, ind))
    ensures o in rules.registry ==> Settled(NewOption(p, x, ind).entries, o, expected)
  {
    var e := Entry(p.cursect.value, x.value.0, [x.value.1]);
    forall i | 0 <= i < |p.entries| ensures !(p.entries[i].section == e.section && p.entries[i].option == e.option) {
      assert EntryOk(rules, t.foreign, t.done, p.entries[i]);
    }
    assert !Has(p.entries, e.section, e.option);
    StaysSet(p.entries, p.entries + [e], t.foreign);
    assert (p.entries + [e])[|p.entries|] == e;
    assert Has(p.entries + [e], e.section, e.option);
    if o in rules.registry {
      AddSettled(p.entries, e, o, expected);
    }
  }

  /** A blank line, or a continuation of an unknown option, goes to the option that is open. */
  lemma CopiedGrowth(rules: Rules, values: map<string, string>, t: Outline, p: Parser, line: string, o: string,
      expected: Option<string>)
    requires Sim(rules, values, t, p) && p.optionOpen
    requires line == "" || p.entries[|p.entries| - 1].option !in rules.registry
    requires o in rules.registry ==> Settled(p.entries, o, expected)
    ensures Sim(rules, values, t, p.(entries := Grow(p.entries, line)))
    ensures o in rules.registry ==> Settled(Grow(p.entries, line), o, expected)
  {
    assert EntryOk(rules, t.foreign, t.done, p.entries[|p.entries| - 1]);
    GrowOk(rules, t.foreign, t.done, p.entries, line);
    StaysSet(p.entries, Grow(p.entries, line), t.foreign);
    if o in rules.registry {
      GrowSettled(p.entries, line, o, expected);
    }
  }

  /** How the parser takes a text line that stands where the outline has nothing of the registry open above it. */
  lemma TextLine(rules: Rules, values: map<string, string>, t: Outline, p: Parser, line: string)
    requires Sim(rules, values, t, p) && Strip(line) != "" && !CommentStart(Strip(line))
    requires t.placed.None? || Indent(line) == 0
    ensures var clean := Strip(line);
      ReadLine(p, line) ==
        if t.placed.None? && t.level.Some? && Indent(line) > t.level.value then p.(entries := Grow(p.entries, clean))
        else if SectionHeader(clean).Some? then NewSection(p, SectionHeader(clean).value, Indent(line))
        else NewOption(p, OptionLine(clean), Indent(line))
  {
    hide Strip, OptionLine, SectionHeader, Indent, NewSection, NewOption, Grow;
  }

  /** A line of the example that documents nothing, copied. */
  lemma CopiedLine(rules: Rules, values: map<string, string>, t: Outline, p: Parser, line: string, o: string,
      expected: Option<string>)
    requires Sim(rules, values, t, p) && FollowCopied(rules, t, line).Outline?
    requires o in rules.registry ==> Settled(p.entries, o, expected)
    ensures Sim(rules, values, FollowCopied(rules, t, line), ReadLine(p, line))
    ensures o in rules.registry ==> Settled(ReadLine(p, line).entries, o, expected)
  {
    hide Strip, OptionLine, SectionHeader, Indent, FollowHeader, FollowOption, NewSection, NewOption, Grow,
      Settled, EntryOk;
    var clean := Strip(line);
    if clean == "" || CommentStart(clean) {
      if clean == "" && p.optionOpen {
        CopiedGrowth(rules, values, t, p, "", o, expected);
      }
    } else {
      TextLine(rules, values, t, p, line);
      if t.placed.None? && t.level.Some? && Indent(line) > t.level.value {
        CopiedGrowth(rules, values, t, p, clean, o, expected);
      } else if SectionHeader(clean).Some? {
        CopiedHeader(rules, values, t, p, SectionHeader(clean).value, Indent(line));
      } else {
        CopiedOption(rules, values, t, p, OptionLine(clean), Indent(line), o, expected);
      }
    }
  }

  lemma IndentedIsNoDoc(rules: Rules, line: string)
    requires Indented(line)
    ensures Documented(rules, line).None? && Indent(line) > 0
  {
    assert NameLength(line) == 0;
  }

  // ---- documented options -------------------------------------------------

  /** The value a kept placeholder line sets. */
  function PlaceholderValue(line: string): string {
    var o := OptionLine(Strip(line));
    if o.Some? then o.value.1 else ""
  }

  /** What the line that documents an option first leaves it set to. */
  function PlacedBy(rules: Rules, value: Option<string>, o: string, line: string): Option<string>
    requires o in rules.registry
  {
    var default := rules.registry[o].default;
    if value.Some? && !ValueEqualsDefault(rules, value.value, default) then value
    else if default.None? && IsActive(line) then Some(PlaceholderValue(line))
    else None
  }

  lemma DocForms(rules: Rules, line: string)
    requires Documented(rules, line).Some?
    ensures line != []
    ensures IsActive(line) ==> ActiveOption(line) == Documented(rules, line)
    ensures !IsActive(line) ==> line[0] == '#'
  {
  }

  lemma ReadComment(p: Parser, line: string)
    requires line != [] && line[0] == '#'
    ensures ReadLines(p, [line]) == p
  {
    CommentIsIgnored(p, line);
    ReadOne(p, line);
  }

  lemma ReadCommentFirst(p: Parser, line: string, more: seq<string>)
    requires line != [] && line[0] == '#'
    ensures ReadLines(p, [line] + more) == ReadLines(p, more)
  {
    ReadAppend(p, [line], more);
    ReadComment(p, line);
  }

  /** The value of a placeholder, whatever its spacing. */
  lemma PlaceholderForm(o: string, gap: string, rest: string)
    requires ValidName(o) && Blank(gap)
    ensures PlaceholderValue(Line(o, gap, rest)) == Strip(Rstrip(rest))
  {
    hide OptionLine, Strip, Rstrip, Line;
    StrippedLine(o, gap, rest);
    OptionLineParts(o, gap, Rstrip(rest));
  }

  lemma OnePiece(v: string)
    requires Stripped(v)
    ensures Rstrip(Join([v])) == v
  {
  }

  /** The placeholder of a missing required option is an ordinary option line. */
  lemma ReadPlaceholder(p: Parser, o: string, line: string)
    requires ValidName(o) && ActiveOption(line) == Some(o)
    requires !p.failed && p.cursect.Some? && !Has(p.entries, p.cursect.value, o)
    ensures ReadLines(p, [line]) ==
      p.(entries := p.entries + [Entry(p.cursect.value, o, [PlaceholderValue(line)])], optionOpen := true, indent := 0)
    ensures Entry(p.cursect.value, o, [PlaceholderValue(line)]).Value() == PlaceholderValue(line)
  {
    hide ReadLine, ReadLines, ActiveOption, OptionLine, PlaceholderValue, Strip, Rstrip, Join, Line, NewOption,
      Has, ValidName;
    var gap, rest := ActiveLineForm(line);
    ReadOptionLine(p, o, gap, rest);
    ReadOne(p, line);
    OpensEntry(p, o, Strip(Rstrip(rest)));
    PlaceholderForm(o, gap, rest);
    OnePiece(PlaceholderValue(line));
  }

  /** Reading what replaces a documented option: nothing, or one entry with the right value. */
  lemma ReadPlacement(p: Parser, rules: Rules, value: Option<string>, o: string, line: string) returns (e: Entry)
    requires ValidRules(rules) && Documented(rules, line) == Some(o) && o in rules.registry
    requires value.Some? ==> Printable(value.value)
    requires !p.failed && p.cursect.Some? && !Has(p.entries, p.cursect.value, o)
    ensures var placed := PlacedBy(rules, value, o, line);
      && (placed.None? ==> ReadLines(p, Placement(rules, value, o, line)) == p)
      && (placed.Some? ==>
            && e.section == p.cursect.value && e.option == o && e.lines != [] && e.Value() == placed.value
            && ReadLines(p, Placement(rules, value, o, line)) ==
              p.(entries := p.entries + [e], optionOpen := true, indent := 0))
  {
    hide ReadLine, ReadLines, FormatOption, Rstrip, Join, Split, Documented, ActiveOption, PlaceholderValue, Strip,
      Has, ValidName;
    DocForms(rules, line);
    var default := rules.registry[o].default;
    e := Entry(p.cursect.value, o, [""]);
    if default.None? && value.None? {
      if IsActive(line) {
        ReadPlaceholder(p, o, line);
        e := Entry(p.cursect.value, o, [PlaceholderValue(line)]);
      } else {
        ReadComment(p, line);
      }
    } else if default.None? {
      PrintedOptionReadsBack(p, o, value.value);
      e := Entry(p.cursect.value, o, Split(value.value));
    } else {
      var comment := CommentedDefault(rules, o, line);
      if value.None? || ValueEqualsDefault(rules, value.value, default) {
        ReadComment(p, comment);
      } else {
        ReadCommentFirst(p, comment, FormatOption(o, value.value));
        PrintedOptionReadsBack(p, o, value.value);
        e := Entry(p.cursect.value, o, Split(value.value));
      }
    }
  }

  // ---- the invariant of the rewrite ---------------------------------------

  lemma NotYetSet(rules: Rules, values: map<string, string>, t: Outline, p: Parser, x: string)
    requires Sim(rules, values, t, p) && x in rules.registry && x !in t.done
    ensures Settled(p.entries, x, None)
    ensures forall section :: !Has(p.entries, section, x)
  {
    forall i | 0 <= i < |p.entries| ensures p.entries[i].option != x {
      assert EntryOk(rules, t.foreign, t.done, p.entries[i]);
    }
  }

  lemma MoreDone(rules: Rules, foreign: set<(string, string)>, done: set<string>, p: Parser, x: string, e: Entry)
    requires forall i | 0 <= i < |p.entries| :: EntryOk(rules, foreign, done, p.entries[i])
    requires e.lines != [] && e.option == x && x in rules.registry
    ensures forall i | 0 <= i < |p.entries| :: EntryOk(rules, foreign, done + {x}, p.entries[i])
    ensures EntryOk(rules, foreign, done + {x}, e)
  {
  }

  /** The first line that documents an option. */
  lemma PlacedLine(rules: Rules, values: map<string, string>, t: Outline, p: Parser, x: string, line: string,
                   o: string, expected: Option<string>)
    requires ValidRules(rules) && PrintableValues(values)
    requires Sim(rules, values, t, p) && FollowDoc(t, x, IsActive(line)).Outline?
    requires Documented(rules, line) == Some(x) && x in rules.registry && x !in t.done
    requires o in rules.registry ==> Settled(p.entries, o, expected)
    ensures var q := ReadLines(p, Placement(rules, Lookup(values, x), x, line));
      && Sim(rules, values, FollowDoc(t, x, IsActive(line)), q)
      && (o in rules.registry ==>
        Settled(q.entries, o, if o == x then PlacedBy(rules, Lookup(values, x), x, line) else expected))
  {
    hide ReadLines, Placement, Documented, ActiveOption, PlaceholderValue, Strip, Settled, EntryOk, ValidName, Has,
      Printable, AllSet;
    NotYetSet(rules, values, t, p, x);
    var value := Lookup(values, x);
    var e := ReadPlacement(p, rules, value, x, line);
    if PlacedBy(rules, value, x, line).Some? {
      MoreDone(rules, t.foreign, t.done, p, x, e);
      StaysSet(p.entries, p.entries + [e], t.foreign);
      if o == x {
        NewlySettled(p.entries, e);
      } else if o in rules.registry {
        AddSettled(p.entries, e, o, expected);
      }
    } else {
      MoreDone(rules, t.foreign, t.done, p, x, Entry("", x, [""]));
    }
  }

  /** A further line that documents an option already placed: dropped when active, a comment otherwise. */
  lemma RepeatedLine(rules: Rules, p: Parser, line: string)
    requires Documented(rules, line).Some? && !IsActive(line)
    ensures ReadLines(p, [line]) == p
  {
    hide ReadLines;
    DocForms(rules, line);
    ReadComment(p, line);
  }

  function Lookup(values: map<string, string>, o: string): Option<string> {
    if o in values then Some(values[o]) else None
  }

  /** One line of the example and what the rewriter does with it, seen by the parser. */
  lemma StepKeepsMeaning(rules: Rules, values: map<string, string>, w: Walk, t: Outline, line: string, o: string,
      expected: Option<string>)
    requires ValidRules(rules) && PrintableValues(values)
    requires t.Outline? && w.done == t.done && w.skipping == t.skipping && Follow(rules, t, line).Outline?
    requires Sim(rules, values, t, ReadLines(START, w.out))
    requires o in rules.registry ==> Settled(ReadLines(START, w.out).entries, o, expected)
    ensures var w', t' := Step(rules, values, w, line), Follow(rules, t, line);
      && w'.done == t'.done && w'.skipping == t'.skipping
      && Sim(rules, values, t', ReadLines(START, w'.out))
      && (o in rules.registry ==>
            Settled(ReadLines(START, w'.out).entries, o,
                    if o !in w.done && Documented(rules, line) == Some(o)
                    then PlacedBy(rules, Lookup(values, o), o, line)
                    else expected))
  {
    hide ReadLine, ReadLines, Sim, Settled, FollowCopied, Placement, PlacedBy, Documented, ActiveOption, Indented,
      ValidRules, Printable;
    var p := ReadLines(START, w.out);
    var doc := Documented(rules, line);
    if Indented(line) {
      IndentedIsNoDoc(rules, line);
    }
    SkippingAside(rules, values, t, p);
    if w.skipping && Indented(line) {
    } else if doc.None? {
      CopiedLine(rules, values, t.(skipping := false), p, line, o, expected);
      CopyingDocumentsNothing(rules, t.(skipping := false), line);
      ReadAppend(START, w.out, [line]);
      ReadOne(p, line);
    } else {
      DocumentedIsKnown(rules, line);
      var x := doc.value;
      if x in w.done {
        if !IsActive(line) {
          RepeatedLine(rules, p, line);
        }
        ReadAppend(START, w.out, [line]);
      } else {
        PlacedLine(rules, values, t, p, x, line, o, expected);
        ReadAppend(START, w.out, Placement(rules, Lookup(values, x), x, line));
      }
    }
  }

  lemma SkippingAside(rules: Rules, values: map<string, string>, t: Outline, p: Parser)
    requires Sim(rules, values, t, p)
    ensures forall skipping :: Sim(rules, values, t.(skipping := skipping), p)
  {
  }

  lemma CopyingDocumentsNothing(rules: Rules, t: Outline, line: string)
    requires t.Outline? && FollowCopied(rules, t, line).Outline?
    ensures FollowCopied(rules, t, line).done == t.done && FollowCopied(rules, t, line).skipping == t.skipping
  {
    hide Strip, Indent, SectionHeader, OptionLine;
  }

  lemma DocumentedIsKnown(rules: Rules, line: string)
    requires Documented(rules, line).Some?
    ensures Documented(rules, line).value in rules.registry
  {
  }

  /** What the whole example leaves an option set to. */
  function Placed(rules: Rules, values: map<string, string>, example: seq<string>, o: string): Option<string>
    requires o in rules.registry
  {
    if example == [] then None
    else
      var front, last := example[..|example| - 1], example[|example| - 1];
      if o !in Rewrite(rules, values, front).done && Documented(rules, last) == Some(o)
      then PlacedBy(rules, Lookup(values, o), o, last)
      else Placed(rules, values, front, o)
  }

  predicate DocumentedIn(rules: Rules, example: seq<string>, o: string) {
    exists i :: 0 <= i < |example| && Documented(rules, example[i]) == Some(o)
  }

  lemma DocumentedOneMore(rules: Rules, front: seq<string>, last: string, o: string)
    ensures DocumentedIn(rules, front + [last], o) <==>
        DocumentedIn(rules, front, o) || Documented(rules, last) == Some(o)
  {
    hide Documented;
    var all := front + [last];
    if Documented(rules, last) == Some(o) {
      assert Documented(rules, all[|front|]) == Some(o);
    }
    if DocumentedIn(rules, front, o) {
      var i :| 0 <= i < |front| && Documented(rules, front[i]) == Some(o);
      assert Documented(rules, all[i]) == Some(o);
    }
  }

  /** Reading the output back: no error, and every option set to exactly what the example's lines placed. */
  lemma {:induction false} OutputMeans(rules: Rules, values: map<string, string>, example: seq<string>, o: string)
    requires ValidRules(rules) && PrintableValues(values) && Tidy(rules, example)
    ensures var w, t := Rewrite(rules, values, example), Outlined(rules, example);
      && w.done == t.done && w.skipping == t.skipping
      && Sim(rules, values, t, ReadLines(START, w.out))
      && (o in rules.registry ==> Settled(ReadLines(START, w.out).entries, o, Placed(rules, values, example, o)))
  {
    hide Step, Follow, Documented, PlacedBy, ReadLine;
    if example == [] {
    } else {
      hide Sim, Settled, ReadLines;
      var front, last := example[..|example| - 1], example[|example| - 1];
      UntidyStays(rules, Outlined(rules, front), last);
      OutputMeans(rules, values, front, o);
      var before := if o in rules.registry then Placed(rules, values, front, o) else None;
      StepKeepsMeaning(rules, values, Rewrite(rules, values, front), Outlined(rules, front), last, o, before);
    }
  }

  lemma UntidyStays(rules: Rules, t: Outline, line: string)
    ensures t.Untidy? ==> Follow(rules, t, line).Untidy?
  {
  }
}
