/**
 What a rewrite changes, and that a second one changes nothing. For a tidy example the effective values
 that change are exactly those of options the site really sets and the example does not document.
 */
module IniTheorems {
  import opened Wrappers
  import opened IniText
  import opened IniParser
  import opened IniRewrite
  import opened IniReading
  import opened IniMeaning

  // ---- from entries to values ---------------------------------------------

  lemma SettledFront(front: seq<Entry>, e: Entry, o: string, expected: Option<string>)
    requires Settled(front + [e], o, expected)
    ensures e.option == o ==> expected == Some(e.Value()) && Settled(front, o, None)
    ensures e.option != o ==> Settled(front, o, expected)
  {
    var all := front + [e];
    assert all[|front|] == e;
    assert forall i | 0 <= i < |front| :: all[i] == front[i];
    if expected.Some? {
      var k :| SettledAt(all, o, expected.value, k);
      if k < |front| {
        assert SettledAt(front, o, expected.value, k);
      }
    }
  }

  lemma {:induction false} SettledSiteValue(rules: Rules, entries: seq<Entry>, o: string, expected: Option<string>)
    requires o in rules.registry && Settled(entries, o, expected)
    ensures SiteValue(rules, entries, o) == expected
  {
    if entries != [] {
      hide Settled;
      var front, e := entries[..|entries| - 1], entries[|entries| - 1];
      assert entries == front + [e];
      SettledFront(front, e, o, expected);
      SettledSiteValue(rules, front, o, if e.option == o then None else expected);
    }
  }

  lemma {:induction false} ValuesArePrintable(registry: map<string, Known>, site: seq<Entry>)
    requires forall i | 0 <= i < |site| :: Printable(site[i].Value())
    ensures PrintableValues(SiteValues(registry, site))
  {
    hide Printable;
    if site != [] {
      ValuesArePrintable(registry, site[..|site| - 1]);
    }
  }

  // ---- from lines to text -------------------------------------------------

  lemma NamesAreOneLine(o: string)
    requires ValidName(o)
    ensures OneLine(o)
  {
  }

  lemma FormattedLines(o: string, value: string)
    requires OneLine(o)
    ensures AllLines(FormatOption(o, value))
  {
    hide Split;
    var parts := Split(value);
    assert OneLine(o + " = " + parts[0]);
    assert forall i | 0 <= i < |parts| :: OneLine("  " + parts[i]);
  }

  lemma PlacementLines(rules: Rules, value: Option<string>, o: string, line: string)
    requires ValidRules(rules) && o in rules.registry && OneLine(line)
    ensures AllLines(Placement(rules, value, o, line))
  {
    hide FormatOption, ValidName, IsActive;
    NamesAreOneLine(o);
    if value.Some? {
      FormattedLines(o, value.value);
    }
  }

  lemma {:induction false} OutputLines(rules: Rules, values: map<string, string>, example: seq<string>)
    requires ValidRules(rules) && AllLines(example)
    ensures AllLines(Rewrite(rules, values, example).out)
  {
    hide Placement, Documented, Indented, IsActive;
    if example != [] {
      var front, last := example[..|example| - 1], example[|example| - 1];
      OutputLines(rules, values, front);
      if Documented(rules, last).Some? {
        DocumentedIsKnown(rules, last);
        PlacementLines(rules, Lookup(values, Documented(rules, last).value), Documented(rules, last).value, last);
      }
    }
  }

  /** Printing lines as a text and reading it. */
  lemma TextReads(lines: seq<string>)
    requires AllLines(lines)
    ensures ReadLines(START, SplitLines(Text(lines))) == ReadLines(START, lines)
  {
    hide ReadLine;
    if lines != [] {
      SplitLinesText(lines);
    } else {
      assert Text([]) == "\n" && Split("\n"[1..]) == [""] && SplitLines("\n") == [""];
      ReadOne(START, "");
      EmptyLineReads();
    }
  }

  lemma EmptyLineReads()
    ensures ReadLine(START, "") == START
  {
  }

  // ---- what was placed ----------------------------------------------------

  /** The line that placed an option, if any, and whether it was reported missing there. */
  lemma {:induction false} PlacedCases(rules: Rules, values: map<string, string>, example: seq<string>, o: string)
      returns (line: string)
    requires o in rules.registry
    ensures o in Rewrite(rules, values, example).done <==> DocumentedIn(rules, example, o)
    ensures !DocumentedIn(rules, example, o) ==> Placed(rules, values, example, o).None?
    ensures DocumentedIn(rules, example, o) ==>
      Documented(rules, line) == Some(o)
        && Placed(rules, values, example, o) == PlacedBy(rules, Lookup(values, o), o, line)
    ensures (rules.registry[o].section, o) in Rewrite(rules, values, example).missing <==>
      && DocumentedIn(rules, example, o)
      && rules.registry[o].default.None? && Lookup(values, o).None? && IsActive(line)
  {
    hide Documented, PlacedBy, Placement, Indented, IsActive;
    line := "";
    if example != [] {
      hide DocumentedIn;
      var front, last := example[..|example| - 1], example[|example| - 1];
      line := PlacedCases(rules, values, front, o);
      if Indented(last) {
        IndentedIsNoDoc(rules, last);
      }
      DocumentedOneMore(rules, front, last, o);
      assert example == front + [last];
      if o !in Rewrite(rules, values, front).done && Documented(rules, last) == Some(o) {
        line := last;
      }
    }
  }

  // ---- meaning ------------------------------------------------------------

  /** The site gives the option a value of its own. */
  predicate SetsOwn(rules: Rules, site: seq<Entry>, o: string)
    requires o in rules.registry
  {
    SiteValue(rules, site, o).Some?
      && !ValueEqualsDefault(rules, SiteValue(rules, site, o).value, rules.registry[o].default)
  }

  lemma OwnDiffersFromDefault(rules: Rules, value: string, default: string)
    requires Printable(value) && OneLine(default) && !ValueEqualsDefault(rules, value, Some(default))
    ensures value != default
  {
    if OneLine(value) {
      SplitPrepend(value, "");
      assert value + "" == value;
      assert Split(value)[0] == value;
      StripStripped(value);
    }
  }

  /** One option: its effective value changes, unreported, exactly when it is the site's own and undocumented. */
  lemma OptionMeaning(rules: Rules, site: seq<Entry>, after: seq<Entry>, example: seq<string>, o: string)
    requires ValidRules(rules) && o in rules.registry && PrintableValues(SiteValues(rules.registry, site))
    requires SiteValue(rules, after, o) == Placed(rules, SiteValues(rules.registry, site), example, o)
    ensures
      EffectiveValue(rules, site, o) != EffectiveValue(rules, after, o)
      && (rules.registry[o].section, o) !in Rewrite(rules, SiteValues(rules.registry, site), example).missing
      <==> SetsOwn(rules, site, o) && !DocumentedIn(rules, example, o)
  {
    hide SiteValues, Rewrite, Placed, Documented, DocumentedIn, PlaceholderValue, Strip, Printable, ValidName, IsActive;
    var values := SiteValues(rules.registry, site);
    var line := PlacedCases(rules, values, example, o);
    var default := rules.registry[o].default;
    if SetsOwn(rules, site, o) && default.Some? {
      OwnDiffersFromDefault(rules, values[o], default.value);
    }
  }

  /** The options whose effective value a rewrite onto a tidy example changes. */
  lemma ChangedExactly(rules: Rules, site: seq<Entry>, exampleText: string)
    requires ValidRules(rules) && Tidy(rules, SplitLines(exampleText))
    requires forall i | 0 <= i < |site| :: Printable(site[i].Value())
    ensures ChangedEffectiveValues(rules, site, Rewritten(rules, site, exampleText)) ==
      Returned(set o | o in rules.registry && SetsOwn(rules, site, o)
        && !DocumentedIn(rules, SplitLines(exampleText), o))
  {
    hide ReadLines, Rewrite, SiteValues, Placed, Documented, DocumentedIn, Outlined, Printable, ValidRules,
      EffectiveValue, SetsOwn, Text, SplitLines;
    var example, result := SplitLines(exampleText), Rewritten(rules, site, exampleText);
    var after := RewrittenReads(rules, site, exampleText);
    forall o | o in rules.registry
      ensures
        EffectiveValue(rules, site, o) != EffectiveValue(rules, after, o)
          && (rules.registry[o].section, o) !in result.missingRequired
        <==> SetsOwn(rules, site, o) && !DocumentedIn(rules, example, o)
    {
      ValuesArePrintable(rules.registry, site);
      OptionMeaning(rules, site, after, example, o);
    }
    var changed := set o | o in rules.registry &&
      EffectiveValue(rules, site, o) != EffectiveValue(rules, after, o)
        && (rules.registry[o].section, o) !in result.missingRequired;
    assert changed == set o | o in rules.registry && SetsOwn(rules, site, o) && !DocumentedIn(rules, example, o);
  }

  /** The rewritten text parses, and sets every registry option to exactly what the example's lines placed. */
  lemma RewrittenReads(rules: Rules, site: seq<Entry>, exampleText: string) returns (after: seq<Entry>)
    requires ValidRules(rules) && Tidy(rules, SplitLines(exampleText))
    requires forall i | 0 <= i < |site| :: Printable(site[i].Value())
    ensures Parsed(Rewritten(rules, site, exampleText).text) == Returned(after)
    ensures forall o | o in rules.registry ::
      SiteValue(rules, after, o) == Placed(rules, SiteValues(rules.registry, site), SplitLines(exampleText), o)
  {
    hide ReadLines, Rewrite, SiteValues, SiteValue, Placed, Documented, DocumentedIn, Outlined, Printable, ValidRules,
      Settled, Text, SplitLines;
    var example, values := SplitLines(exampleText), SiteValues(rules.registry, site);
    var out := Rewrite(rules, values, example).out;
    ValuesArePrintable(rules.registry, site);
    OutputLines(rules, values, example);
    TextReads(out);
    after := ReadLines(START, out).entries;
    OutputMeans(rules, values, example, "");
    forall o | o in rules.registry ensures SiteValue(rules, after, o) == Placed(rules, values, example, o) {
      OutputMeans(rules, values, example, o);
      SettledSiteValue(rules, after, o, Placed(rules, values, example, o));
    }
  }

  /** A site file rewritten onto a tidy example that documents what it sets keeps every effective value. */
  lemma RewritePreservesMeaning(rules: Rules, siteText: string, exampleText: string)
    requires ValidRules(rules) && Tidy(rules, SplitLines(exampleText)) && Parsed(siteText).Returned?
    requires forall o | o in rules.registry && SetsOwn(rules, Parsed(siteText).value, o) ::
        DocumentedIn(rules, SplitLines(exampleText), o)
    ensures var site := Parsed(siteText).value;
      ChangedEffectiveValues(rules, site, Rewritten(rules, site, exampleText)) == Returned({})
  {
    hide Parsed, ChangedEffectiveValues, SetsOwn, DocumentedIn, Tidy, ValidRules, Printable, SplitLines, Rewritten;
    ParsedIsPrintable(siteText);
    var site := Parsed(siteText).value;
    ChangedExactly(rules, site, exampleText);
    assert (set o | o in rules.registry && SetsOwn(rules, site, o)
      && !DocumentedIn(rules, SplitLines(exampleText), o)) == {};
  }

  // ---- settling after one application -------------------------------------

  /** Placeholders of required options are written the way the rewriter writes an option. */
  predicate PlainPlaceholders(rules: Rules, example: seq<string>) {
    forall i | 0 <= i < |example| :: PlainPlaceholder(rules, example[i])
  }

  predicate PlainPlaceholder(rules: Rules, line: string) {
    var doc := Documented(rules, line);
    doc.Some? && doc.value in rules.registry && rules.registry[doc.value].default.None? && IsActive(line) ==>
      FormatOption(doc.value, PlaceholderValue(line)) == [line]
  }

  /** Placing again the value that placing left gives the same lines. */
  lemma PlacedAgain(rules: Rules, value: Option<string>, o: string, line: string)
    requires Documented(rules, line) == Some(o) && o in rules.registry && PlainPlaceholder(rules, line)
    ensures Placement(rules, PlacedBy(rules, value, o, line), o, line) == Placement(rules, value, o, line)
  {
    hide Documented, PlaceholderValue, FormatOption, Strip, IsActive;
  }

  /** Once an option has been placed, the rest of the example does not change what it was set to. */
  lemma {:induction false} PlacedStays(rules: Rules, values: map<string, string>, example: seq<string>,
      n: nat, o: string)
    requires n <= |example| && o in rules.registry && o in Rewrite(rules, values, example[..n]).done
    ensures o in Rewrite(rules, values, example).done
    ensures Placed(rules, values, example, o) == Placed(rules, values, example[..n], o)
    decreases |example|
  {
    hide Documented, PlacedBy, Placement;
    if n == |example| {
      assert example[..n] == example;
    } else {
      var front := example[..|example| - 1];
      assert front[..n] == example[..n];
      PlacedStays(rules, values, front, n, o);
    }
  }

  /** Two sets of values of which the second is what the first left: the same lines come out. */
  lemma {:induction false} SameOutput(rules: Rules, values: map<string, string>, values2: map<string, string>,
      example: seq<string>, n: nat)
    requires n <= |example| && PlainPlaceholders(rules, example)
    requires forall o | o in rules.registry :: Lookup(values2, o) == Placed(rules, values, example, o)
    ensures var w, w2 := Rewrite(rules, values, example[..n]), Rewrite(rules, values2, example[..n]);
      w2.out == w.out && w2.done == w.done && w2.skipping == w.skipping
  {
    hide Documented, PlacedBy, Placement, Placed, PlainPlaceholder, Indented, IsActive;
    if n > 0 {
      SameOutput(rules, values, values2, example, n - 1);
      var front, line := example[..n - 1], example[n - 1];
      assert example[..n][..n - 1] == front && example[..n][n - 1] == line;
      var w := Rewrite(rules, values, front);
      if Documented(rules, line).Some? {
        DocumentedIsKnown(rules, line);
        var o := Documented(rules, line).value;
        if o !in w.done && !(w.skipping && Indented(line)) {
          JustPlaced(rules, values, example, n, o);
          PlacedAgain(rules, Lookup(values, o), o, line);
        }
      }
    }
  }

  lemma JustPlaced(rules: Rules, values: map<string, string>, example: seq<string>, n: nat, o: string)
    requires 0 < n <= |example| && o in rules.registry
    requires Documented(rules, example[n - 1]) == Some(o) && o !in Rewrite(rules, values, example[..n - 1]).done
    ensures Placed(rules, values, example, o) == PlacedBy(rules, Lookup(values, o), o, example[n - 1])
  {
    hide Documented, PlacedBy, Placement;
    var upTo := example[..n];
    assert upTo[..n - 1] == example[..n - 1] && upTo[n - 1] == example[n - 1];
    if Indented(example[n - 1]) {
      IndentedIsNoDoc(rules, example[n - 1]);
    }
    PlacedStays(rules, values, example, n, o);
  }

  /** Rewriting the rewritten file onto the same example yields the same text. */
  lemma RewriteIsIdempotent(rules: Rules, siteText: string, exampleText: string)
    requires ValidRules(rules) && Tidy(rules, SplitLines(exampleText))
    requires PlainPlaceholders(rules, SplitLines(exampleText))
    requires Parsed(siteText).Returned?
    ensures var once := Rewritten(rules, Parsed(siteText).value, exampleText);
      Parsed(once.text).Returned? && Rewritten(rules, Parsed(once.text).value, exampleText).text == once.text
  {
    hide Parsed, SiteValues, Placed, Tidy, PlainPlaceholders, ValidRules, Printable, SplitLines, Text, Rewrite;
    ParsedIsPrintable(siteText);
    var site, example := Parsed(siteText).value, SplitLines(exampleText);
    var once := Rewritten(rules, site, exampleText);
    var after := RewrittenReads(rules, site, exampleText);
    var values, values2 := SiteValues(rules.registry, site), SiteValues(rules.registry, after);
    forall o | o in rules.registry ensures Lookup(values2, o) == Placed(rules, values, example, o) {
      assert SiteValue(rules, after, o) == Lookup(values2, o);
    }
    SameOutput(rules, values, values2, example, |example|);
    assert example[..|example|] == example;
  }

  // ---- examples that are not tidy -----------------------------------------

  /** What a commented documentation line becomes once the site sets the option. */
  lemma FirstLineRewritten(rules: Rules, o: string, value: string, line: string)
    requires Documented(rules, line) == Some(o) && !IsActive(line)
    requires o in rules.registry && rules.registry[o].default.Some?
    requires !ValueEqualsDefault(rules, value, rules.registry[o].default)
    ensures var w := Rewrite(rules, map[o := value], [line]);
      w.out == [line] + FormatOption(o, value) && !w.skipping && w.done == {o}
  {
    hide Documented, FormatOption, ValueEqualsDefault, IsActive, Indented;
    assert [line][..0] == [] && Rewrite(rules, map[o := value], []) == EMPTY;
    assert Step(rules, map[o := value], EMPTY, line).out == [] + ([line] + FormatOption(o, value));
  }

  lemma {:induction false} FailedStays(p: Parser, lines: seq<string>)
    requires p.failed
    ensures ReadLines(p, lines) == p
  {
    if lines != [] {
      FailedStays(p, lines[..|lines| - 1]);
    }
  }

  lemma NoSectionToSetItIn(o: string, value: string)
    requires ValidName(o) && Printable(value)
    ensures ReadLines(START, FormatOption(o, value)).failed
  {
    hide ReadLine, ReadLines, FormatOption, Rstrip, Strip, Split, ValidName;
    var rest := PrintedForm(o, value);
    var first := Line(o, " ", rest);
    ReadOptionLine(START, o, " ", rest);
    ReadOne(START, first);
    ReadAppend(START, [first], Continuations(Split(value)[1..]));
    FailedStays(ReadLine(START, first), Continuations(Split(value)[1..]));
  }

  /**
   A registry option documented above the first header: once the site gives it a value of its own,
   the output cannot be read at all.
   */
  lemma DocumentedAboveTheFirstHeader(rules: Rules, o: string, value: string, line: string)
    requires ValidRules(rules) && Documented(rules, line) == Some(o)
    requires !IsActive(line) && o in rules.registry && rules.registry[o].default.Some?
    requires Printable(value) && !ValueEqualsDefault(rules, value, rules.registry[o].default)
    ensures !Tidy(rules, [line]) && ReadLines(START, Rewrite(rules, map[o := value], [line]).out).failed
  {
    hide ReadLine, ReadLines, Rewrite, FormatOption, Documented, Printable, ValidName, ValueEqualsDefault, IsActive;
    DocForms(rules, line);
    FirstLineRewritten(rules, o, value, line);
    ReadCommentFirst(START, line, FormatOption(o, value));
    NoSectionToSetItIn(o, value);
    assert [line][..0] == [] && Outlined(rules, []) == TOP;
    assert Outlined(rules, [line]) == Follow(rules, TOP, line);
  }

  /**
   An indented line below a commented default is copied below the site's own value, and joins it.
   */
  lemma StrayLineJoinsTheValue(rules: Rules, p: Parser, o: string, value: string, line: string, stray: string)
    requires ValidRules(rules) && Documented(rules, line) == Some(o)
    requires !IsActive(line) && o in rules.registry && rules.registry[o].default.Some?
    requires Printable(value) && !ValueEqualsDefault(rules, value, rules.registry[o].default)
    requires !p.failed && p.cursect.Some? && !Has(p.entries, p.cursect.value, o)
    requires stray != "" && Stripped(stray) && !CommentStart(stray)
    ensures var after := ReadLines(p, Rewrite(rules, map[o := value], [line, "  " + stray]).out);
      && !after.failed && |after.entries| == |p.entries| + 1
      && after.entries[|p.entries|].option == o && after.entries[|p.entries|].Value() == value + "\n" + stray
  {
    hide ReadLine, ReadLines, Rewrite, FormatOption, Documented, Rstrip, Join, Split, Has, ValidName, Printable,
      ValueEqualsDefault, IsActive;
    DocForms(rules, line);
    StrayLineCopied(rules, o, value, line, stray);
    var block := FormatOption(o, value);
    assert [line] + block + ["  " + stray] == [line] + (block + ["  " + stray]);
    ReadCommentFirst(p, line, block + ["  " + stray]);
    PrintedOptionReadsBack(p, o, value);
    ReadAppend(p, block, ["  " + stray]);
    var q := ReadLines(p, block);
    ReadOne(q, "  " + stray);
    ReadContinuation(q, stray);
    ExtendedLast(q, Entry(p.cursect.value, o, Split(value)), [stray]);
    StrayValue(value, stray);
  }

  /** What was joined to the value is printed with it, and joined again: every rewrite adds one more copy. */
  lemma StrayLineNeverSettles(rules: Rules, o: string, value: string, line: string, stray: string)
    requires Documented(rules, line) == Some(o) && !IsActive(line)
    requires o in rules.registry && rules.registry[o].default.Some?
    requires !ValueEqualsDefault(rules, value, rules.registry[o].default)
    requires !ValueEqualsDefault(rules, value + "\n" + stray, rules.registry[o].default)
    requires stray != "" && Stripped(stray) && OneLine(stray)
    ensures var example := [line, "  " + stray];
      Rewrite(rules, map[o := value + "\n" + stray], example).out ==
        Rewrite(rules, map[o := value], example).out + ["  " + stray]
  {
    hide Rewrite, Documented, ValueEqualsDefault, IsActive, Stripped, Split, Join;
    StrayLineCopied(rules, o, value, line, stray);
    StrayLineCopied(rules, o, value + "\n" + stray, line, stray);
    JoinSplit(value);
    JoinAppend(Split(value), stray);
    SplitJoin(Split(value) + [stray]);
    var parts := Split(value + "\n" + stray);
    assert parts[1..] == Split(value)[1..] + [stray];
    assert FormatOption(o, value + "\n" + stray) == FormatOption(o, value) + ["  " + stray];
  }

  lemma StrayLineCopied(rules: Rules, o: string, value: string, line: string, stray: string)
    requires Documented(rules, line) == Some(o) && !IsActive(line)
    requires o in rules.registry && rules.registry[o].default.Some?
    requires !ValueEqualsDefault(rules, value, rules.registry[o].default)
    requires stray != "" && Stripped(stray)
    ensures Rewrite(rules, map[o := value], [line, "  " + stray]).out == [line] + FormatOption(o, value) +
        ["  " + stray]
  {
    hide Documented, FormatOption, ValueEqualsDefault, IsActive, Strip, Placement;
    FirstLineRewritten(rules, o, value, line);
    IndentedPart(stray);
    IndentedIsNoDoc(rules, "  " + stray);
    assert [line, "  " + stray][..1] == [line];
  }

  lemma StrayValue(value: string, stray: string)
    requires Printable(value) && stray != "" && Stripped(stray)
    ensures Rstrip(Join(Split(value) + [stray])) == value + "\n" + stray
  {
    JoinSplit(value);
    JoinAppend(Split(value), stray);
    var s := value + "\n" + stray;
    assert s[|s| - 1] == stray[|stray| - 1];
  }
}
