/** One small site and example, worked through: the hypotheses of the theorems can be met together. */
module IniInstance {
  import opened Wrappers
  import opened IniText
  import opened IniParser
  import opened IniRewrite
  import opened IniReading
  import opened IniMeaning
  import opened IniTheorems
  import opened IniConverse

  /** An option `a` with default 1, and a required option `b`. */
  function SmallRules(): Rules {
    Rules(map["a" := Known("D", Some("1")), "b" := Known("D", None)], (x, y) => false)
  }

  const EXAMPLE := ["[D]", "b = x", "# a = 1"]
  const SITE := ["[D]", "a = 2"]

  lemma SmallNames()
    ensures ValidName("a") && ValidName("b") && ValidRules(SmallRules())
  {
    assert Lower("a") == "a" && Lower("b") == "b";
  }

  lemma HeaderText()
    ensures Strip("[D]") == "[D]" && Indent("[D]") == 0
  {
    AtTheMargin("[D]");
    StripStripped("[D]");
  }

  lemma HeaderName()
    ensures SectionHeader("[D]") == Some("D")
  {
    assert LastIndexOf("[D]", ']') == Some(2);
    assert "[D]"[1..2] == "D";
  }

  lemma HeaderIsNoDoc()
    ensures Documented(SmallRules(), "[D]").None? && !Indented("[D]")
  {
    assert NameLength("[D]") == 0;
  }

  lemma PlaceholderIsDoc()
    ensures ActiveOption("b = x") == Some("b") && Documented(SmallRules(), "b = x") == Some("b")
  {
    hide ActiveOption, NameLength, Lower;
    SmallNames();
    assert Line("b", " ", " x") == "b = x";
    ActiveLine("b", " ", " x");
  }

  lemma PlaceholderIsPlain()
    ensures PlaceholderValue("b = x") == "x" && FormatOption("b", "x") == ["b = x"]
  {
    hide OptionLine, Strip, Rstrip, Split, PlaceholderValue, Lower;
    SmallNames();
    assert Line("b", " ", " x") == "b = x";
    PlaceholderForm("b", " ", " x");
    StripSpace('x');
    assert " " + "x" == " x";
    OneCharacter('x');
    NothingToStrip("b = x");
    assert "b" + " = " + "x" == "b = x";
  }

  lemma NothingToStrip(s: string)
    requires s != [] && !IsSpace(s[|s| - 1])
    ensures Rstrip(s) == s
  {
  }

  lemma StripSpace(c: char)
    requires !IsSpace(c)
    ensures Strip(Rstrip(" " + [c])) == [c]
  {
    RstripKeeps(" " + [c], "");
    assert (" " + [c]) + "" == " " + [c];
    LstripBlank(" ", [c]);
    RstripKeeps([c], "");
    assert [c] + "" == [c];
  }

  lemma OneCharacter(c: char)
    requires c != '\n'
    ensures Split([c]) == [[c]]
  {
    SplitCons(c, "");
    assert [c] + "" == [c];
  }

  lemma HashIsNotActive(line: string)
    requires line != [] && line[0] == '#'
    ensures ActiveOption(line).None?
  {
    assert NameLength(line) == 0;
  }

  lemma CommentedLine()
    ensures ActiveOption("# a = 1").None? && Documented(SmallRules(), "# a = 1") == Some("a")
  {
    hide ActiveOption, NameLength, Lstrip, Lower;
    SmallNames();
    HashIsNotActive("# a = 1");
    assert "# a = 1"[1..] == " " + "a = 1";
    LstripBlank(" ", "a = 1");
    assert Line("a", " ", " 1") == "a = 1";
    ActiveLine("a", " ", " 1");
  }

  lemma ExampleIsTidy()
    ensures Tidy(SmallRules(), EXAMPLE) && PlainPlaceholders(SmallRules(), EXAMPLE)
    ensures DocumentedIn(SmallRules(), EXAMPLE, "a")
  {
    hide Documented, Strip, Indent, SectionHeader, ActiveOption, PlaceholderValue, FormatOption;
    var rules := SmallRules();
    HeaderText();
    HeaderName();
    HeaderIsNoDoc();
    PlaceholderIsDoc();
    PlaceholderIsPlain();
    CommentedLine();
    assert EXAMPLE[..2] == ["[D]", "b = x"] && ["[D]", "b = x"][..1] == ["[D]"] && ["[D]"][..0] == [];
    assert Outlined(rules, []) == TOP;
    assert Outlined(rules, ["[D]"]) == Follow(rules, TOP, "[D]");
    assert Outlined(rules, ["[D]", "b = x"]) == Follow(rules, Outlined(rules, ["[D]"]), "b = x");
    assert Outlined(rules, EXAMPLE) == Follow(rules, Outlined(rules, ["[D]", "b = x"]), "# a = 1");
    assert EXAMPLE[2] == "# a = 1";
  }

  lemma HeaderReads()
    ensures ReadLine(START, "[D]") == Parser(["D"], Some("D"), false, 0, [], false)
  {
    hide Strip, Indent, SectionHeader, OptionLine;
    HeaderText();
    HeaderName();
  }

  lemma SiteReads()
    ensures ReadLines(START, SITE) == Parser(["D"], Some("D"), true, 0, [Entry("D", "a", ["2"])], false)
  {
    hide ReadLine, ReadLines, Strip, Rstrip, NewOption;
    SmallNames();
    HeaderReads();
    var p := Parser(["D"], Some("D"), false, 0, [], false);
    ReadOne(START, "[D]");
    ReadAppend(START, ["[D]"], ["a = 2"]);
    ReadOne(p, "a = 2");
    assert SITE == ["[D]"] + ["a = 2"];
    assert Line("a", " ", " 2") == "a = 2";
    StripSpace('2');
    assert " " + "2" == " 2";
    ReadOptionLine(p, "a", " ", " 2");
    OpensEntry(p, "a", "2");
  }

  /**
   The site sets `a = 2` and lacks the required `b`: every hypothesis of the theorems holds, `a` keeps
   its value, and only `b` is reported missing.
   */
  lemma HypothesesAreMet()
    ensures var rules, siteText, exampleText := SmallRules(), Text(SITE), Text(EXAMPLE);
      && ValidRules(rules) && Tidy(rules, SplitLines(exampleText)) && PlainPlaceholders(rules, SplitLines(exampleText))
      && Parsed(siteText) == Returned([Entry("D", "a", ["2"])])
      && SetsOwn(rules, Parsed(siteText).value, "a") && DocumentedIn(rules, SplitLines(exampleText), "a")
  {
    hide ReadLines, Tidy, PlainPlaceholders, DocumentedIn, SplitLines, Text, ValidRules, Rstrip, Lstrip, Split;
    SmallNames();
    ExampleIsTidy();
    SiteReads();
    SplitLinesText(EXAMPLE);
    SplitLinesText(SITE);
    var site := [Entry("D", "a", ["2"])];
    assert site[..0] == [];
    RstripKeeps("2", "");
    StripStripped("2");
    assert "2" + "" == "2";
    assert Join(["2"]) == "2" && site[0].Value() == "2";
    assert SiteValue(SmallRules(), site, "a") == Some("2");
  }

  lemma TwoIsFresh()
    ensures Printable("2") && Settable(SmallRules())
  {
    var rules := SmallRules();
    OneCharacter('2');
    NothingToStrip("2");
    StripStripped("2");
    forall o | o in rules.registry ensures exists v :: Fresh(rules, o, v) {
      assert Fresh(rules, o, "2");
    }
  }

  lemma HeaderSetsNothing()
    ensures OptionLine("[D]").None?
  {
    hide FirstDelimiter, Lower, Rstrip, Strip;
    assert forall i | 0 <= i < 3 :: !IsDelimiter("[D]"[i]);
  }

  /** So can those of the converse. */
  lemma ConverseHypothesesAreMet()
    ensures Settable(SmallRules()) && NoSideDoor(SmallRules(), EXAMPLE)
  {
    hide Documented, OptionLine, Settable, Strip, ActiveOption, SectionHeader, Indent, CommentStart;
    var rules := SmallRules();
    TwoIsFresh();
    HeaderText();
    HeaderSetsNothing();
    PlaceholderIsDoc();
    CommentedLine();
    forall i | 0 <= i < |EXAMPLE| ensures !SideDoor(rules, EXAMPLE[i]) {
      assert EXAMPLE[i] == "[D]" || EXAMPLE[i] == "b = x" || EXAMPLE[i] == "# a = 1";
    }
  }

  // ---- a side door may be harmless ----------------------------------------

  const TWICE := ["[D]", "# a = 1", "[E]", "a: 1"]

  lemma SecondHeader()
    ensures Strip("[E]") == "[E]" && Indent("[E]") == 0 && SectionHeader("[E]") == Some("E")
    ensures Documented(SmallRules(), "[E]").None?
  {
    AtTheMargin("[E]");
    StripStripped("[E]");
    assert LastIndexOf("[E]", ']') == Some(2);
    assert "[E]"[1..2] == "E";
    assert NameLength("[E]") == 0;
  }

  lemma ColonText()
    ensures Strip("a: 1") == "a: 1" && Indent("a: 1") == 0
  {
    AtTheMargin("a: 1");
    StripStripped("a: 1");
  }

  lemma ColonOption()
    ensures OptionLine("a: 1") == Some(("a", "1"))
  {
    assert "a: 1" == "a" + ": 1";
    FirstDelimiterAt("a", ": 1");
    SmallNames();
    assert "a: 1"[..1] == "a" && "a: 1"[2..] == " 1";
    NothingToStrip("a");
    assert Lstrip(" 1") == "1" by {
      LstripBlank(" ", "1");
      assert " " + "1" == " 1";
    }
    NothingToStrip("1");
  }

  lemma ColonIsNoDoc()
    ensures Documented(SmallRules(), "a: 1").None?
  {
    assert "a: 1" == "a" + ": 1";
    NameLengthOf("a", ": 1");
    assert "a: 1"[1..] == ": 1";
  }

  lemma SecondReads(p: Parser)
    requires !p.failed && p.sections == ["D"] && (p.optionOpen ==> p.indent == 0)
    requires forall i | 0 <= i < |p.entries| :: p.entries[i].section == "D"
    ensures ReadLine(ReadLine(p, "[E]"), "a: 1") ==
      Parser(["D", "E"], Some("E"), true, 0, p.entries + [Entry("E", "a", ["1"])], false)
  {
    hide ReadLine, Has;
    var q := Parser(["D", "E"], Some("E"), false, 0, p.entries, false);
    SecondHeaderReads(p);
    ColonReads(q);
  }

  lemma SecondHeaderReads(p: Parser)
    requires !p.failed && p.sections == ["D"] && (p.optionOpen ==> p.indent == 0)
    ensures ReadLine(p, "[E]") == Parser(["D", "E"], Some("E"), false, 0, p.entries, false)
  {
    hide Strip, Indent, SectionHeader, OptionLine, Documented, NewOption, Grow, Has, SmallRules;
    SecondHeader();
    assert ReadLine(p, "[E]") == NewSection(p, "E", 0);
    assert "E" !in p.sections;
  }

  lemma ColonReads(q: Parser)
    requires q == Parser(["D", "E"], Some("E"), false, 0, q.entries, false)
    requires forall i | 0 <= i < |q.entries| :: q.entries[i].section == "D"
    ensures ReadLine(q, "a: 1") == Parser(["D", "E"], Some("E"), true, 0, q.entries + [Entry("E", "a", ["1"])], false)
  {
    hide Strip, Indent, SectionHeader, OptionLine;
    ColonText();
    ColonOption();
    ColonIsNoHeader();
  }

  lemma ColonIsNoHeader()
    ensures SectionHeader("a: 1").None? && !Indented("a: 1")
  {
  }

  /**
   The line `a: 1` in another section sets the registry option `a` behind the rewriter's back, so the
   example is untidy; but it repeats the default, and a value of the site's own stands in the registry
   section and wins. No site loses its value of `a`.
   */
  lemma SideDoorCanBeHarmless(values: map<string, string>)
    requires PrintableValues(values)
    ensures !Tidy(SmallRules(), TWICE) && !NoSideDoor(SmallRules(), TWICE)
    ensures var p := Output(SmallRules(), values, TWICE);
      && !p.failed
      && EffectiveValue(SmallRules(), p.entries, "a") ==
        Some(if Own(SmallRules(), values, "a") then values["a"] else "1")
  {
    hide ReadLine, ReadLines, Documented, Strip, Indent, SectionHeader, OptionLine, ActiveOption, Indented, Placement,
      FormatOption, Printable;
    var rules := SmallRules();
    SecondIsUntidy();
    SmallNames();
    HeaderReads();
    HeaderIsNoDoc();
    CommentedLine();
    SecondHeader();
    ColonIsNoDoc();
    var p := Parser(["D"], Some("D"), false, 0, [], false);
    ReadOne(START, "[D]");
    var e := ReadPlacement(p, rules, Lookup(values, "a"), "a", "# a = 1");
    var q := ReadLines(p, Placement(rules, Lookup(values, "a"), "a", "# a = 1"));
    SecondReads(q);
    TwiceOut(values);
    var placed := Placement(rules, Lookup(values, "a"), "a", "# a = 1");
    ReadAppend(START, ["[D]"] + placed, ["[E]", "a: 1"]);
    ReadAppend(START, ["[D]"], placed);
    ReadAppend(q, ["[E]"], ["a: 1"]);
    assert ["[E]"] + ["a: 1"] == ["[E]", "a: 1"];
    ReadOne(q, "[E]");
    ReadOne(ReadLine(q, "[E]"), "a: 1");
    TwiceValue(q.entries, if PlacedBy(rules, Lookup(values, "a"), "a", "# a = 1").Some? then Some(e) else None);
  }

  lemma SecondIsUntidy()
    ensures !Tidy(SmallRules(), TWICE) && !NoSideDoor(SmallRules(), TWICE)
  {
    hide Documented, Strip, Indent, SectionHeader, OptionLine, ActiveOption, Indented;
    var rules := SmallRules();
    ColonText();
    ColonOption();
    ColonIsNoDoc();
    assert TWICE[3] == "a: 1" && SideDoor(rules, TWICE[3]);
    var front := TWICE[..3];
    ColonIsNoHeader();
    UntidyStays(rules, Outlined(rules, front), "a: 1");
    if Outlined(rules, front).Outline? {
      SideDoorIsUntidy(rules, Outlined(rules, front), "a: 1");
    }
    assert Outlined(rules, TWICE) == Follow(rules, Outlined(rules, front), "a: 1");
  }

  lemma SideDoorIsUntidy(rules: Rules, t: Outline, line: string)
    requires SideDoor(rules, line) && Indent(line) == 0 && Strip(line) != "" && SectionHeader(Strip(line)).None?
    requires t.Outline? && !Indented(line)
    ensures Follow(rules, t, line).Untidy?
  {
    hide Documented, Strip, Indent, SectionHeader, OptionLine, Indented;
  }

  lemma NothingRewritten(values: map<string, string>)
    ensures Rewrite(SmallRules(), values, []) == EMPTY
  {
  }

  lemma TwiceOut(values: map<string, string>)
    ensures Rewrite(SmallRules(), values, TWICE).out ==
      ["[D]"] + Placement(SmallRules(), Lookup(values, "a"), "a", "# a = 1") + ["[E]", "a: 1"]
  {
    hide Rewrite, Documented, Placement, ActiveOption, Indented, Strip, Indent, SectionHeader;
    NothingRewritten(values);
    HeaderIsNoDoc();
    CommentedLine();
    SecondHeader();
    ColonIsNoDoc();
    var rules := SmallRules();
    OneMoreLine(rules, values, TWICE, 0);
    OneMoreLine(rules, values, TWICE, 1);
    OneMoreLine(rules, values, TWICE, 2);
    OneMoreLine(rules, values, TWICE, 3);
    assert TWICE[..0] == [] && TWICE[..4] == TWICE;
    var placed := Placement(rules, Lookup(values, "a"), "a", "# a = 1");
    assert Rewrite(rules, values, TWICE[..1]) == Walk(["[D]"], {}, false, []);
    assert Rewrite(rules, values, TWICE[..2]) == Walk(["[D]"] + placed, {"a"}, false, []);
    assert Rewrite(rules, values, TWICE[..3]) == Walk(["[D]"] + placed + ["[E]"], {"a"}, false, []);
    assert ["[D]"] + placed + ["[E]"] + ["a: 1"] == ["[D]"] + placed + ["[E]", "a: 1"];
  }

  lemma TwiceValue(entries: seq<Entry>, e: Option<Entry>)
    requires entries == if e.Some? then [e.value] else []
    requires e.Some? ==> e.value.section == "D" && e.value.option == "a"
    ensures SiteValue(SmallRules(), entries + [Entry("E", "a", ["1"])], "a") ==
        Some(if e.Some? then e.value.Value() else "1")
  {
    var last := Entry("E", "a", ["1"]);
    NothingToStrip("1");
    assert last.Value() == "1";
    var registry := SmallRules().registry;
    assert SiteValues(registry, []) == map[];
    assert (entries + [last])[..|entries|] == entries;
    if e.Some? {
      assert entries[..0] == [];
      assert SiteValues(registry, entries) == map["a" := e.value.Value()];
    }
  }
}
