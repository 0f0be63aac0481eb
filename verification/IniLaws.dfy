/**
 What the ini reader and the rewriter promise, said of texts and entries alone: what each kind of line
 means, which entries are dropped and reported, what each line of the example becomes, and when a site's
 value counts as its own.
 */
module IniLaws {
  import opened Wrappers
  import opened IniText
  import opened IniParser
  import opened IniRewrite
  import opened IniReading
  import opened IniMeaning
  import opened IniTheorems

  // ---- lines of an ini file -----------------------------------------------

  /** Only white space at either end is stripped, and all of it. */
  lemma StripIff(s: string) returns (before: string, after: string)
    ensures Blank(before) && Blank(after) && s == before + Strip(s) + after
    ensures Strip(s) == "" || (!IsSpace(Strip(s)[0]) && !IsSpace(Strip(s)[|Strip(s)| - 1]))
    ensures |before| == Indent(s)
  {
    hide Lstrip, Rstrip;
    var l := Lstrip(s);
    var r := Rstrip(l);
    before, after := s[..|s| - |l|], l[|r|..];
    assert l == r + after && s == before + l;
    assert Strip(s) == r && before + (r + after) == before + r + after;
  }

  /** A line whose first character that is not blank is `#` or `;` says nothing. */
  lemma CommentsSayNothing(p: Parser, blanks: string, rest: string)
    requires Blank(blanks)
    ensures ReadLine(p, blanks + ("#" + rest)) == p && ReadLine(p, blanks + (";" + rest)) == p
  {
    CommentText(blanks, "#" + rest);
    CommentText(blanks, ";" + rest);
  }

  lemma CommentText(blanks: string, text: string)
    requires Blank(blanks) && text != [] && (text[0] == '#' || text[0] == ';')
    ensures CommentStart(Strip(blanks + text))
  {
    hide Lstrip, Rstrip;
    LstripBlank(blanks, text);
    RstripKeeps(text[..1], text[1..]);
    assert text[..1] + text[1..] == text;
  }

  /** Every other line with something on it does: it continues a value, starts a section or an option, or fails. */
  lemma OtherLinesSaySomething(p: Parser, line: string)
    requires !p.failed && Strip(line) != "" && Strip(line)[0] != '#' && Strip(line)[0] != ';'
    requires p.optionOpen ==> p.entries != []
    ensures ReadLine(p, line) != p
  {
    hide Strip, Indent, SectionHeader, OptionLine, Has;
    var clean := Strip(line);
    if p.optionOpen && Indent(line) > p.indent {
      var last := p.entries[|p.entries| - 1];
      assert |last.lines + [clean]| != |last.lines|;
      assert Grow(p.entries, clean)[|p.entries| - 1] != last;
    } else if SectionHeader(clean).Some? {
      var name := SectionHeader(clean).value;
      if name !in p.sections {
        assert |p.sections + [name]| != |p.sections|;
      }
    } else {
      var o := OptionLine(clean);
      if p.cursect.Some? && o.Some? {
        assert |p.entries + [Entry(p.cursect.value, o.value.0, [o.value.1])]| != |p.entries|;
      }
    }
  }

  /** A blank line belongs to the open value, and to nothing else. */
  lemma BlankLines(p: Parser, line: string)
    requires Blank(line) && !p.failed && (p.optionOpen ==> p.entries != [])
    ensures !p.optionOpen ==> ReadLine(p, line) == p
    ensures p.optionOpen ==> ReadLine(p, line) == Extended(p, [""])
  {
    hide Lstrip, Rstrip, OptionLine, SectionHeader, NewOption, NewSection, Indent;
    BlankGoes(line);
  }

  /** A line indented deeper than the open option continues its value. */
  lemma DeeperLinesContinue(p: Parser, line: string)
    requires !p.failed && p.optionOpen && p.entries != [] && Indent(line) > p.indent
    requires Strip(line) != "" && !CommentStart(Strip(line))
    ensures ReadLine(p, line) == Extended(p, [Strip(line)])
  {
  }

  /** A section header: a bracket, a name, and the last bracket that closes it. */
  lemma SectionHeaderIff(clean: string, name: string)
    ensures SectionHeader(clean) == Some(name) <==>
      name != "" && exists junk :: clean == Header(name, junk) && ']' !in junk
  {
    hide SectionHeader;
    if SectionHeader(clean) == Some(name) {
      var junk := HeaderTaken(clean, name);
    }
    if name != "" {
      if junk :| clean == Header(name, junk) && ']' !in junk {
        HeaderSaid(name, junk);
      }
    }
  }

  lemma HeaderTaken(clean: string, name: string) returns (junk: string)
    requires SectionHeader(clean) == Some(name)
    ensures name != "" && clean == Header(name, junk) && ']' !in junk
  {
    hide LastIndexOf;
    LastIndexIsLast(clean, ']');
    var close := LastIndexOf(clean, ']').value;
    junk := clean[close + 1..];
    assert clean == "[" + clean[1..close] + "]" + junk;
  }

  lemma HeaderSaid(name: string, junk: string)
    requires name != "" && ']' !in junk
    ensures SectionHeader(Header(name, junk)) == Some(name)
  {
    hide LastIndexOf;
    var clean := Header(name, junk);
    var k := |name| + 1;
    LastIndexIsLast(clean, ']');
    assert clean[k] == ']';
    assert clean[1..k] == name;
    forall i | k < i < |clean| ensures clean[i] != ']' {
      assert clean[i] == junk[i - k - 1];
    }
  }

  function Header(name: string, junk: string): string {
    "[" + name + "]" + junk
  }

  lemma {:induction false} LastIndexIsLast(s: string, c: char)
    ensures LastIndexOf(s, c).Some? ==> forall i | LastIndexOf(s, c).value < i < |s| :: s[i] != c
  {
    if s != [] && s[|s| - 1] != c {
      LastIndexIsLast(s[..|s| - 1], c);
    }
  }

  /** An option line: a name up to the first `=` or `:`, lower-cased and stripped, and a stripped value. */
  lemma OptionLineIff(clean: string, key: string, value: string)
    ensures OptionLine(clean) == Some((key, value)) <==>
      exists raw, delimiter, rest ::
        clean == Delimited(raw, delimiter, rest) && SaysOption(raw, delimiter, rest, key, value)
  {
    hide OptionLine, SaysOption;
    if OptionLine(clean) == Some((key, value)) {
      var raw, delimiter, rest := OptionLineTaken(clean, key, value);
    }
    if raw, delimiter, rest :|
      clean == Delimited(raw, delimiter, rest) && SaysOption(raw, delimiter, rest, key, value)
    {
      OptionLineSaid(raw, delimiter, rest, key, value);
    }
  }

  predicate SaysOption(raw: string, delimiter: char, rest: string, key: string, value: string) {
    && (delimiter == '=' || delimiter == ':') && '=' !in raw && ':' !in raw
    && key == Lower(Rstrip(raw)) && key != "" && value == Strip(rest)
  }

  lemma OptionLineTaken(clean: string, key: string, value: string) returns (raw: string, delimiter: char, rest: string)
    requires OptionLine(clean) == Some((key, value))
    ensures clean == Delimited(raw, delimiter, rest) && SaysOption(raw, delimiter, rest, key, value)
  {
    hide Rstrip, Strip, Lower, FirstDelimiter;
    var d := FirstDelimiter(clean).value;
    raw, delimiter, rest := clean[..d], clean[d], clean[d + 1..];
  }

  lemma OptionLineSaid(raw: string, delimiter: char, rest: string, key: string, value: string)
    requires SaysOption(raw, delimiter, rest, key, value)
    ensures OptionLine(Delimited(raw, delimiter, rest)) == Some((key, value))
  {
    hide Rstrip, Strip, Lower, FirstDelimiter;
    var clean := Delimited(raw, delimiter, rest);
    assert clean == raw + ([delimiter] + rest);
    FirstDelimiterAt(raw, [delimiter] + rest);
    assert clean[..|raw|] == raw && clean[|raw| + 1..] == rest;
  }

  function Delimited(raw: string, delimiter: char, rest: string): string {
    raw + [delimiter] + rest
  }

  /** A header or option line does what it says, or fails: for a section or an option that is there already. */
  lemma MarginLines(p: Parser, line: string)
    requires !p.failed && Strip(line) != "" && !CommentStart(Strip(line))
    requires !(p.optionOpen && Indent(line) > p.indent)
    ensures var clean := Strip(line);
      match SectionHeader(clean)
      case Some(name) =>
        if name in p.sections then ReadLine(p, line).failed
        else
          ReadLine(p, line) == Parser(p.sections + [name], Some(name), false, Indent(line), p.entries, false)
      case None =>
        if p.cursect.None? || OptionLine(clean).None? || Has(p.entries, p.cursect.value, OptionLine(clean).value.0)
        then ReadLine(p, line).failed
        else
          var (key, value) := OptionLine(clean).value;
          ReadLine(p, line) == Parser(p.sections, p.cursect, true, Indent(line),
                                      p.entries + [Entry(p.cursect.value, key, [value])], false)
  {
    hide Strip, Indent, SectionHeader, OptionLine, Has;
  }

  // ---- option lines of the example ----------------------------------------

  predicate Identifier(o: string) {
    o != [] && IsNameStart(o[0]) && forall i | 0 <= i < |o| :: IsNameChar(o[i])
  }

  /** An active option line is an identifier at the margin, blanks, and an equals sign. */
  lemma ActiveOptionIff(line: string, o: string)
    ensures ActiveOption(line) == Some(o) <==>
      Identifier(o) && exists gap, rest :: line == Line(o, gap, rest) && Blank(gap)
  {
    if ActiveOption(line) == Some(o) {
      var gap, rest := ActiveLineForm(line);
      assert line == Line(o, gap, rest) && line[0] == o[0];
    }
    if Identifier(o) {
      if gap, rest :| line == Line(o, gap, rest) && Blank(gap) {
        IdentifierLine(o, gap, rest);
      }
    }
  }

  lemma IdentifierLine(o: string, gap: string, rest: string)
    requires Identifier(o) && Blank(gap)
    ensures ActiveOption(Line(o, gap, rest)) == Some(o)
  {
    var line := Line(o, gap, rest);
    assert line == o + (gap + ("=" + rest));
    assert !IsNameChar((gap + ("=" + rest))[0]);
    NameLengthOf(o, gap + ("=" + rest));
    assert line[|o|..] == gap + ("=" + rest);
    LstripBlank(gap, "=" + rest);
    assert line[..|o|] == o;
  }

  lemma ActiveAtTheMargin(line: string, o: string)
    requires ActiveOption(line) == Some(o)
    ensures line != [] && !IsSpace(line[0])
  {
  }

  /** A commented one is the same behind a `#` at the margin and blanks. */
  lemma CommentedOptionIff(line: string, o: string)
    ensures CommentedOption(line) == Some(o) <==>
      exists blanks, active :: line == Commented(blanks, active) && Blank(blanks) && ActiveOption(active) == Some(o)
  {
    hide CommentedOption, ActiveOption;
    if CommentedOption(line) == Some(o) {
      var blanks, active := CommentedParts(line, o);
    }
    if blanks, active :| line == Commented(blanks, active) && Blank(blanks) && ActiveOption(active) == Some(o) {
      CommentedSays(blanks, active, o);
    }
  }

  function Commented(blanks: string, active: string): string {
    "#" + (blanks + active)
  }

  lemma CommentedParts(line: string, o: string) returns (blanks: string, active: string)
    requires CommentedOption(line) == Some(o)
    ensures line == Commented(blanks, active) && Blank(blanks) && ActiveOption(active) == Some(o)
  {
    hide ActiveOption, Lstrip;
    var text := line[1..];
    active := Lstrip(text);
    blanks := text[..|text| - |active|];
    assert text == blanks + active && line == "#" + text;
  }

  lemma CommentedSays(blanks: string, active: string, o: string)
    requires Blank(blanks) && ActiveOption(active) == Some(o)
    ensures CommentedOption(Commented(blanks, active)) == Some(o)
  {
    ActiveAtTheMargin(active, o);
    hide ActiveOption, Lstrip;
    LstripBlank(blanks, active);
    assert Commented(blanks, active)[1..] == blanks + active;
  }

  /** A line documents a registry option that it sets, or that it shows as a comment. */
  lemma DocumentedIff(rules: Rules, line: string, o: string)
    ensures Documented(rules, line) == Some(o) <==>
      o in rules.registry && (ActiveOption(line) == Some(o) || CommentedOption(line) == Some(o))
  {
    if line != [] && line[0] == '#' {
      assert !IsNameStart(line[0]);
    }
  }

  /** A continuation line starts with a space or a tab and has something on it. */
  lemma IndentedIff(line: string)
    ensures Indented(line) <==>
      line != [] && (line[0] == ' ' || line[0] == '\t') && exists i :: 0 <= i < |line| && !IsSpace(line[i])
  {
    hide Lstrip, Rstrip, Strip;
    var before, after := StripIff(line);
    if Strip(line) == "" {
      assert line == before + after;
    } else {
      assert line[|before|] == Strip(line)[0];
    }
  }

  // ---- dropped and missing options ----------------------------------------

  /** Dropped are exactly the entries whose option is not in the registry, in the order of the file. */
  lemma {:induction false} DroppedIff(registry: map<string, Known>, site: seq<Entry>) returns (at: seq<nat>)
    ensures |at| == |Dropped(registry, site)|
    ensures forall n | 0 <= n < |at| ::
      at[n] < |site| && Dropped(registry, site)[n] == (site[at[n]].section, site[at[n]].option)
    ensures forall m, n | 0 <= m < n < |at| :: at[m] < at[n]
    ensures forall i: nat | i < |site| :: i in at <==> site[i].option !in registry
  {
    hide Dropped;
    at := [];
    if site == [] {
      NothingDropped(registry);
    } else {
      var n := |site| - 1;
      at := DroppedIff(registry, site[..n]);
      OneMoreDropped(registry, site);
      if site[n].option !in registry {
        at := at + [n];
      }
    }
  }

  lemma NothingDropped(registry: map<string, Known>)
    ensures Dropped(registry, []) == []
  {
  }

  lemma OneMoreDropped(registry: map<string, Known>, site: seq<Entry>)
    requires site != []
    ensures var e := site[|site| - 1];
      Dropped(registry, site) ==
        Dropped(registry, site[..|site| - 1]) + if e.option in registry then [] else [(e.section, e.option)]
  {
  }

  /** The option is documented by an earlier line. */
  predicate DocumentedBefore(rules: Rules, example: seq<string>, i: nat, o: string)
    requires i <= |example|
  {
    exists j :: 0 <= j < i && Documented(rules, example[j]) == Some(o)
  }

  /** The line continues the value of an active option line. */
  predicate ContinuesActive(rules: Rules, example: seq<string>, i: nat)
    requires i <= |example|
  {
    exists j :: 0 <= j < i && ActiveDoc(rules, example[j]) && forall k | j < k < i :: Indented(example[k])
  }

  predicate ActiveDoc(rules: Rules, line: string) {
    Documented(rules, line).Some? && IsActive(line)
  }

  /** What the walk remembers: what has been documented, and whether an active value is open. */
  lemma {:induction false} WalkRemembers(rules: Rules, values: map<string, string>, example: seq<string>, n: nat)
    requires n <= |example|
    ensures var w := Rewrite(rules, values, example[..n]);
      && (w.skipping <==> ContinuesActive(rules, example, n))
      && (forall o :: o in w.done <==> DocumentedBefore(rules, example, n, o))
  {
    hide Documented, Indented, IsActive, Placement, Rewrite;
    NothingWalked(rules, values, example);
    if n > 0 {
      hide ContinuesActive, DocumentedBefore;
      var line, w := example[n - 1], Rewrite(rules, values, example[..n - 1]);
      WalkRemembers(rules, values, example, n - 1);
      OneMoreLine(rules, values, example, n - 1);
      if Indented(line) {
        IndentedIsNoDoc(rules, line);
      }
      ContinuesStep(rules, example, n - 1);
      BeforeStep(rules, example, n - 1);
    }
  }

  lemma NothingWalked(rules: Rules, values: map<string, string>, example: seq<string>)
    ensures Rewrite(rules, values, example[..0]) == EMPTY
  {
    assert example[..0] == [];
  }

  lemma BeforeStep(rules: Rules, example: seq<string>, i: nat)
    requires i < |example|
    ensures forall o :: DocumentedBefore(rules, example, i + 1, o) <==>
      DocumentedBefore(rules, example, i, o) || Documented(rules, example[i]) == Some(o)
  {
    hide Documented;
  }

  lemma ContinuesStep(rules: Rules, example: seq<string>, i: nat)
    requires i < |example|
    ensures ContinuesActive(rules, example, i + 1) <==>
      ActiveDoc(rules, example[i]) || (ContinuesActive(rules, example, i) && Indented(example[i]))
  {
    hide ActiveDoc, Indented;
    if ContinuesActive(rules, example, i) && Indented(example[i]) {
      var j :| 0 <= j < i && ActiveDoc(rules, example[j]) && forall k | j < k < i :: Indented(example[k]);
      assert forall k | j < k < i + 1 :: Indented(example[k]);
    }
  }

  /**
   Reported missing are exactly the required options without a site value whose first documenting line is
   active, in the order of the example.
   */
  lemma {:induction false} MissingIff(rules: Rules, values: map<string, string>, example: seq<string>)
      returns (at: seq<nat>)
    ensures var missing := Rewrite(rules, values, example).missing;
      && |at| == |missing|
      && (forall n | 0 <= n < |at| ::
            && at[n] < |example| && Documented(rules, example[at[n]]) == Some(missing[n].1)
            && missing[n].1 in rules.registry && missing[n].0 == rules.registry[missing[n].1].section)
    ensures forall m, n | 0 <= m < n < |at| :: at[m] < at[n]
    ensures forall i: nat | i < |example| :: i in at <==> IsMissing(rules, values, example, i)
  {
    hide Documented, IsActive, IsMissing, Rewrite;
    at := [];
    if example == [] {
      NothingWalked(rules, values, example);
      assert example[..0] == example;
    } else {
      var n := |example| - 1;
      var front := example[..n];
      at := MissingIff(rules, values, front);
      forall i: nat | i < n ensures IsMissing(rules, values, example, i) <==> IsMissing(rules, values, front, i) {
        MissingPrefix(rules, values, example, n, i);
      }
      MissingStep(rules, values, example, n);
      MissingMeans(rules, values, example, n);
      assert example[..n + 1] == example;
      if IsMissing(rules, values, example, n) {
        at := at + [n];
      }
    }
  }

  lemma MissingStep(rules: Rules, values: map<string, string>, example: seq<string>, n: nat)
    requires n < |example|
    ensures Rewrite(rules, values, example[..n + 1]).missing ==
      Rewrite(rules, values, example[..n]).missing +
      if IsMissing(rules, values, example, n)
      then [(rules.registry[Documented(rules, example[n]).value].section, Documented(rules, example[n]).value)] else []
  {
    hide Documented, Indented, IsActive, Placement, Rewrite, ContinuesActive, DocumentedBefore;
    OneMoreLine(rules, values, example, n);
    WalkRemembers(rules, values, example, n);
    if Indented(example[n]) {
      IndentedIsNoDoc(rules, example[n]);
    }
    if Documented(rules, example[n]).Some? {
      DocumentedIsKnown(rules, example[n]);
    }
  }

  predicate IsMissing(rules: Rules, values: map<string, string>, example: seq<string>, i: nat)
    requires i < |example|
  {
    var doc := Documented(rules, example[i]);
    && doc.Some? && doc.value in rules.registry && rules.registry[doc.value].default.None?
    && doc.value !in values && IsActive(example[i]) && !DocumentedBefore(rules, example, i, doc.value)
  }

  lemma MissingMeans(rules: Rules, values: map<string, string>, example: seq<string>, i: nat)
    requires i < |example|
    ensures var doc := Documented(rules, example[i]);
      IsMissing(rules, values, example, i) <==>
      && doc.Some? && doc.value in rules.registry && rules.registry[doc.value].default.None?
      && doc.value !in values && IsActive(example[i]) && !DocumentedBefore(rules, example, i, doc.value)
  {
  }

  lemma MissingPrefix(rules: Rules, values: map<string, string>, example: seq<string>, n: nat, i: nat)
    requires i < n <= |example|
    ensures IsMissing(rules, values, example, i) <==> IsMissing(rules, values, example[..n], i)
  {
    hide Documented, IsActive;
    var front := example[..n];
    forall o ensures DocumentedBefore(rules, example, i, o) <==> DocumentedBefore(rules, front, i, o) {
      if j :| 0 <= j < i && Documented(rules, example[j]) == Some(o) {
        assert front[j] == example[j];
      }
      if j :| 0 <= j < i && Documented(rules, front[j]) == Some(o) {
        assert front[j] == example[j];
      }
    }
  }

  // ---- what each line becomes ---------------------------------------------

  /**
   What line `i` of the example becomes. Continuations of an active example value go with it; a line that
   documents nothing is copied; of the lines that document an option the first is filled in, and later
   ones stay if they are comments.
   */
  function Block(rules: Rules, values: map<string, string>, example: seq<string>, i: nat): seq<string>
    requires i < |example|
  {
    var line := example[i];
    if ContinuesActive(rules, example, i) && Indented(line) then []
    else
      match Documented(rules, line)
      case None => [line]
      case Some(o) =>
        if DocumentedBefore(rules, example, i, o) then if IsActive(line) then [] else [line]
        else FilledIn(rules, Lookup(values, o), o, line)
  }

  /** A documenting line filled in: the default as a comment, and the site's value if it has one of its own. */
  function FilledIn(rules: Rules, value: Option<string>, o: string, line: string): seq<string> {
    if o !in rules.registry then [line]
    else
      match rules.registry[o].default
      case None => if value.Some? then FormatOption(o, value.value) else [line]
      case Some(d) =>
        [if IsActive(line) then "# " + o + " = " + d else line] +
        if value.Some? && Strip(value.value) != d && !rules.numEq(value.value, d)
        then FormatOption(o, value.value) else []
  }

  function Blocks(rules: Rules, values: map<string, string>, example: seq<string>, n: nat): seq<string>
    requires n <= |example|
  {
    if n == 0 then [] else Blocks(rules, values, example, n - 1) + Block(rules, values, example, n - 1)
  }

  /** The output is what the lines become, one after the other. */
  lemma {:induction false} OutputIsBlocks(rules: Rules, values: map<string, string>, example: seq<string>, n: nat)
    requires n <= |example|
    ensures Rewrite(rules, values, example[..n]).out == Blocks(rules, values, example, n)
  {
    hide Documented, Indented, IsActive, Placement, FilledIn, ContinuesActive, DocumentedBefore;
    assert example[..0] == [];
    if n > 0 {
      var line, w := example[n - 1], Rewrite(rules, values, example[..n - 1]);
      OutputIsBlocks(rules, values, example, n - 1);
      OneMoreLine(rules, values, example, n - 1);
      WalkRemembers(rules, values, example, n - 1);
      assert w.out + [] == w.out;
      if Documented(rules, line).Some? {
        DocumentedIsKnown(rules, line);
        PlacementIsFilledIn(rules, Lookup(values, Documented(rules, line).value), Documented(rules, line).value, line);
      }
    }
  }

  lemma PlacementIsFilledIn(rules: Rules, value: Option<string>, o: string, line: string)
    requires o in rules.registry
    ensures Placement(rules, value, o, line) == FilledIn(rules, value, o, line)
  {
    hide FormatOption, Strip, IsActive;
  }

  /** For the rewritten text as a whole. */
  lemma RewrittenIsBlocks(rules: Rules, site: seq<Entry>, exampleText: string)
    ensures var example := SplitLines(exampleText);
      Rewritten(rules, site, exampleText).text ==
        Text(Blocks(rules, SiteValues(rules.registry, site), example, |example|))
  {
    hide Rewrite, Blocks;
    var example := SplitLines(exampleText);
    OutputIsBlocks(rules, SiteValues(rules.registry, site), example, |example|);
    assert example[..|example|] == example;
  }

  /** A value is printed behind ` = `, without trailing blanks, and its further lines are indented by two. */
  lemma PrintedAs(o: string, value: string)
    requires Stripped(Split(value)[0])
    ensures var first, more := Split(value)[0], Split(value)[1..];
      FormatOption(o, value) == [if first == "" then o + " =" else o + " = " + first] + Continuations(more)
  {
    hide Split, Rstrip;
    var first := Split(value)[0];
    if first == "" {
      BlankGoes(" ");
      RstripKeeps(o + " =", " ");
      assert o + " = " + first == o + " =" + " " && o + " =" + "" == o + " =";
    } else {
      RstripKeeps(o + " = " + first, "");
      BlankGoes("");
      assert o + " = " + first + "" == o + " = " + first;
    }
  }

  // ---- when a value counts ------------------------------------------------

  predicate SetOncePerSection(site: seq<Entry>) {
    forall i, j | 0 <= i < j < |site| :: site[i].section != site[j].section || site[i].option != site[j].option
  }

  lemma WinnerIsUnique(registry: map<string, Known>, site: seq<Entry>, o: string,
                       v: string, k: int, v': string, k': int)
    requires o in registry && Wins(registry, site, o, v, k) && Wins(registry, site, o, v', k')
    ensures k == k' && v == v'
  {
  }

  lemma WinningValue(registry: map<string, Known>, site: seq<Entry>, o: string, v: string, k: int)
    requires o in registry && SetOncePerSection(site) && Wins(registry, site, o, v, k)
    ensures o in SiteValues(registry, site) && SiteValues(registry, site)[o] == v
  {
    hide SiteValues, Wins;
    var k' := SiteValuePicks(registry, site, o);
    assert Sets(site, o) by {
      WinnerSets(registry, site, o, v, k);
    }
    WinnerIsUnique(registry, site, o, v, k, SiteValues(registry, site)[o], k');
  }

  lemma WinnerSets(registry: map<string, Known>, site: seq<Entry>, o: string, v: string, k: int)
    requires o in registry && Wins(registry, site, o, v, k)
    ensures Sets(site, o)
  {
  }

  /**
   The effective value of an option is that of its winning entry, unless its text is the default's or the
   two are equal as numbers; then, or when nothing sets it, it is the default.
   */
  lemma EffectiveValueIff(rules: Rules, site: seq<Entry>, o: string, v: string, k: int)
    requires o in rules.registry && SetOncePerSection(site)
    ensures Wins(rules.registry, site, o, v, k) ==>
      match rules.registry[o].default
      case None => EffectiveValue(rules, site, o) == Some(v)
      case Some(d) => EffectiveValue(rules, site, o) == Some(if Strip(v) == d || rules.numEq(v, d) then d else v)
    ensures !Sets(site, o) ==> EffectiveValue(rules, site, o) == rules.registry[o].default
  {
    hide SiteValues, Wins, Strip, Sets;
    if Wins(rules.registry, site, o, v, k) {
      WinningValue(rules.registry, site, o, v, k);
    }
    var k' := SiteValuePicks(rules.registry, site, o);
  }

  /**
   What a tidy example that documents the option makes of the winning entry: the rewritten file sets the
   option in exactly one place, to exactly that value, unless it says what the default says; then nowhere.
   */
  lemma RewrittenSays(rules: Rules, siteText: string, exampleText: string, o: string, v: string, k: int)
    requires ValidRules(rules) && Tidy(rules, SplitLines(exampleText)) && Parsed(siteText).Returned?
    requires o in rules.registry && Wins(rules.registry, Parsed(siteText).value, o, v, k)
    requires DocumentedIn(rules, SplitLines(exampleText), o)
    ensures var after := Parsed(Rewritten(rules, Parsed(siteText).value, exampleText).text);
      && after.Returned?
      && match rules.registry[o].default
         case None => Settled(after.value, o, Some(v))
         case Some(d) => Settled(after.value, o, if Strip(v) == d || rules.numEq(v, d) then None else Some(v))
  {
    hide ReadLines, Rewrite, SiteValues, Placed, Documented, DocumentedIn, Outlined, Printable, ValidRules, Settled,
      Text, SplitLines, Wins, Strip, Tidy, IsActive, PlaceholderValue;
    ParsedIsPrintable(siteText);
    var site, example := Parsed(siteText).value, SplitLines(exampleText);
    var values := SiteValues(rules.registry, site);
    WinningValue(rules.registry, site, o, v, k);
    ValuesArePrintable(rules.registry, site);
    OutputLines(rules, values, example);
    TextReads(Rewrite(rules, values, example).out);
    OutputMeans(rules, values, example, o);
    var line := PlacedCases(rules, values, example, o);
  }
}
