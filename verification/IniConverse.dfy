/**
 Tidiness is exact. Whatever makes an example untidy, some site pays for it: the output cannot be read,
 or a value of the site's own is spoiled, or a registry option is set behind the rewriter's back.
 */
module IniConverse {
  import opened Wrappers
  import opened IniText
  import opened IniParser
  import opened IniRewrite
  import opened IniReading
  import opened IniMeaning
  import opened IniTheorems

  /** Some printable value of the option is not its default. */
  ghost predicate Settable(rules: Rules) {
    forall o | o in rules.registry :: exists v :: Fresh(rules, o, v)
  }

  predicate Fresh(rules: Rules, o: string, v: string)
    requires o in rules.registry
  {
    Printable(v) && !ValueEqualsDefault(rules, v, rules.registry[o].default)
  }

  function Output(rules: Rules, values: map<string, string>, example: seq<string>): Parser {
    ReadLines(START, Rewrite(rules, values, example).out)
  }

  /** The output can be read, and sets each registry option where the rewriter placed it, to that value, and nowhere
      else. */
  ghost predicate Faithful(rules: Rules, values: map<string, string>, example: seq<string>) {
    && !Output(rules, values, example).failed
    && forall o | o in rules.registry ::
      Settled(Output(rules, values, example).entries, o, Placed(rules, values, example, o))
  }

  // ---- counting and growing -----------------------------------------------

  /** How often the option is set. */
  function Count(entries: seq<Entry>, o: string): nat {
    if entries == [] then 0
    else Count(entries[..|entries| - 1], o) + if entries[|entries| - 1].option == o then 1 else 0
  }

  lemma CountAdd(entries: seq<Entry>, e: Entry, o: string)
    ensures Count(entries + [e], o) == Count(entries, o) + if e.option == o then 1 else 0
  {
    assert (entries + [e])[..|entries|] == entries;
  }

  lemma {:induction false} CountNone(entries: seq<Entry>, o: string)
    requires forall i | 0 <= i < |entries| :: entries[i].option != o
    ensures Count(entries, o) == 0
  {
    if entries != [] {
      CountNone(entries[..|entries| - 1], o);
    }
  }

  lemma {:induction false} CountSettled(entries: seq<Entry>, o: string, expected: Option<string>)
    requires Settled(entries, o, expected)
    ensures Count(entries, o) == if expected.Some? then 1 else 0
  {
    if expected.None? {
      CountNone(entries, o);
    } else {
      var front, e := entries[..|entries| - 1], entries[|entries| - 1];
      assert entries == front + [e];
      SettledFront(front, e, o, expected);
      CountSettled(front, o, if e.option == o then None else expected);
    }
  }

  /** Entries only ever come to the end, and their lines likewise. */
  predicate Longer(a: seq<Entry>, b: seq<Entry>) {
    && |a| <= |b|
    && forall k | 0 <= k < |a| :: b[k].section == a[k].section && b[k].option == a[k].option && a[k].lines <= b[k].lines
  }

  lemma ReadLineOnlyAdds(p: Parser, line: string)
    ensures Longer(p.entries, ReadLine(p, line).entries) && (p.failed ==> ReadLine(p, line) == p)
  {
    hide Strip, OptionLine, SectionHeader, Indent, Has;
  }

  lemma LongerTwice(a: seq<Entry>, b: seq<Entry>, c: seq<Entry>)
    requires Longer(a, b) && Longer(b, c)
    ensures Longer(a, c)
  {
  }

  lemma {:induction false} ReadLinesOnlyAdd(p: Parser, lines: seq<string>)
    ensures Longer(p.entries, ReadLines(p, lines).entries)
  {
    if lines != [] {
      hide ReadLine, Longer;
      var front := lines[..|lines| - 1];
      ReadLinesOnlyAdd(p, front);
      ReadLineOnlyAdds(ReadLines(p, front), lines[|lines| - 1]);
      LongerTwice(p.entries, ReadLines(p, front).entries, ReadLines(p, lines).entries);
    }
  }

  lemma {:induction false} LongerCounts(a: seq<Entry>, b: seq<Entry>, o: string)
    requires Longer(a, b)
    ensures Count(a, o) <= Count(b, o)
    decreases |b|
  {
    if |a| < |b| {
      LongerCounts(a, b[..|b| - 1], o);
    } else if a != [] {
      LongerCounts(a[..|a| - 1], b[..|b| - 1], o);
    }
  }

  lemma {:induction false} RstripLength(s: string, t: string)
    ensures |Rstrip(s + t)| >= |Rstrip(s)|
    decreases |t|
  {
    if t == [] {
      assert s + t == s;
    } else {
      assert (s + t)[..|s + t| - 1] == s + t[..|t| - 1];
      RstripLength(s, t[..|t| - 1]);
    }
  }

  lemma {:induction false} ValueLength(lines: seq<string>, more: seq<string>)
    ensures |Rstrip(Join(lines + more))| >= |Rstrip(Join(lines))|
    decreases |more|
  {
    if more == [] {
      assert lines + more == lines;
    } else if lines == [] {
      assert Rstrip(Join(lines)) == "";
    } else {
      hide Join, Rstrip;
      var front, last := more[..|more| - 1], more[|more| - 1];
      ValueLength(lines, front);
      assert lines + more == (lines + front) + [last];
      JoinAppend(lines + front, last);
      assert Join(lines + front) + "\n" + last == Join(lines + front) + ("\n" + last);
      RstripLength(Join(lines + front), "\n" + last);
    }
  }

  // ---- damage, and that it stays ------------------------------------------

  ghost predicate Unreadable(rules: Rules, values: map<string, string>, example: seq<string>) {
    Output(rules, values, example).failed
  }

  ghost predicate TooLong(entries: seq<Entry>, o: string, n: nat) {
    exists k :: 0 <= k < |entries| && entries[k].option == o && |entries[k].Value()| > n
  }

  /** The site's own value of a documented option has more to it than the site wrote. */
  ghost predicate Spoiled(rules: Rules, values: map<string, string>, example: seq<string>, o: string) {
    Own(rules, values, o) && DocumentedIn(rules, example, o)
      && TooLong(Output(rules, values, example).entries, o, |values[o]|)
  }

  function PlacedCount(rules: Rules, values: map<string, string>, example: seq<string>, o: string): nat
    requires o in rules.registry
  {
    if Placed(rules, values, example, o).Some? then 1 else 0
  }

  /** The option is set once more often than the rewriter placed it. */
  ghost predicate Doubled(rules: Rules, values: map<string, string>, example: seq<string>, o: string) {
    o in rules.registry && Count(Output(rules, values, example).entries, o) > PlacedCount(rules, values, example, o)
  }

  lemma LongerStaysTooLong(a: seq<Entry>, b: seq<Entry>, o: string, n: nat)
    requires Longer(a, b) && TooLong(a, o, n)
    ensures TooLong(b, o, n)
  {
    var k :| 0 <= k < |a| && a[k].option == o && |a[k].Value()| > n;
    var more := b[k].lines[|a[k].lines|..];
    assert b[k].lines == a[k].lines + more;
    ValueLength(a[k].lines, more);
    assert b[k].option == o && |b[k].Value()| > n;
  }

  /** The output of one more line of the example is read on from where the reader was. */
  lemma OneMoreRead(rules: Rules, values: map<string, string>, front: seq<string>, last: string)
      returns (added: seq<string>)
    ensures Output(rules, values, front + [last]) == ReadLines(Output(rules, values, front), added)
    ensures var w := Rewrite(rules, values, front);
      && (w.skipping && Indented(last) ==> added == [])
      && (!(w.skipping && Indented(last)) && Documented(rules, last).None? ==> added == [last])
      && (!(w.skipping && Indented(last)) && Documented(rules, last).Some? ==>
            var o := Documented(rules, last).value;
            && o in rules.registry
            && added == if o in w.done then (if IsActive(last) then [] else [last])
                        else Placement(rules, Lookup(values, o), o, last))
  {
    hide ReadLine, ReadLines, Documented, Placement, Indented, IsActive;
    var w := Rewrite(rules, values, front);
    assert (front + [last])[..|front|] == front;
    if Documented(rules, last).Some? {
      DocumentedIsKnown(rules, last);
    }
    added := Step(rules, values, w, last).out[|w.out|..];
    assert Step(rules, values, w, last).out == w.out + added;
    ReadAppend(START, w.out, added);
  }

  /** Once unreadable, always unreadable; once spoiled, always spoiled. */
  lemma DamageStays(rules: Rules, values: map<string, string>, front: seq<string>, last: string, o: string)
    ensures Unreadable(rules, values, front) ==> Unreadable(rules, values, front + [last])
    ensures Spoiled(rules, values, front, o) ==> Spoiled(rules, values, front + [last], o)
  {
    hide ReadLines, Rewrite, Longer, TooLong, DocumentedIn;
    var added := OneMoreRead(rules, values, front, last);
    var p := Output(rules, values, front);
    if p.failed {
      FailedStays(p, added);
    }
    ReadLinesOnlyAdd(p, added);
    DocumentedOneMore(rules, front, last, o);
    if Spoiled(rules, values, front, o) {
      LongerStaysTooLong(p.entries, ReadLines(p, added).entries, o, |values[o]|);
    }
  }

  /** An option line sets its option once more, or cannot be read. */
  lemma OptionLineCounts(p: Parser, o: string, gap: string, rest: string, more: seq<string>)
    requires ValidName(o) && Blank(gap) && !p.failed
    ensures var q := ReadLines(p, [Line(o, gap, rest)] + more);
      q.failed || Count(q.entries, o) >= Count(p.entries, o) + 1
  {
    hide ReadLine, ReadLines, Longer, Count, Strip, Rstrip, Has;
    ReadOptionLine(p, o, gap, rest);
    ReadOne(p, Line(o, gap, rest));
    ReadAppend(p, [Line(o, gap, rest)], more);
    var q := ReadLine(p, Line(o, gap, rest));
    if q.failed {
      FailedStays(q, more);
    } else {
      CountAdd(p.entries, Entry(p.cursect.value, o, [Strip(Rstrip(rest))]), o);
      ReadLinesOnlyAdd(q, more);
      LongerCounts(q.entries, ReadLines(q, more).entries, o);
    }
  }

  /** Placing a value sets its option once more, or cannot be read. */
  lemma PlacementCounts(p: Parser, rules: Rules, value: Option<string>, o: string, line: string)
    requires ValidRules(rules) && Documented(rules, line) == Some(o) && o in rules.registry && !p.failed
    requires value.Some? ==> Printable(value.value)
    requires PlacedBy(rules, value, o, line).Some?
    ensures var q := ReadLines(p, Placement(rules, value, o, line));
      q.failed || Count(q.entries, o) >= Count(p.entries, o) + 1
  {
    hide ReadLines, ReadLine, Count, Documented, FormatOption, PlaceholderValue, ValidName, Printable, Split, Strip,
      Rstrip, ActiveOption;
    DocForms(rules, line);
    if value.None? {
      var gap, rest := ActiveLineForm(line);
      OptionLineCounts(p, o, gap, rest, []);
      assert [line] + [] == [line];
    } else {
      PrintableFirst(value.value);
      var rest := PrintedForm(o, value.value);
      OptionLineCounts(p, o, " ", rest, Continuations(Split(value.value)[1..]));
      if rules.registry[o].default.Some? {
        ReadCommentFirst(p, CommentedDefault(rules, o, line), FormatOption(o, value.value));
      }
    }
  }

  lemma PrintableFirst(value: string)
    requires Printable(value)
    ensures Stripped(Split(value)[0])
    ensures forall i | 0 <= i < |Split(value)[1..]| ::
        Stripped(Split(value)[1..][i]) && !CommentStart(Split(value)[1..][i])
  {
  }

  /** Set behind the rewriter's back, always so, unless the file becomes unreadable. */
  lemma DoubledStays(rules: Rules, values: map<string, string>, front: seq<string>, last: string, o: string)
    requires ValidRules(rules) && PrintableValues(values) && Doubled(rules, values, front, o)
    ensures Unreadable(rules, values, front + [last]) || Doubled(rules, values, front + [last], o)
  {
    hide ReadLines, Rewrite, Longer, Placement, PlacedBy, Documented, Count, DocumentedIn, Printable;
    var added := OneMoreRead(rules, values, front, last);
    var p := Output(rules, values, front);
    assert (front + [last])[..|front|] == front;
    ReadLinesOnlyAdd(p, added);
    LongerCounts(p.entries, ReadLines(p, added).entries, o);
    if p.failed {
      FailedStays(p, added);
    } else if o !in Rewrite(rules, values, front).done && Documented(rules, last) == Some(o) {
      if Indented(last) {
        IndentedIsNoDoc(rules, last);
      }
      var line := PlacedCases(rules, values, front, o);
      if PlacedBy(rules, Lookup(values, o), o, last).Some? {
        PlacementCounts(p, rules, Lookup(values, o), o, last);
      }
    }
  }

  // ---- the first untidy line ----------------------------------------------

  lemma NowhereToPlace(p: Parser, rules: Rules, value: string, o: string, line: string)
    requires ValidRules(rules) && Documented(rules, line) == Some(o) && o in rules.registry && Fresh(rules, o, value)
    requires !p.failed && p.cursect.None?
    ensures ReadLines(p, Placement(rules, Some(value), o, line)).failed
  {
    hide ReadLines, ReadLine, Documented, FormatOption, ValidName, Printable, Split, Strip, Rstrip;
    DocForms(rules, line);
    PrintableFirst(value);
    var rest := PrintedForm(o, value);
    var first := Line(o, " ", rest);
    var more := Continuations(Split(value)[1..]);
    ReadOptionLine(p, o, " ", rest);
    ReadOne(p, first);
    ReadAppend(p, [first], more);
    FailedStays(ReadLine(p, first), more);
    if rules.registry[o].default.Some? {
      ReadCommentFirst(p, CommentedDefault(rules, o, line), FormatOption(o, value));
    }
  }

  /** A documented option above every header: the site that sets it gets an unreadable file. */
  lemma DocUntidy(rules: Rules, front: seq<string>, last: string, o: string, v: string)
    requires ValidRules(rules) && Tidy(rules, front) && Outlined(rules, front).section.None?
    requires Documented(rules, last) == Some(o) && o in rules.registry
    requires o !in Outlined(rules, front).done && Fresh(rules, o, v)
    ensures Unreadable(rules, map[o := v], front + [last])
  {
    hide ReadLines, Rewrite, Outlined, Placement, Documented, Printable, Placed, OpenAs, AllSet, EntryOk;
    var values := map[o := v];
    OutputMeans(rules, values, front, o);
    if Indented(last) {
      IndentedIsNoDoc(rules, last);
    }
    var added := OneMoreRead(rules, values, front, last);
    NowhereToPlace(Output(rules, values, front), rules, v, o, last);
  }

  lemma GrownTooLong(entries: seq<Entry>, o: string, v: string, stray: string)
    requires entries != [] && entries[|entries| - 1].option == o && entries[|entries| - 1].lines != []
    requires Settled(entries, o, Some(v)) && stray != "" && Stripped(stray)
    ensures TooLong(Grow(entries, stray), o, |v|)
  {
    var k := |entries| - 1;
    var lines := entries[k].lines;
    var i :| SettledAt(entries, o, v, i);
    assert i == k && Rstrip(Join(lines)) == v;
    JoinAppend(lines, stray);
    var s := Join(lines) + "\n" + stray;
    assert s[|s| - 1] == stray[|stray| - 1];
    var grown := Grow(entries, stray);
    assert grown[k].option == o && grown[k].Value() == s;
  }

  /** An indented line left standing below a documented option: it joins the value of the site that sets it. */
  lemma StrayUntidy(rules: Rules, front: seq<string>, last: string, o: string, v: string)
    requires ValidRules(rules) && Tidy(rules, front) && Outlined(rules, front).placed == Some(o)
    requires !(Outlined(rules, front).skipping && Indented(last)) && Documented(rules, last).None?
    requires Strip(last) != "" && !CommentStart(Strip(last)) && Indent(last) > 0
    requires o in rules.registry && Fresh(rules, o, v)
    ensures Spoiled(rules, map[o := v], front + [last], o)
  {
    hide ReadLines, Rewrite, Outlined, Documented, Printable, Placed, AllSet, Settled, DocumentedIn, Strip, Indent,
      Grow, Indented, TooLong;
    var values := map[o := v];
    OutputMeans(rules, values, front, o);
    var p := Output(rules, values, front);
    var added := OneMoreRead(rules, values, front, last);
    ReadOne(p, last);
    assert Own(rules, values, o);
    OwnIsPlaced(rules, values, front, o);
    assert EntryOk(rules, Outlined(rules, front).foreign, Outlined(rules, front).done, p.entries[|p.entries| - 1]);
    GrownTooLong(p.entries, o, v, Strip(last));
    DocumentedOneMore(rules, front, last, o);
  }

  lemma OwnIsPlaced(rules: Rules, values: map<string, string>, example: seq<string>, o: string)
    requires Own(rules, values, o) && o in Rewrite(rules, values, example).done
    ensures Placed(rules, values, example, o) == Some(values[o]) && DocumentedIn(rules, example, o)
  {
    hide Rewrite, Placed, DocumentedIn, Documented;
    var line := PlacedCases(rules, values, example, o);
  }

  /** A line that sets a registry option without being one of the forms that document it. */
  predicate SideDoor(rules: Rules, line: string) {
    && Documented(rules, line).None? && !CommentStart(Strip(line))
    && OptionLine(Strip(line)).Some? && OptionLine(Strip(line)).value.0 in rules.registry
  }

  predicate NoSideDoor(rules: Rules, example: seq<string>) {
    forall i | 0 <= i < |example| :: !SideDoor(rules, example[i])
  }

  lemma RejectedOption(rules: Rules, values: map<string, string>, t: Outline, p: Parser,
                       x: Option<(string, string)>, ind: nat, expected: Option<string>)
    requires t.Outline? && Sim(rules, values, t, p) && FollowOption(rules, t, x, ind).Untidy?
    requires x.Some? && x.value.0 in rules.registry ==> Settled(p.entries, x.value.0, expected)
    ensures var q := NewOption(p, x, ind);
      || q.failed
      || (x.Some? && x.value.0 in rules.registry && Count(q.entries, x.value.0) == 1 + if expected.Some? then 1 else 0)
  {
    hide OpenAs, EntryOk, Settled, Count;
    if t.section.Some? && x.Some? {
      if x.value.0 in rules.registry {
        CountSettled(p.entries, x.value.0, expected);
        CountAdd(p.entries, Entry(t.section.value, x.value.0, [x.value.1]), x.value.0);
      } else {
        assert (t.section.value, x.value.0) in t.foreign;
      }
    }
  }

  lemma PlacedNoMore(rules: Rules, values: map<string, string>, front: seq<string>, last: string, o: string)
    requires o in rules.registry && Documented(rules, last).None?
    ensures Placed(rules, values, front + [last], o) == Placed(rules, values, front, o)
  {
    assert (front + [last])[..|front|] == front;
  }

  /** A header or option line that the outline rejects: no site can read the output, or the line sets a registry
      option. */
  lemma TextUntidy(rules: Rules, front: seq<string>, last: string)
    requires ValidRules(rules) && Tidy(rules, front)
    requires var t := Outlined(rules, front);
      && !(t.skipping && Indented(last)) && Documented(rules, last).None?
      && FollowCopied(rules, t.(skipping := false), last).Untidy? && (t.placed.None? || Indent(last) == 0)
    ensures
      || Unreadable(rules, map[], front + [last])
      || (SideDoor(rules, last) && Doubled(rules, map[], front + [last], OptionLine(Strip(last)).value.0))
  {
    hide ReadLine, ReadLines, Rewrite, Outlined, Documented, Settled, EntryOk, OpenAs, Strip, Indent, SectionHeader,
      OptionLine, Indented;
    var values: map<string, string> := map[];
    var t := Outlined(rules, front);
    var name := if OptionLine(Strip(last)).Some? then OptionLine(Strip(last)).value.0 else "";
    OutputMeans(rules, values, front, name);
    var p := Output(rules, values, front);
    var added := OneMoreRead(rules, values, front, last);
    ReadOne(p, last);
    SkippingAside(rules, values, t, p);
    TextLine(rules, values, t, p, last);
    if SectionHeader(Strip(last)).None? {
      var expected := if name in rules.registry then Placed(rules, values, front, name) else None;
      RejectedOption(rules, values, t.(skipping := false), p, OptionLine(Strip(last)), Indent(last), expected);
      if name in rules.registry {
        PlacedNoMore(rules, values, front, last, name);
      }
    }
  }

  // ---- tidiness is exact --------------------------------------------------

  /** The first line that makes an example untidy, and the site that pays for it. */
  lemma FirstUntidy(rules: Rules, front: seq<string>, last: string) returns (values: map<string, string>, o: string)
    requires ValidRules(rules) && Settable(rules) && Tidy(rules, front)
    requires Follow(rules, Outlined(rules, front), last).Untidy?
    ensures OneValue(rules, values, o) && PrintableValues(values)
    ensures
      || Unreadable(rules, values, front + [last])
      || Spoiled(rules, values, front + [last], o)
      || (SideDoor(rules, last) && Doubled(rules, values, front + [last], o))
  {
    hide Documented, Outlined, Printable, FollowHeader, FollowOption, Strip, Indent, Indented,
         SectionHeader, OptionLine, Unreadable, Spoiled, Doubled, IsActive;
    var t := Outlined(rules, front);
    values, o := map[], "";
    if Documented(rules, last).Some? {
      DocumentedIsKnown(rules, last);
      o := Documented(rules, last).value;
      var v :| Fresh(rules, o, v);
      values := map[o := v];
      DocUntidy(rules, front, last, o, v);
    } else if t.placed.Some? && Strip(last) != "" && !CommentStart(Strip(last)) && Indent(last) > 0 {
      o := t.placed.value;
      PlacedIsKnown(rules, front);
      var v :| Fresh(rules, o, v);
      values := map[o := v];
      StrayUntidy(rules, front, last, o, v);
    } else {
      TextUntidy(rules, front, last);
      o := if OptionLine(Strip(last)).Some? then OptionLine(Strip(last)).value.0 else "";
    }
  }

  /** A site that sets nothing, or only the registry option `o`. */
  predicate OneValue(rules: Rules, values: map<string, string>, o: string) {
    values == map[] || (o in rules.registry && o in values && values == map[o := values[o]])
  }

  lemma {:induction false} PlacedIsKnown(rules: Rules, example: seq<string>)
    requires Tidy(rules, example) && Outlined(rules, example).placed.Some?
    ensures Outlined(rules, example).placed.value in rules.registry
  {
    hide Documented, Strip, Indent, Indented, SectionHeader, OptionLine, IsActive;
    if example != [] {
      var front, last := example[..|example| - 1], example[|example| - 1];
      if Outlined(rules, front).Outline? && Outlined(rules, front).placed.Some? {
        PlacedIsKnown(rules, front);
      }
      if Documented(rules, last).Some? {
        DocumentedIsKnown(rules, last);
      }
    }
  }

  /** Every untidy example has a site that pays, and without side doors pays with its own value or the whole file. */
  lemma {:induction false} UntidyBreaks(rules: Rules, example: seq<string>)
      returns (values: map<string, string>, o: string)
    requires ValidRules(rules) && Settable(rules) && !Tidy(rules, example)
    ensures OneValue(rules, values, o) && PrintableValues(values)
    ensures
      || Unreadable(rules, values, example)
      || Spoiled(rules, values, example, o)
      || (!NoSideDoor(rules, example) && Doubled(rules, values, example, o))
    decreases |example|
  {
    hide Follow, Unreadable, Spoiled, Doubled, SideDoor, ValidRules, Settable;
    assert Outlined(rules, []) == TOP;
    var front, last := example[..|example| - 1], example[|example| - 1];
    assert example == front + [last];
    if Tidy(rules, front) {
      values, o := FirstUntidy(rules, front, last);
    } else {
      values, o := UntidyBreaks(rules, front);
      DamageStays(rules, values, front, last, o);
      if Doubled(rules, values, front, o) {
        DoubledStays(rules, values, front, last, o);
      }
    }
  }

  lemma DamageIsUnfaithful(rules: Rules, values: map<string, string>, example: seq<string>, o: string)
    requires Unreadable(rules, values, example) || Spoiled(rules, values, example, o)
        || Doubled(rules, values, example, o)
    ensures !Faithful(rules, values, example)
  {
    hide ReadLines, Rewrite, Settled, Count, Placed, DocumentedIn;
    var p := Output(rules, values, example);
    if o in rules.registry && Settled(p.entries, o, Placed(rules, values, example, o)) {
      CountSettled(p.entries, o, Placed(rules, values, example, o));
      if Spoiled(rules, values, example, o) {
        var line := PlacedCases(rules, values, example, o);
        SettledIsNotTooLong(p.entries, o, values[o]);
      }
    }
  }

  lemma SettledIsNotTooLong(entries: seq<Entry>, o: string, v: string)
    ensures Settled(entries, o, Some(v)) ==> !TooLong(entries, o, |v|)
  {
    if Settled(entries, o, Some(v)) {
      var k :| SettledAt(entries, o, v, k);
    }
  }

  /**
   An example is tidy exactly when for every site the output can be read and sets each registry option
   where the rewriter placed it, to that value, and nowhere else.
   */
  lemma TidyIff(rules: Rules, example: seq<string>)
    requires ValidRules(rules) && Settable(rules)
    ensures Tidy(rules, example) <==> forall values | PrintableValues(values) :: Faithful(rules, values, example)
  {
    hide ValidRules, Settable, Tidy, PrintableValues, Settled, ReadLines, Rewrite, Placed;
    if Tidy(rules, example) {
      forall values | PrintableValues(values) ensures Faithful(rules, values, example) {
        TidyIsFaithful(rules, values, example);
      }
    } else {
      var values, o := UntidyBreaks(rules, example);
      DamageIsUnfaithful(rules, values, example, o);
    }
  }

  lemma TidyIsFaithful(rules: Rules, values: map<string, string>, example: seq<string>)
    requires ValidRules(rules) && PrintableValues(values) && Tidy(rules, example)
    ensures Faithful(rules, values, example)
  {
    hide ValidRules, Tidy, PrintableValues, Settled, ReadLines, Rewrite, Placed, OpenAs, EntryOk, AllSet, Outlined;
    OutputMeans(rules, values, example, "");
    forall o | o in rules.registry
      ensures Settled(Output(rules, values, example).entries, o, Placed(rules, values, example, o))
    {
      OutputMeans(rules, values, example, o);
    }
  }

  // ---- and for effective values -------------------------------------------

  /** Without side doors a registry option is set at most once, and only once it is documented. */
  lemma {:induction false} SetAtMostOnce(rules: Rules, values: map<string, string>, example: seq<string>, o: string)
    requires ValidRules(rules) && PrintableValues(values) && NoSideDoor(rules, example) && o in rules.registry
    requires !Unreadable(rules, values, example)
    ensures Count(Output(rules, values, example).entries, o) <=
        if o in Rewrite(rules, values, example).done then 1 else 0
    decreases |example|
  {
    hide ReadLines, ReadLine, Placement, Documented, SideDoor, Printable, ValidName, Indented, IsActive, Count;
    if example == [] {
      NothingCounted(o);
    } else {
      var front, last := example[..|example| - 1], example[|example| - 1];
      assert example == front + [last];
      DamageStays(rules, values, front, last, o);
      SetAtMostOnce(rules, values, front, o);
      var p := Output(rules, values, front);
      if Indented(last) {
        IndentedIsNoDoc(rules, last);
      }
      var added := OneMoreRead(rules, values, front, last);
      if Documented(rules, last).Some? {
        DocumentedIsKnown(rules, last);
        var x := Documented(rules, last).value;
        if x in Rewrite(rules, values, front).done {
          if !IsActive(last) {
            RepeatedLine(rules, p, last);
          }
        } else {
          PlacementAddsOne(p, rules, Lookup(values, x), x, last, o);
        }
      } else {
        ReadOne(p, last);
        CopiedAddsNone(rules, p, last, o);
      }
      NothingRead(p);
    }
  }

  lemma NothingRead(p: Parser)
    ensures ReadLines(p, []) == p
  {
  }

  lemma NothingCounted(o: string)
    ensures ReadLines(START, []) == START && Count(START.entries, o) == 0
  {
  }

  lemma GrowCounts(entries: seq<Entry>, line: string, o: string)
    ensures Count(Grow(entries, line), o) == Count(entries, o)
  {
    if entries != [] {
      var front, e := entries[..|entries| - 1], entries[|entries| - 1];
      assert entries == front + [e] && Grow(entries, line) == front + [e.(lines := e.lines + [line])];
      CountAdd(front, e, o);
      CountAdd(front, e.(lines := e.lines + [line]), o);
    }
  }

  lemma CopiedAddsNone(rules: Rules, p: Parser, line: string, o: string)
    requires o in rules.registry && Documented(rules, line).None? && !SideDoor(rules, line)
    ensures ReadLine(p, line).failed || Count(ReadLine(p, line).entries, o) == Count(p.entries, o)
  {
    hide Strip, Indent, SectionHeader, OptionLine, Grow, Count, Has, Documented;
    var clean := Strip(line);
    GrowCounts(p.entries, "", o);
    GrowCounts(p.entries, clean, o);
    var x := OptionLine(clean);
    if p.cursect.Some? && x.Some? {
      CountAdd(p.entries, Entry(p.cursect.value, x.value.0, [x.value.1]), o);
    }
  }

  lemma PlacementAddsOne(p: Parser, rules: Rules, value: Option<string>, x: string, line: string, o: string)
    requires ValidRules(rules) && Documented(rules, line) == Some(x) && x in rules.registry && !p.failed
    requires value.Some? ==> Printable(value.value)
    ensures var q := ReadLines(p, Placement(rules, value, x, line));
      q.failed || Count(q.entries, o) <= Count(p.entries, o) + if x == o then 1 else 0
  {
    hide ReadLines, ReadLine, Placement, Documented, Printable, ValidName, Count, PlacedBy, Has;
    if p.cursect.Some? && !Has(p.entries, p.cursect.value, x) {
      var e := ReadPlacement(p, rules, value, x, line);
      CountAdd(p.entries, e, o);
    } else {
      RefusedPlacement(p, rules, value, x, line);
    }
  }

  /** Where the option cannot be opened, placing it fails or is a comment. */
  lemma RefusedPlacement(p: Parser, rules: Rules, value: Option<string>, x: string, line: string)
    requires ValidRules(rules) && Documented(rules, line) == Some(x) && x in rules.registry && !p.failed
    requires value.Some? ==> Printable(value.value)
    requires p.cursect.None? || Has(p.entries, p.cursect.value, x)
    ensures var q := ReadLines(p, Placement(rules, value, x, line)); q.failed || q == p
  {
    hide ReadLines, ReadLine, Documented, FormatOption, ValidName, Printable, Split, Strip, Rstrip, Has, ActiveOption;
    DocForms(rules, line);
    if value.Some? {
      PrintableFirst(value.value);
      var rest := PrintedForm(x, value.value);
      RefusedOption(p, x, " ", rest, Continuations(Split(value.value)[1..]));
      if rules.registry[x].default.Some? {
        ReadCommentFirst(p, CommentedDefault(rules, x, line), FormatOption(x, value.value));
      }
    } else if IsActive(line) {
      var gap, rest := ActiveLineForm(line);
      RefusedOption(p, x, gap, rest, []);
      assert [line] + [] == [line];
    }
    if rules.registry[x].default.Some? {
      ReadComment(p, CommentedDefault(rules, x, line));
    } else if !IsActive(line) {
      ReadComment(p, line);
    }
  }

  lemma RefusedOption(p: Parser, o: string, gap: string, rest: string, more: seq<string>)
    requires ValidName(o) && Blank(gap) && !p.failed
    requires p.cursect.None? || Has(p.entries, p.cursect.value, o)
    ensures ReadLines(p, [Line(o, gap, rest)] + more).failed
  {
    hide ReadLine, ReadLines, Strip, Rstrip, Has;
    var first := Line(o, gap, rest);
    ReadOptionLine(p, o, gap, rest);
    ReadOne(p, first);
    ReadAppend(p, [first], more);
    FailedStays(ReadLine(p, first), more);
  }

  /** The parser contents of a site that sets at most one option. */
  function SiteOf(rules: Rules, values: map<string, string>, o: string): seq<Entry> {
    if o in values && o in rules.registry then [Entry(rules.registry[o].section, o, Split(values[o]))] else []
  }

  lemma SiteOfValues(rules: Rules, values: map<string, string>, o: string)
    requires OneValue(rules, values, o) && PrintableValues(values)
    ensures var site := SiteOf(rules, values, o);
      && SiteValues(rules.registry, site) == values
      && forall i | 0 <= i < |site| :: Printable(site[i].Value())
  {
    hide Printable;
    var site := SiteOf(rules, values, o);
    if values != map[] {
      PrintedValue(values[o]);
      assert site[..0] == [];
    }
  }

  lemma {:induction false} SetOnce(entries: seq<Entry>, o: string, k: int)
    requires 0 <= k < |entries| && entries[k].option == o && Count(entries, o) <= 1
    ensures SettledAt(entries, o, entries[k].Value(), k)
  {
    var front, e := entries[..|entries| - 1], entries[|entries| - 1];
    if k == |entries| - 1 {
      NotCounted(front, o);
      assert forall i | 0 <= i < |front| :: entries[i] == front[i];
    } else {
      assert front[k] == entries[k];
      CountedSomewhere(front, o, k);
      SetOnce(front, o, k);
      assert forall i | 0 <= i < |front| :: entries[i] == front[i];
    }
  }

  lemma {:induction false} NotCounted(entries: seq<Entry>, o: string)
    ensures Count(entries, o) == 0 ==> forall i | 0 <= i < |entries| :: entries[i].option != o
  {
    if entries != [] {
      NotCounted(entries[..|entries| - 1], o);
    }
  }

  lemma CountedSomewhere(entries: seq<Entry>, o: string, k: int)
    requires 0 <= k < |entries| && entries[k].option == o
    ensures Count(entries, o) >= 1
  {
    NotCounted(entries, o);
  }

  /** A spoiled value changes what the option effectively is. */
  lemma SpoiledChanges(rules: Rules, values: map<string, string>, site: seq<Entry>, example: seq<string>, o: string)
    requires ValidRules(rules) && PrintableValues(values) && NoSideDoor(rules, example)
    requires SiteValues(rules.registry, site) == values
    requires Spoiled(rules, values, example, o) && !Unreadable(rules, values, example)
    ensures EffectiveValue(rules, site, o) != EffectiveValue(rules, Output(rules, values, example).entries, o)
    ensures (rules.registry[o].section, o) !in Rewrite(rules, values, example).missing
    ensures SetsOwn(rules, site, o)
  {
    hide ReadLines, Rewrite, Placed, Documented, DocumentedIn, Printable, ValidName, Strip, Count, Settled,
      NoSideDoor, SiteValues;
    var entries := Output(rules, values, example).entries;
    SetAtMostOnce(rules, values, example, o);
    var k :| 0 <= k < |entries| && entries[k].option == o && |entries[k].Value()| > |values[o]|;
    SetOnce(entries, o, k);
    SettledByOne(entries, o, k);
    SettledSiteValue(rules, entries, o, Some(entries[k].Value()));
    var line := PlacedCases(rules, values, example, o);
    if rules.registry[o].default.Some? {
      OwnDiffersFromDefault(rules, values[o], rules.registry[o].default.value);
    }
  }

  lemma SettledByOne(entries: seq<Entry>, o: string, k: int)
    requires 0 <= k < |entries| && SettledAt(entries, o, entries[k].Value(), k)
    ensures Settled(entries, o, Some(entries[k].Value()))
  {
  }

  /** The options whose effective value should change: those the site really sets and the example does not document. */
  function Expected(rules: Rules, site: seq<Entry>, example: seq<string>): set<string> {
    set o | o in rules.registry && SetsOwn(rules, site, o) && !DocumentedIn(rules, example, o)
  }

  predicate PrintableSite(site: seq<Entry>) {
    forall i | 0 <= i < |site| :: Printable(site[i].Value())
  }

  /** For an untidy example without side doors some site loses a documented value of its own, or the whole file. */
  lemma UntidyLosesAValue(rules: Rules, exampleText: string) returns (site: seq<Entry>)
    requires ValidRules(rules) && Settable(rules) && NoSideDoor(rules, SplitLines(exampleText))
    requires !Tidy(rules, SplitLines(exampleText))
    ensures PrintableSite(site)
    ensures ChangedEffectiveValues(rules, site, Rewritten(rules, site, exampleText)) !=
      Returned(Expected(rules, site, SplitLines(exampleText)))
  {
    hide ReadLines, Rewrite, ValidRules, Settable, NoSideDoor, Tidy, Printable, PrintableValues, EffectiveValue,
         SetsOwn, DocumentedIn, TooLong, SplitLines, Text, SiteValues;
    var example := SplitLines(exampleText);
    var values, o := UntidyBreaks(rules, example);
    site := SiteOf(rules, values, o);
    SiteOfValues(rules, values, o);
    OutputLines(rules, values, example);
    TextReads(Rewrite(rules, values, example).out);
    var after := Output(rules, values, example);
    if !after.failed {
      SpoiledChanges(rules, values, site, example, o);
      assert o in rules.registry && o !in Expected(rules, site, example);
    }
  }

  /**
   For an example without side doors: it is tidy exactly when for every site the effective values that
   the rewrite changes are those of options the site really sets and the example does not document.
   */
  lemma EffectiveValuesIff(rules: Rules, exampleText: string)
    requires ValidRules(rules) && Settable(rules) && NoSideDoor(rules, SplitLines(exampleText))
    ensures Tidy(rules, SplitLines(exampleText)) <==>
      forall site | PrintableSite(site) :: KeepsMeaning(rules, site, exampleText)
  {
    hide ValidRules, Settable, NoSideDoor, Tidy, SplitLines, ChangedEffectiveValues, SetsOwn, DocumentedIn;
    if Tidy(rules, SplitLines(exampleText)) {
      forall site | PrintableSite(site) ensures KeepsMeaning(rules, site, exampleText) {
        ChangedExactly(rules, site, exampleText);
      }
    } else {
      var site := UntidyLosesAValue(rules, exampleText);
      assert !KeepsMeaning(rules, site, exampleText);
    }
  }

  ghost predicate KeepsMeaning(rules: Rules, site: seq<Entry>, exampleText: string) {
    ChangedEffectiveValues(rules, site, Rewritten(rules, site, exampleText)) ==
      Returned(Expected(rules, site, SplitLines(exampleText)))
  }
}
