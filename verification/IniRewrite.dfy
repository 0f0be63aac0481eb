/** Rewriting a site ini onto the example: the example's lines, with the site's own settings filled in. */
module IniRewrite {
  import opened Wrappers
  import opened IniText
  import opened IniParser

  /** Where a registry option belongs and its code default; a required option has none. */
  datatype Known = Known(section: string, default: Option<string>)

  /** The option registry, and when two texts are equal as numbers. */
  datatype Rules = Rules(registry: map<string, Known>, numEq: (string, string) -> bool)

  // ---- option lines of the example ----------------------------------------

  predicate IsNameStart(c: char) {
    'a' <= c <= 'z' || 'A' <= c <= 'Z' || c == '_'
  }

  predicate IsNameChar(c: char) {
    IsNameStart(c) || '0' <= c <= '9'
  }

  function NameLength(s: string): (n: nat)
    ensures n <= |s| && (forall i | 0 <= i < n :: IsNameChar(s[i])) && (n < |s| ==> !IsNameChar(s[n]))
  {
    if s != [] && IsNameChar(s[0]) then 1 + NameLength(s[1..]) else 0
  }

  /** `^([A-Za-z_][A-Za-z0-9_]*)\s*=` */
  function ActiveOption(line: string): Option<string> {
    var n := NameLength(line);
    var rest := Lstrip(line[n..]);
    if n > 0 && IsNameStart(line[0]) && rest != [] && rest[0] == '=' then Some(line[..n]) else None
  }

  /** `^#\s*([A-Za-z_][A-Za-z0-9_]*)\s*=` */
  function CommentedOption(line: string): Option<string> {
    if line != [] && line[0] == '#' then ActiveOption(Lstrip(line[1..])) else None
  }

  /** The registry option a line of the example documents, active or commented. */
  function Documented(rules: Rules, line: string): Option<string> {
    var key := if ActiveOption(line).Some? then ActiveOption(line) else CommentedOption(line);
    if key.Some? && key.value in rules.registry then key else None
  }

  predicate IsActive(line: string) {
    ActiveOption(line).Some?
  }

  /** Starts with a space or tab and is not blank. */
  predicate Indented(line: string) {
    line != [] && (line[0] == ' ' || line[0] == '\t') && Strip(line) != ""
  }

  // ---- values -------------------------------------------------------------

  predicate ValueEqualsDefault(rules: Rules, value: string, default: Option<string>) {
    default.Some? && (Strip(value) == default.value || rules.numEq(value, default.value))
  }

  /** The registry section wins; otherwise the first section that sets the option. */
  function SiteValues(registry: map<string, Known>, site: seq<Entry>): map<string, string> {
    if site == [] then map[]
    else
      var values, e := SiteValues(registry, site[..|site| - 1]), site[|site| - 1];
      if e.option in registry && (e.option !in values || registry[e.option].section == e.section)
      then values[e.option := e.Value()] else values
  }

  function Dropped(registry: map<string, Known>, site: seq<Entry>): seq<(string, string)> {
    if site == [] then []
    else
      var e := site[|site| - 1];
      Dropped(registry, site[..|site| - 1]) + if e.option in registry then [] else [(e.section, e.option)]
  }

  function SiteValue(rules: Rules, site: seq<Entry>, option: string): Option<string> {
    var values := SiteValues(rules.registry, site);
    if option in values then Some(values[option]) else None
  }

  /** `_site_values` */
  method CollectSiteValues(site: seq<Entry>, registry: map<string, Known>)
      returns (values: map<string, string>, dropped: seq<(string, string)>)
    ensures values == SiteValues(registry, site) && dropped == Dropped(registry, site)
  {
    values, dropped := map[], [];
    for i := 0 to |site|
      invariant values == SiteValues(registry, site[..i]) && dropped == Dropped(registry, site[..i])
    {
      assert site[..i + 1][..i] == site[..i];
      var e := site[i];
      if e.option !in registry {
        dropped := dropped + [(e.section, e.option)];
      } else if e.option !in values || registry[e.option].section == e.section {
        values := values[e.option := e.Value()];
      }
    }
    assert site[..|site|] == site;
  }

  /** Which entry wins, and that exactly the registry options the site sets have a value. */
  lemma {:induction false} SiteValuePicks(registry: map<string, Known>, site: seq<Entry>, option: string)
      returns (k: int)
    requires forall i, j | 0 <= i < j < |site| :: site[i].section != site[j].section || site[i].option != site[j].option
    ensures option in SiteValues(registry, site) <==> option in registry && Sets(site, option)
    ensures option in SiteValues(registry, site) ==> Wins(registry, site, option, SiteValues(registry, site)[option], k)
  {
    k := -1;
    if site != [] {
      var front, e := site[..|site| - 1], site[|site| - 1];
      k := SiteValuePicks(registry, front, option);
      var before := SiteValues(registry, front);
      SetsOneMore(front, e, option);
      assert site == front + [e];
      if option in before {
        WinsOneMore(registry, front, e, option, before[option], k);
      }
      if e.option == option && option in registry && (option !in before || registry[option].section == e.section) {
        k := |site| - 1;
      }
    }
  }

  /** Some section sets the option. */
  predicate Sets(site: seq<Entry>, option: string) {
    exists i :: 0 <= i < |site| && site[i].option == option
  }

  /** Entry `k` gives the option its value: it is in the registry section, or no entry is and it comes first. */
  ghost predicate Wins(registry: map<string, Known>, site: seq<Entry>, option: string, value: string, k: int)
    requires option in registry
  {
    && 0 <= k < |site| && site[k].option == option && value == site[k].Value()
    && forall j | 0 <= j < |site| && site[j].option == option && j != k ::
         site[j].section != registry[option].section && (site[k].section == registry[option].section || k < j)
  }

  lemma SetsOneMore(front: seq<Entry>, e: Entry, option: string)
    ensures Sets(front + [e], option) <==> Sets(front, option) || e.option == option
  {
    if e.option == option {
      assert (front + [e])[|front|].option == option;
    }
    if Sets(front, option) {
      var i :| 0 <= i < |front| && front[i].option == option;
      assert (front + [e])[i].option == option;
    }
  }

  lemma WinsOneMore(registry: map<string, Known>, front: seq<Entry>, e: Entry, option: string, value: string, k: int)
    requires option in registry && Wins(registry, front, option, value, k)
    requires forall i | 0 <= i < |front| :: front[i].section != e.section || front[i].option != e.option
    ensures if e.option == option && registry[option].section == e.section
            then Wins(registry, front + [e], option, e.Value(), |front|)
            else Wins(registry, front + [e], option, value, k)
  {
  }

  // ---- printing -----------------------------------------------------------

  function Continuations(parts: seq<string>): (r: seq<string>)
    ensures |r| == |parts| && forall i | 0 <= i < |r| :: r[i] == "  " + parts[i]
  {
    seq(|parts|, i requires 0 <= i < |parts| => "  " + parts[i])
  }

  /** `key = value`, with the further lines of the value indented. */
  function FormatOption(option: string, value: string): (r: seq<string>)
    ensures |r| > 0
  {
    var parts := Split(value);
    [Rstrip(option + " = " + parts[0])] + Continuations(parts[1..])
  }

  // ---- the rewrite --------------------------------------------------------

  /** The lines so far, the options already placed, and whether the example's value is being skipped. */
  datatype Walk = Walk(out: seq<string>, done: set<string>, skipping: bool, missing: seq<(string, string)>)

  const EMPTY := Walk([], {}, false, [])

  function CommentedDefault(rules: Rules, option: string, line: string): string
    requires option in rules.registry && rules.registry[option].default.Some?
  {
    if IsActive(line) then "# " + option + " = " + rules.registry[option].default.value else line
  }

  /** What replaces the first line that documents an option. */
  function Placement(rules: Rules, value: Option<string>, option: string, line: string): seq<string>
    requires option in rules.registry
  {
    var default := rules.registry[option].default;
    if default.None? then
      if value.None? then [line] else FormatOption(option, value.value)
    else if value.None? || ValueEqualsDefault(rules, value.value, default) then
      [CommentedDefault(rules, option, line)]
    else
      [CommentedDefault(rules, option, line)] + FormatOption(option, value.value)
  }

  function Step(rules: Rules, values: map<string, string>, w: Walk, line: string): Walk {
    if w.skipping && Indented(line) then w
    else
      var doc := Documented(rules, line);
      if doc.None? then w.(out := w.out + [line], skipping := false)
      else
        var option := doc.value;
        var value := if option in values then Some(values[option]) else None;
        if option in w.done then w.(out := if IsActive(line) then w.out else w.out + [line], skipping := IsActive(line))
        else Walk(
            w.out + Placement(rules, value, option, line),
            w.done + {option},
            IsActive(line),
            if rules.registry[option].default.None? && value.None? && IsActive(line)
            then w.missing + [(rules.registry[option].section, option)] else w.missing)
  }

  function Rewrite(rules: Rules, values: map<string, string>, example: seq<string>): Walk {
    if example == [] then EMPTY
    else Step(rules, values, Rewrite(rules, values, example[..|example| - 1]), example[|example| - 1])
  }

  datatype RewriteResult =
    RewriteResult(text: string, dropped: seq<(string, string)>, missingRequired: seq<(string, string)>)

  function Rewritten(rules: Rules, site: seq<Entry>, exampleText: string): RewriteResult {
    var w := Rewrite(rules, SiteValues(rules.registry, site), SplitLines(exampleText));
    RewriteResult(Text(w.out), Dropped(rules.registry, site), w.missing)
  }

  method PlaceOption(rules: Rules, value: Option<string>, option: string, line: string) returns (lines: seq<string>)
    requires option in rules.registry
    ensures lines == Placement(rules, value, option, line)
  {
    hide FormatOption, ValueEqualsDefault, IsActive;
    var default := rules.registry[option].default;
    if default.None? {
      if value.None? {
        return [line];
      }
      return FormatOption(option, value.value);
    }
    lines := [if IsActive(line) then "# " + option + " = " + default.value else line];
    if value.Some? && !ValueEqualsDefault(rules, value.value, default) {
      lines := lines + FormatOption(option, value.value);
    }
  }

  /** `rewrite_from_example`: line by line, mutating the output, the options done and the skipping flag. */
  method RewriteFromExample(rules: Rules, site: seq<Entry>, exampleText: string) returns (result: RewriteResult)
    ensures result == Rewritten(rules, site, exampleText)
  {
    var values, dropped := CollectSiteValues(site, rules.registry);
    var example := SplitLines(exampleText);
    var out, missing := RewriteLines(rules, values, example);
    result := RewriteResult(Text(out), dropped, missing);
  }

  method RewriteLines(rules: Rules, values: map<string, string>, example: seq<string>)
      returns (out: seq<string>, missing: seq<(string, string)>)
    ensures out == Rewrite(rules, values, example).out && missing == Rewrite(rules, values, example).missing
  {
    var done: set<string>, skipping := {}, false;
    out, missing := [], [];
    var i := 0;
    while i < |example|
      invariant 0 <= i <= |example|
      invariant Walk(out, done, skipping, missing) == Rewrite(rules, values, example[..i])
    {
      var line := example[i];
      OneMoreLine(rules, values, example, i);
      i := i + 1;
      if skipping && Indented(line) {
        continue;
      }
      skipping := false;
      var doc := Documented(rules, line);
      if doc.None? {
        out := out + [line];
        continue;
      }
      var option, active := doc.value, IsActive(line);
      skipping := active;
      if option in done {
        if !active {
          out := out + [line];
        }
        continue;
      }
      done := done + {option};
      var value := if option in values then Some(values[option]) else None;
      var lines := PlaceOption(rules, value, option, line);
      out := out + lines;
      if active && value.None? && rules.registry[option].default.None? {
        missing := missing + [(rules.registry[option].section, option)];
      }
    }
    assert example[..i] == example;
  }

  lemma OneMoreLine(rules: Rules, values: map<string, string>, example: seq<string>, i: nat)
    requires i < |example|
    ensures Rewrite(rules, values, example[..i + 1]) ==
        Step(rules, values, Rewrite(rules, values, example[..i]), example[i])
  {
    assert example[..i + 1][..i] == example[..i];
  }

  // ---- effective values ---------------------------------------------------

  /** The site's value, or the default when there is none or it says the same. */
  function EffectiveValue(rules: Rules, site: seq<Entry>, option: string): Option<string>
    requires option in rules.registry
  {
    var value, default := SiteValue(rules, site, option), rules.registry[option].default;
    if value.None? || ValueEqualsDefault(rules, value.value, default) then default else value
  }

  /** Registry options whose effective value the rewrite would change, missing required ones aside. */
  function ChangedEffectiveValues(rules: Rules, site: seq<Entry>, result: RewriteResult): Outcome<set<string>> {
    match Parsed(result.text)
    case Raised(e) => Raised(e)
    case Returned(after) =>
      Returned(set option | option in rules.registry &&
        EffectiveValue(rules, site, option) != EffectiveValue(rules, after, option) &&
        (rules.registry[option].section, option) !in result.missingRequired)
  }
}
