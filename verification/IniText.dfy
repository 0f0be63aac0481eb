/** The string operations the ini reader and the rewriter share: stripping, splitting and joining lines. */
module IniText {

  predicate IsSpace(c: char) {
    c == ' ' || c == '\t' || c == '\n' || c == '\r' || c == '\U{0B}' || c == '\U{0C}'
  }

  function Lstrip(s: string): (r: string)
    ensures r == [] || !IsSpace(r[0])
    ensures |r| <= |s| && r == s[|s| - |r|..]
    ensures forall i | 0 <= i < |s| - |r| :: IsSpace(s[i])
  {
    if s != [] && IsSpace(s[0]) then Lstrip(s[1..]) else s
  }

  function Rstrip(s: string): (r: string)
    ensures r == [] || !IsSpace(r[|r| - 1])
    ensures |r| <= |s| && r == s[..|r|]
    ensures forall i | |r| <= i < |s| :: IsSpace(s[i])
  {
    if s != [] && IsSpace(s[|s| - 1]) then Rstrip(s[..|s| - 1]) else s
  }

  function Strip(s: string): (r: string)
    ensures Stripped(r)
  {
    Rstrip(Lstrip(s))
  }

  /** Column of the first character that is not a space. */
  function Indent(s: string): nat {
    |s| - |Lstrip(s)|
  }

  predicate Stripped(s: string) {
    s == [] || (!IsSpace(s[0]) && !IsSpace(s[|s| - 1]))
  }

  lemma StripStripped(s: string)
    requires Stripped(s)
    ensures Strip(s) == s
  {
  }

  /** Only the white space after the last other character goes. */
  lemma {:induction false} RstripKeeps(s: string, t: string)
    requires s != [] && !IsSpace(s[|s| - 1])
    ensures Rstrip(s + t) == s + Rstrip(t)
    decreases |t|
  {
    if t == [] {
      assert s + t == s;
    } else {
      assert (s + t)[..|s + t| - 1] == s + t[..|t| - 1];
      if IsSpace(t[|t| - 1]) {
        RstripKeeps(s, t[..|t| - 1]);
      }
    }
  }

  // ---- lines --------------------------------------------------------------

  predicate OneLine(s: string) {
    '\n' !in s
  }

  predicate AllLines(lines: seq<string>) {
    forall i | 0 <= i < |lines| :: OneLine(lines[i])
  }

  /** `s.split("\n")` */
  function Split(s: string): (r: seq<string>)
    ensures |r| > 0 && AllLines(r)
  {
    if s == [] then [""]
    else
      var rest := Split(s[1..]);
      if s[0] == '\n' then [""] + rest else [[s[0]] + rest[0]] + rest[1..]
  }

  /** `"\n".join(lines)` */
  function Join(lines: seq<string>): string {
    if lines == [] then ""
    else if |lines| == 1 then lines[0]
    else lines[0] + "\n" + Join(lines[1..])
  }

  lemma {:induction false} JoinSplit(s: string)
    ensures Join(Split(s)) == s
  {
    if s != [] {
      var rest := Split(s[1..]);
      JoinSplit(s[1..]);
      if s[0] == '\n' {
        assert ([""] + rest)[1..] == rest;
      } else {
        var r := [[s[0]] + rest[0]] + rest[1..];
        if |rest| > 1 {
          assert r[1..] == rest[1..];
          assert ([s[0]] + rest[0]) + "\n" + Join(rest[1..]) == [s[0]] + (rest[0] + "\n" + Join(rest[1..]));
        }
      }
      assert s == [s[0]] + s[1..];
    }
  }

  lemma SplitCons(c: char, t: string)
    requires c != '\n'
    ensures Split([c] + t) == [[c] + Split(t)[0]] + Split(t)[1..]
  {
    assert ([c] + t)[1..] == t;
  }

  lemma {:induction false} SplitPrepend(s: string, t: string)
    requires OneLine(s)
    ensures Split(s + t) == [s + Split(t)[0]] + Split(t)[1..]
  {
    hide Split;
    var parts := Split(t);
    if s == [] {
      assert s + t == t && s + parts[0] == parts[0];
      assert parts == [parts[0]] + parts[1..];
    } else {
      SplitPrepend(s[1..], t);
      assert s + t == [s[0]] + (s[1..] + t);
      SplitCons(s[0], s[1..] + t);
      assert [s[0]] + (s[1..] + parts[0]) == s + parts[0];
    }
  }

  lemma {:induction false} SplitJoin(lines: seq<string>)
    requires lines != [] && AllLines(lines)
    ensures Split(Join(lines)) == lines
  {
    if |lines| == 1 {
      SplitPrepend(lines[0], "");
      assert lines[0] + "" == lines[0];
      assert lines == [lines[0]];
    } else {
      var rest := lines[1..];
      SplitJoin(rest);
      SplitPrepend(lines[0], "\n" + Join(rest));
      assert lines[0] + "\n" + Join(rest) == lines[0] + ("\n" + Join(rest));
      assert ("\n" + Join(rest))[1..] == Join(rest);
      assert Split("\n" + Join(rest)) == [""] + rest;
      assert ([""] + rest)[1..] == rest;
      assert lines[0] + "" == lines[0];
      assert lines == [lines[0]] + lines[1..];
    }
  }

  lemma {:induction false} JoinAppend(lines: seq<string>, last: string)
    requires lines != []
    ensures Join(lines + [last]) == Join(lines) + "\n" + last
  {
    if |lines| == 1 {
      assert (lines + [last])[1..] == [last];
    } else {
      JoinAppend(lines[1..], last);
      assert (lines + [last])[1..] == lines[1..] + [last];
      assert lines[0] + "\n" + (Join(lines[1..]) + "\n" + last) == (lines[0] + "\n" + Join(lines[1..])) + "\n" + last;
    }
  }

  /** The lines of a file: the newline at its end starts no further line. */
  function SplitLines(text: string): (r: seq<string>)
    ensures AllLines(r)
  {
    var r := Split(text);
    if r[|r| - 1] == "" then r[..|r| - 1] else r
  }

  /** `"\n".join(lines) + "\n"` */
  function Text(lines: seq<string>): string {
    Join(lines) + "\n"
  }

  /** Writing lines and reading them back. */
  lemma SplitLinesText(lines: seq<string>)
    requires lines != [] && AllLines(lines)
    ensures SplitLines(Text(lines)) == lines
  {
    JoinAppend(lines, "");
    assert Join(lines) + "\n" + "" == Text(lines);
    SplitJoin(lines + [""]);
    assert (lines + [""])[..|lines|] == lines;
  }

  // ---- multi-line values --------------------------------------------------

  /** A trailing empty line is lost when a value is read. */
  lemma TrailingBlank(lines: seq<string>)
    requires lines != []
    ensures Rstrip(Join(lines + [""])) == Rstrip(Join(lines))
  {
    JoinAppend(lines, "");
    var s := Join(lines);
    assert s + "\n" + "" == s + "\n";
    assert (s + "\n")[..|s|] == s;
  }

  predicate CommentStart(s: string) {
    s != [] && (s[0] == '#' || s[0] == ';')
  }

  /** The lines of a value as the parser collects them: stripped, and only the first may look like a comment. */
  predicate ValueLines(lines: seq<string>) {
    && lines != [] && AllLines(lines)
    && (forall i | 0 <= i < |lines| :: Stripped(lines[i]))
    && (forall i | 1 <= i < |lines| :: !CommentStart(lines[i]))
  }

  /** A value that can be written in a file and read back. */
  predicate Printable(value: string) {
    ValueLines(Split(value)) && Rstrip(value) == value
  }

  /** Whatever lines the parser collected, the value it makes of them is printable. */
  lemma {:induction false} CollectedIsPrintable(lines: seq<string>)
    requires ValueLines(lines)
    ensures Printable(Rstrip(Join(lines)))
    decreases |lines|
  {
    var front, last := lines[..|lines| - 1], lines[|lines| - 1];
    assert lines == front + [last];
    if |lines| == 1 {
      SplitJoin(lines);
      assert Rstrip(last) == last;
    } else if last == "" {
      CollectedIsPrintable(front);
      TrailingBlank(front);
    } else {
      SplitJoin(lines);
      JoinAppend(front, last);
      var v := Join(lines);
      assert v == Join(front) + "\n" + last;
      assert v[|v| - 1] == last[|last| - 1];
      assert Rstrip(v) == v;
    }
  }
}
