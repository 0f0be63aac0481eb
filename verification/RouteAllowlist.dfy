/** From Django route templates to the shortest list of nginx `^~` prefixes that covers them. */
module RouteAllowlist {
  import opened Wrappers
  import opened SortedSets

  const API_PREFIX := "api/"

  // ---- one template -------------------------------------------------------

  /** `<[^>]+>` matches at `i`. */
  predicate ConverterAt(t: string, i: nat) {
    i + 1 < |t| && t[i] == '<' && t[i + 1] != '>' && '>' in t[i + 1..]
  }

  /** The regular expression in so many words: `<`, at least one character that is not `>`, then `>`. */
  lemma ConverterAtIff(t: string, i: nat)
    ensures ConverterAt(t, i) <==> exists j :: i + 1 < j < |t| && ConverterBetween(t, i, j)
  {
    if ConverterAt(t, i) {
      var j := ConverterEnd(t, i + 1);
      assert ConverterBetween(t, i, j);
    }
    if j :| i + 1 < j < |t| && ConverterBetween(t, i, j) {
      assert t[i + 1..][j - i - 1] == '>';
    }
  }

  predicate ConverterBetween(t: string, i: nat, j: nat)
    requires i + 1 < j < |t|
  {
    t[i] == '<' && t[j] == '>' && forall k | i < k < j :: t[k] != '>'
  }

  /** The leftmost match, searching from `i`. */
  function FirstConverter(t: string, i: nat): (r: Option<nat>)
    ensures r.Some? ==> i <= r.value && ConverterAt(t, r.value)
    ensures r.Some? ==> forall k: nat | i <= k < r.value :: !ConverterAt(t, k)
    ensures r.None? ==> forall k: nat | i <= k :: !ConverterAt(t, k)
    decreases |t| - i
  {
    if i >= |t| then None else if ConverterAt(t, i) then Some(i) else FirstConverter(t, i + 1)
  }

  function Rooted(raw: string): string {
    if raw != [] && raw[0] == '/' then raw else "/" + raw
  }

  function Closed(p: string): string
    requires p != []
  {
    if p[|p| - 1] == '/' then p else p + "/"
  }

  function TemplateToLocationPrefix(t: string): string {
    var converter := FirstConverter(t, 0);
    if converter.Some? then Closed(Rooted(t[..converter.value])) else Rooted(t)
  }

  /** The index of the `>` that closes the converter at `i`. */
  function ConverterEnd(t: string, i: nat): (r: nat)
    requires i < |t| && '>' in t[i..]
    ensures i <= r < |t| && t[r] == '>' && forall k | i <= k < r :: t[k] != '>'
    decreases |t| - i
  {
    if t[i] == '>' then i else
      assert t[i..] == [t[i]] + t[i + 1..];
      ConverterEnd(t, i + 1)
  }

  /** The template with every converter replaced by some non-empty text. */
  ghost predicate IsUrlOf(t: string, url: string)
    decreases |t|
  {
    var converter := FirstConverter(t, 0);
    if converter.None? then url == t
    else
      var k := converter.value;
      var rest := t[ConverterEnd(t, k + 1) + 1..];
      k < |url| && url[..k] == t[..k] && exists v | k < v <= |url| :: IsUrlOf(rest, url[v..])
  }

  /** `raw/` is a prefix of a text that starts with `raw` exactly when a slash follows. */
  lemma ClosedPrefixIff(raw: string, url: string)
    requires raw != [] && |raw| < |url| && url[..|raw|] == raw
    ensures Closed(raw) <= url <==> raw[|raw| - 1] == '/' || url[|raw|] == '/'
  {
    if raw[|raw| - 1] != '/' {
      assert url[..|raw| + 1] == raw + [url[|raw|]];
      assert (raw + "/")[|raw|] == '/';
    }
  }

  predicate IsApi(t: string) {
    API_PREFIX <= t
  }

  lemma ApiText(t: string)
    requires IsApi(t)
    ensures |t| >= 4 && t[0] == 'a' && t[3] == '/'
    ensures forall k: nat | ConverterAt(t, k) :: k >= 4
  {
    assert t[0] == API_PREFIX[0] && t[1] == API_PREFIX[1] && t[2] == API_PREFIX[2] && t[3] == API_PREFIX[3];
  }

  /**
   The prefix of a template matches one of its URLs when the template has no converter; otherwise
   exactly when the first converter starts a path segment, or the text put in its place begins with a
   slash.
   */
  lemma OwnPrefixMatchesIff(t: string, url: string)
    requires IsApi(t) && IsUrlOf(t, url)
    ensures var converter := FirstConverter(t, 0);
      TemplateToLocationPrefix(t) <= "/" + url <==>
        converter.None? || t[converter.value - 1] == '/' || url[converter.value] == '/'
  {
    ApiText(t);
    var converter := FirstConverter(t, 0);
    if converter.Some? {
      var k := converter.value;
      var raw := t[..k];
      assert Rooted(raw) == "/" + raw;
      assert ("/" + url)[..k + 1] == "/" + raw;
      ClosedPrefixIff("/" + raw, "/" + url);
    }
  }

  // ---- sorting ------------------------------------------------------------

  /** Code point order of strings. */
  predicate LexLe(a: string, b: string) {
    a == [] || (b != [] && (a[0] < b[0] || (a[0] == b[0] && LexLe(a[1..], b[1..]))))
  }

  /** The order in so many words: a prefix comes first, else the first difference decides. */
  lemma {:induction false} LexLeIff(a: string, b: string)
    ensures LexLe(a, b) <==>
      a <= b || exists k: nat :: k < |a| && k < |b| && a[..k] == b[..k] && a[k] < b[k]
  {
    if a != [] && b != [] {
      var (x, y) := (a[1..], b[1..]);
      LexLeIff(x, y);
      if a[0] == b[0] {
        assert a <= b <==> x <= y;
        if k: nat :| k < |x| && k < |y| && x[..k] == y[..k] && x[k] < y[k] {
          assert a[..k + 1] == [a[0]] + x[..k] && b[..k + 1] == [b[0]] + y[..k];
          assert a[k + 1] < b[k + 1];
        }
        if k: nat :| k < |a| && k < |b| && a[..k] == b[..k] && a[k] < b[k] {
          assert k > 0;
          assert x[..k - 1] == a[..k][1..] && y[..k - 1] == b[..k][1..];
          assert x[k - 1] < y[k - 1];
        }
      } else {
        assert a[..0] == b[..0];
        if k: nat :| k < |a| && k < |b| && a[..k] == b[..k] && a[k] < b[k] {
          assert k > 0 ==> a[..k][0] == b[..k][0];
        }
      }
    }
  }

  lemma {:induction false} LexTotal(a: string, b: string)
    ensures LexLe(a, b) || LexLe(b, a)
    ensures LexLe(a, b) && LexLe(b, a) ==> a == b
  {
    if a != [] && b != [] {
      LexTotal(a[1..], b[1..]);
      assert a == [a[0]] + a[1..] && b == [b[0]] + b[1..];
    }
  }

  lemma {:induction false} LexTransitive(a: string, b: string, c: string)
    requires LexLe(a, b) && LexLe(b, c)
    ensures LexLe(a, c)
  {
    if a != [] && a[0] == b[0] == c[0] {
      LexTransitive(a[1..], b[1..], c[1..]);
    }
  }

  /** The order of `sorted` with the length as the first key. */
  predicate ShorterLe(a: string, b: string) {
    if |a| != |b| then |a| < |b| else LexLe(a, b)
  }

  lemma StringsAreOrdered()
    ensures IsOrder(LexLe) && IsOrder(ShorterLe)
  {
    forall a: string, b: string ensures LexLe(a, b) || LexLe(b, a) {
      LexTotal(a, b);
    }
    forall a: string, b: string | LexLe(a, b) && LexLe(b, a) ensures a == b {
      LexTotal(a, b);
    }
    forall a: string, b: string, c: string | LexLe(a, b) && LexLe(b, c) ensures LexLe(a, c) {
      LexTransitive(a, b, c);
    }
  }

  // ---- the allowlist ------------------------------------------------------

  function Generated(templates: seq<string>): set<string> {
    set t | t in templates && IsApi(t) :: TemplateToLocationPrefix(t)
  }

  /** No shorter member of the set is a prefix of it. */
  predicate Minimal(p: string, prefixes: set<string>) {
    p in prefixes && forall q | q in prefixes && q <= p :: q == p
  }

  function MinimalOf(prefixes: set<string>): set<string> {
    set p | p in prefixes && Minimal(p, prefixes)
  }

  /** Every generated prefix has a minimal one below it. */
  lemma {:induction false} MinimalBelow(prefixes: set<string>, p: string) returns (q: string)
    requires p in prefixes
    ensures q in MinimalOf(prefixes) && q <= p
    decreases |p|
  {
    q := p;
    if !Minimal(p, prefixes) {
      var shorter :| shorter in prefixes && shorter <= p && shorter != p;
      q := MinimalBelow(prefixes, shorter);
    }
  }

  function Elements(s: seq<string>): set<string> {
    set x | x in s
  }

  predicate Matches(prefixes: set<string>, uri: string) {
    exists p | p in prefixes :: p <= uri
  }

  /** Keeping only the minimal prefixes changes nothing for any URI, and no smaller subset would do. */
  lemma MinimalPrefixesMatchTheSame(prefixes: set<string>, uri: string)
    ensures Matches(MinimalOf(prefixes), uri) <==> Matches(prefixes, uri)
    ensures forall p | p in MinimalOf(prefixes) :: !Matches(MinimalOf(prefixes) - {p}, p)
  {
    if Matches(prefixes, uri) {
      var p :| p in prefixes && p <= uri;
      var q := MinimalBelow(prefixes, p);
    }
  }

  /** Shortest first, drop what an already kept prefix covers: exactly the minimal prefixes are left. */
  method KeepUncovered(prefixes: set<string>) returns (kept: seq<string>)
    ensures Elements(kept) == MinimalOf(prefixes)
  {
    hide LexLe, ShorterLe, IsOrder;
    StringsAreOrdered();
    var ordered := Sorted(prefixes, ShorterLe);
    kept := [];
    for i := 0 to |ordered|
      invariant forall k | k in kept :: Minimal(k, prefixes)
      invariant forall j | 0 <= j < i :: Matches(Elements(kept), ordered[j])
    {
      var prefix := ordered[i];
      if !Matches(Elements(kept), prefix) {
        FirstUncoveredIsMinimal(prefixes, ordered, i, Elements(kept));
        assert Elements(kept + [prefix]) == Elements(kept) + {prefix};
        kept := kept + [prefix];
      }
    }
    forall p | Minimal(p, prefixes) ensures p in kept {
      assert p in ordered;
      var j :| 0 <= j < |ordered| && ordered[j] == p;
      assert Matches(Elements(kept), ordered[j]);
    }
  }

  /**
   Shortest first, drop what an already kept prefix covers, sort what is left. The result is exactly
   the minimal generated prefixes in code point order, so it depends on the set of `api/` templates only.
   */
  method LocationPrefixesFromApiTemplates(templates: seq<string>) returns (result: seq<string>)
    ensures IsOrder(LexLe) && result == Sorted(MinimalOf(Generated(templates)), LexLe)
    ensures forall i, j | 0 <= i < j < |result| :: LexLe(result[i], result[j]) && !(result[i] <= result[j])
    ensures forall uri :: Matches(Elements(result), uri) <==> Allowed(templates, uri)
  {
    hide LexLe, IsOrder, TemplateToLocationPrefix, MinimalOf, LiteralBelow, FirstConverter, Allowed;
    var prefixes: set<string> := {};
    for i := 0 to |templates|
      invariant prefixes == Generated(templates[..i])
    {
      assert templates[..i + 1] == templates[..i] + [templates[i]];
      if IsApi(templates[i]) {
        prefixes := prefixes + {TemplateToLocationPrefix(templates[i])};
      }
    }
    assert templates[..|templates|] == templates;
    var kept := KeepUncovered(prefixes);
    StringsAreOrdered();
    result := Sorted(Elements(kept), LexLe);
    assert Elements(result) == MinimalOf(Generated(templates));
    forall uri ensures Matches(Elements(result), uri) <==> Allowed(templates, uri) {
      AllowedIff(templates, uri);
    }
    forall i, j | 0 <= i < j < |result| ensures !(result[i] <= result[j]) {
      MinimalAreApart(Generated(templates), result[i], result[j]);
    }
  }

  lemma MinimalAreApart(prefixes: set<string>, p: string, q: string)
    requires p in MinimalOf(prefixes) && q in MinimalOf(prefixes) && p != q
    ensures !(p <= q)
  {
  }

  lemma FirstUncoveredIsMinimal(prefixes: set<string>, ordered: seq<string>, i: nat, kept: set<string>)
    requires i < |ordered| && Ascending(ordered, ShorterLe) && (forall x :: x in ordered <==> x in prefixes)
    requires forall j | 0 <= j < i :: Matches(kept, ordered[j])
    requires !Matches(kept, ordered[i])
    ensures Minimal(ordered[i], prefixes)
  {
    var p := ordered[i];
    assert p in ordered;
    CoverageGoesUp(kept, p);
    forall q | q in prefixes && q <= p ensures q == p {
      var j :| 0 <= j < |ordered| && ordered[j] == q;
      assert i == j || ShorterLe(ordered[i], ordered[j]);
      assert |p| <= |q|;
    }
  }

  lemma CoverageGoesUp(kept: set<string>, p: string)
    ensures forall q | q <= p && Matches(kept, q) :: Matches(kept, p)
  {
    forall q | q <= p && Matches(kept, q) ensures Matches(kept, p) {
      var k :| k in kept && k <= q;
      assert k <= p;
    }
  }

  /**
   The literal text of a template lies below the URI: the whole template without a converter, otherwise
   the text before the first one, closed by a slash.
   */
  predicate LiteralBelow(t: string, uri: string)
    requires IsApi(t)
  {
    match FirstConverter(t, 0)
    case None => "/" + t <= uri
    case Some(k) => "/" + t[..k] <= uri && ((k > 0 && t[k - 1] == '/') || (k + 1 < |uri| && uri[k + 1] == '/'))
  }

  /** The literal text of some `api/` template lies below the URI. */
  predicate Allowed(templates: seq<string>, uri: string) {
    exists t | t in templates && IsApi(t) :: LiteralBelow(t, uri)
  }

  lemma PrefixIsLiteral(t: string, uri: string)
    requires IsApi(t)
    ensures TemplateToLocationPrefix(t) <= uri <==> LiteralBelow(t, uri)
  {
    ApiText(t);
    var converter := FirstConverter(t, 0);
    if converter.Some? {
      var raw := "/" + t[..converter.value];
      assert Rooted(t[..converter.value]) == raw && |raw| == converter.value + 1;
      if raw <= uri && |raw| < |uri| {
        ClosedPrefixIff(raw, uri);
      }
      if raw == uri {
        assert raw <= uri && |raw + "/"| > |uri|;
      }
      if Closed(raw) <= uri {
        assert raw <= Closed(raw) && raw == uri[..|raw|];
      }
    }
  }

  /** Exactly the URIs above the literal text of some `api/` template are let through; all others are rejected. */
  lemma AllowedIff(templates: seq<string>, uri: string)
    ensures Matches(MinimalOf(Generated(templates)), uri) <==> Allowed(templates, uri)
  {
    MinimalPrefixesMatchTheSame(Generated(templates), uri);
    if p :| p in Generated(templates) && p <= uri {
      var t :| t in templates && IsApi(t) && TemplateToLocationPrefix(t) == p;
      PrefixIsLiteral(t, uri);
    }
    if t :| t in templates && IsApi(t) && LiteralBelow(t, uri) {
      PrefixIsLiteral(t, uri);
      assert TemplateToLocationPrefix(t) in Generated(templates);
    }
  }

  /** Template order and duplicates do not matter, and non-`api/` templates are ignored. */
  lemma OnlyTheApiTemplatesMatter(a: seq<string>, b: seq<string>)
    requires forall t | IsApi(t) :: t in a <==> t in b
    ensures Generated(a) == Generated(b)
  {
    forall p | p in Generated(a) ensures p in Generated(b) {
      var t :| t in a && IsApi(t) && TemplateToLocationPrefix(t) == p;
    }
    forall p | p in Generated(b) ensures p in Generated(a) {
      var t :| t in b && IsApi(t) && TemplateToLocationPrefix(t) == p;
    }
  }

  /** Every URL of a template whose converters start a path segment is let through. */
  lemma SegmentTemplatesAreCovered(templates: seq<string>, t: string, url: string)
    requires t in templates && IsApi(t) && IsUrlOf(t, url)
    requires var converter := FirstConverter(t, 0); converter.None? || (ApiText(t); t[converter.value - 1] == '/')
    ensures Matches(MinimalOf(Generated(templates)), "/" + url)
  {
    OwnPrefixMatchesIff(t, url);
    assert TemplateToLocationPrefix(t) in Generated(templates);
    MinimalPrefixesMatchTheSame(Generated(templates), "/" + url);
  }

  /** A converter inside a segment is not covered by its own prefix: `api/v<n>/` yields `/api/v/`, which rejects
      `/api/v1/`. */
  lemma MidSegmentConverterIsRejected() returns (t: string, url: string)
    ensures IsApi(t) && IsUrlOf(t, url)
    ensures !Matches(MinimalOf(Generated([t])), "/" + url)
  {
    t, url := "api/v<n>/", "api/v1/";
    assert t[..4] == API_PREFIX;
    assert t[5..] == "<n>/" && '>' in t[6..] by {
      assert t[7] == '>';
    }
    assert ConverterAt(t, 5);
    forall k: nat | k < 5 ensures !ConverterAt(t, k) {
      assert t[k] != '<';
    }
    assert FirstConverter(t, 0) == Some(5);
    assert ConverterEnd(t, 6) == 7;
    assert t[8..] == "/" && url[6..] == "/";
    assert IsUrlOf("/", "/");
    assert url[..5] == t[..5];
    OwnPrefixMatchesIff(t, url);
    assert Generated([t]) == {TemplateToLocationPrefix(t)};
    MinimalPrefixesMatchTheSame(Generated([t]), "/" + url);
  }
}
