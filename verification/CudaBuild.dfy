/** Text the CUDA build script reads and writes: lists of architectures, and strings in the way JSON has them. */
module CudaBuild {
  import Orders

  const U16_MAX := 65535

  // ------------------------------------------------------------------------------------------
  // Splitting, joining and trimming
  // ------------------------------------------------------------------------------------------

  function Split(s: string, sep: char): (r: seq<string>)
    ensures r != []
  {
    if s == "" then [""]
    else
      var rest := Split(s[1..], sep);
      if s[0] == sep then [""] + rest else [[s[0]] + rest[0]] + rest[1..]
  }

  function Join(parts: seq<string>, sep: char): string {
    if parts == [] then "" else if |parts| == 1 then parts[0] else parts[0] + [sep] + Join(parts[1..], sep)
  }

  lemma SplitWord(word: string, sep: char)
    requires sep !in word
    ensures Split(word, sep) == [word]
  {
    if word != "" {
      assert word == [word[0]] + word[1..];
      SplitWord(word[1..], sep);
    }
  }

  lemma {:induction false} SplitAt(word: string, sep: char, rest: string)
    requires sep !in word
    ensures Split(word + [sep] + rest, sep) == [word] + Split(rest, sep)
  {
    if word == "" {
      assert "" + [sep] + rest == [sep] + rest && ([sep] + rest)[1..] == rest;
    } else {
      SplitAt(word[1..], sep, rest);
      assert (word + [sep] + rest)[1..] == word[1..] + [sep] + rest;
      assert word == [word[0]] + word[1..];
    }
  }

  /** Splitting undoes joining, when no part holds the separator. */
  lemma {:induction false} SplitUndoesJoin(parts: seq<string>, sep: char)
    requires parts != [] && forall p :: p in parts ==> sep !in p
    ensures Split(Join(parts, sep), sep) == parts
  {
    if |parts| == 1 {
      SplitWord(parts[0], sep);
    } else {
      SplitUndoesJoin(parts[1..], sep);
      SplitAt(parts[0], sep, Join(parts[1..], sep));
      assert parts == [parts[0]] + parts[1..];
    }
  }

  lemma {:induction false} JoinUndoesSplit(s: string, sep: char)
    ensures Join(Split(s, sep), sep) == s
  {
    if s != "" {
      JoinUndoesSplit(s[1..], sep);
      var rest := Split(s[1..], sep);
      assert s == [s[0]] + s[1..];
      if s[0] == sep {
        assert ([""] + rest)[1..] == rest;
      } else {
        assert ([[s[0]] + rest[0]] + rest[1..])[1..] == rest[1..];
      }
    }
  }

  /** Unicode white space. */
  predicate White(c: char) {
    var n := c as int;
    || 9 <= n <= 13 || n == 0x20 || n == 0x85 || n == 0xa0 || n == 0x1680 || 0x2000 <= n <= 0x200a
    || n == 0x2028 || n == 0x2029 || n == 0x202f || n == 0x205f || n == 0x3000
  }

  function TrimStart(s: string): string {
    if s != "" && White(s[0]) then TrimStart(s[1..]) else s
  }

  function TrimEnd(s: string): string {
    if s != "" && White(s[|s| - 1]) then TrimEnd(s[..|s| - 1]) else s
  }

  function Trim(s: string): string {
    TrimEnd(TrimStart(s))
  }

  /** Blanks, tabs and line breaks are white; no visible ASCII character is. */
  lemma WhiteIs(c: char)
    ensures c == ' ' || c == '\t' || c == '\n' || c == '\r' ==> White(c)
    ensures 0x21 <= c as int <= 0x7e ==> !White(c)
  {
  }

  lemma {:induction false} TrimEndIs(s: string)
    ensures TrimEnd(s) <= s && forall i :: |TrimEnd(s)| <= i < |s| ==> White(s[i])
    ensures TrimEnd(s) != "" ==> !White(TrimEnd(s)[|TrimEnd(s)| - 1])
  {
    hide White;
    if s != "" && White(s[|s| - 1]) { TrimEndIs(s[..|s| - 1]); }
  }

  /** Trimming takes white space off both ends, all of it and nothing else. */
  lemma {:induction false} TrimIs(s: string) returns (i: nat)
    ensures var t := Trim(s);
      && i + |t| <= |s| && s[i..i + |t|] == t
      && (forall k :: 0 <= k < i || i + |t| <= k < |s| ==> White(s[k]))
      && (t != "" ==> !White(t[0]) && !White(t[|t| - 1]))
  {
    hide White;
    if s != "" && White(s[0]) {
      var k := TrimIs(s[1..]);
      i := k + 1;
      assert Trim(s) == Trim(s[1..]);
      hide TrimStart, TrimEnd;
      var t := Trim(s);
      assert s == [s[0]] + s[1..];
      assert s[i..i + |t|] == s[1..][k..k + |t|];
      assert forall n :: 0 < n < |s| ==> s[n] == s[1..][n - 1];
    } else {
      i := 0;
      TrimEndIs(s);
    }
  }

  // ------------------------------------------------------------------------------------------
  // Decimal numbers
  // ------------------------------------------------------------------------------------------

  predicate IsDigit(c: char) { '0' <= c <= '9' }

  predicate AllDigits(s: string) {
    forall i :: 0 <= i < |s| ==> IsDigit(s[i])
  }

  function Value(s: string): nat
    requires AllDigits(s)
  {
    if s == "" then 0 else 10 * Value(s[..|s| - 1]) + (s[|s| - 1] as int - '0' as int)
  }

  function Digit(n: nat): char
    requires n < 10
  {
    ('0' as int + n) as char
  }

  function Decimal(n: nat): (s: string)
    ensures s != "" && AllDigits(s)
  {
    if n < 10 then [Digit(n)] else Decimal(n / 10) + [Digit(n % 10)]
  }

  lemma {:induction false} DecimalHasValue(n: nat)
    ensures Value(Decimal(n)) == n
  {
    if n < 10 {
      assert [Digit(n)][..0] == "";
    } else {
      DecimalHasValue(n / 10);
      assert (Decimal(n / 10) + [Digit(n % 10)])[..|Decimal(n / 10)|] == Decimal(n / 10);
    }
  }

  /** A known number, in both directions. */
  lemma KnownNumber()
    ensures Decimal(120) == "120" && AllDigits("120") && Value("120") == 120
  {
    assert Decimal(1) == "1" && Decimal(12) == "12";
    assert "120"[..2] == "12" && "12"[..1] == "1" && "1"[..0] == "";
    assert Value("1") == 1 && Value("12") == 12;
  }

  lemma DigitsAreNotTrimmed(s: string)
    requires AllDigits(s)
    ensures Trim(s) == s
  {
  }

  // ------------------------------------------------------------------------------------------
  // Cross-release architectures
  // ------------------------------------------------------------------------------------------

  datatype Parse =
      Ok(architectures: seq<nat>) | Malformed(token: string) | TooLarge(token: string) | Zero(token: string) | Nothing

  /** The architecture a token of the list names, if it names one. */
  ghost predicate Names(token: string, architecture: nat) {
    var t := Trim(token);
    t != "" && AllDigits(t) && Value(t) == architecture && 1 <= architecture <= U16_MAX
  }

  ghost predicate IsArchitecture(token: string) {
    exists x :: Names(token, x)
  }

  /** One of the first k tokens names it. */
  ghost predicate Named(tokens: seq<string>, k: nat, x: nat) {
    exists i :: 0 <= i < k && i < |tokens| && Names(tokens[i], x)
  }

  predicate IntLeq(a: nat, b: nat) { a <= b }

  lemma IntLeqIsTotalOrder()
    ensures Orders.TotalOrder(IntLeq)
  {
  }

  /** The set of what a list of tokens names, in ascending order. */
  ghost predicate ListsExactly(tokens: seq<string>, xs: seq<nat>) {
    && Orders.Ascending(xs) && (forall x :: x in xs <==> Named(tokens, |tokens|, x))
    && (forall i :: 0 <= i < |tokens| ==> IsArchitecture(tokens[i]))
  }

  method SortedSet(s: set<nat>) returns (xs: seq<nat>)
    ensures Orders.Ascending(xs) && forall x :: x in xs <==> x in s
  {
    IntLeqIsTotalOrder();
    xs := Orders.SortMembers(IntLeq, s);
    forall i, j | 0 <= i < j < |xs| ensures xs[i] < xs[j] {
      assert IntLeq(xs[i], xs[j]);
    }
  }

  method ParseToken(token: string) returns (p: Parse)
    ensures p.Ok? ==> p.architectures != [] && Names(token, p.architectures[0])
    ensures p.Ok? <==> IsArchitecture(token)
    ensures p.TooLarge? ==> AllDigits(Trim(token)) && Value(Trim(token)) > U16_MAX
    ensures p.Zero? ==> AllDigits(Trim(token)) && Value(Trim(token)) == 0
    ensures !p.Nothing?
  {
    var t := Trim(token);
    if t == "" || !AllDigits(t) { return Malformed(token); }
    if Value(t) > U16_MAX { return TooLarge(token); }
    if Value(t) == 0 { return Zero(token); }
    assert Names(token, Value(t));
    return Ok([Value(t)]);
  }

  lemma NamesOne(token: string, x: nat, y: nat)
    requires Names(token, x) && Names(token, y)
    ensures x == y
  {
  }

  /** Every token must name an architecture; the result is their set in ascending order. */
  method ParseCrossRelease(raw: string) returns (p: Parse)
    ensures p.Ok? ==> ListsExactly(Split(raw, ';'), p.architectures) && p.architectures != []
    ensures !p.Ok? ==> exists i :: 0 <= i < |Split(raw, ';')| && !IsArchitecture(Split(raw, ';')[i])
  {
    hide Names, Split, Trim, IsArchitecture, Named;
    var tokens := Split(raw, ';');
    if Trim(raw) == "" {
      BlankNamesNothing(raw);
      return Malformed(raw);
    }
    var found: set<nat> := {};
    NothingNamed(tokens);
    for i := 0 to |tokens|
      invariant forall x :: x in found <==> Named(tokens, i, x)
      invariant forall k :: 0 <= k < i ==> IsArchitecture(tokens[k])
    {
      var one := ParseToken(tokens[i]);
      if !one.Ok? { return one; }
      NamedNext(tokens, i, one.architectures[0]);
      found := found + {one.architectures[0]};
    }
    var sorted := SortedSet(found);
    SomethingNamed(tokens, sorted);
    return Ok(sorted);
  }

  lemma NothingNamed(tokens: seq<string>)
    ensures forall x :: !Named(tokens, 0, x)
  {
  }

  lemma NamedNext(tokens: seq<string>, i: nat, architecture: nat)
    requires i < |tokens| && Names(tokens[i], architecture)
    ensures forall x :: Named(tokens, i + 1, x) <==> Named(tokens, i, x) || x == architecture
  {
    forall x | Names(tokens[i], x) ensures x == architecture { NamesOne(tokens[i], x, architecture); }
    hide Names;
    forall x ensures Named(tokens, i + 1, x) <==> Named(tokens, i, x) || x == architecture {
      assert x == architecture ==> Names(tokens[i], x);
    }
  }

  lemma SomethingNamed(tokens: seq<string>, sorted: seq<nat>)
    requires tokens != [] && IsArchitecture(tokens[0]) && forall x :: x in sorted <==> Named(tokens, |tokens|, x)
    ensures sorted != []
  {
    hide Names;
    var x :| Names(tokens[0], x);
    assert x in sorted;
  }

  lemma {:induction false} BlankTrims(s: string)
    requires Trim(s) == ""
    ensures forall i :: 0 <= i < |s| ==> White(s[i])
  {
    if s != "" {
      if White(s[0]) {
        BlankTrims(s[1..]);
        assert forall i :: 0 <= i < |s[1..]| ==> s[1..][i] == s[i + 1];
      } else {
        FirstStays(s);
      }
    }
  }

  lemma {:induction false} FirstStays(s: string)
    requires s != "" && !White(s[0])
    ensures TrimEnd(s) != ""
  {
    if White(s[|s| - 1]) { FirstStays(s[..|s| - 1]); }
  }

  lemma {:induction false} BlankIsTrimmed(s: string)
    requires forall i :: 0 <= i < |s| ==> White(s[i])
    ensures Trim(s) == ""
  {
    if s != "" { BlankIsTrimmed(s[1..]); }
  }

  /** The check for a blank list refuses nothing its tokens would not. */
  lemma BlankNamesNothing(raw: string)
    requires Trim(raw) == ""
    ensures 0 < |Split(raw, ';')| && !IsArchitecture(Split(raw, ';')[0])
  {
    BlankTrims(raw);
    FirstPiece(raw);
    BlankIsTrimmed(Split(raw, ';')[0]);
  }

  lemma {:induction false} FirstPiece(s: string)
    ensures Split(s, ';')[0] <= s
  {
    if s != "" { FirstPiece(s[1..]); }
  }

  /** What the build emits: the architectures in decimal, joined with semicolons. */
  function Rendered(xs: seq<nat>): string {
    Join(Decimals(xs), ';')
  }

  function Decimals(xs: seq<nat>): (r: seq<string>)
    ensures |r| == |xs| && forall i :: 0 <= i < |xs| ==> r[i] == Decimal(xs[i])
  {
    seq(|xs|, i requires 0 <= i < |xs| => Decimal(xs[i]))
  }

  lemma DecimalNames(n: nat, x: nat)
    ensures Names(Decimal(n), x) <==> x == n && 1 <= n <= 65535
  {
    DecimalHasValue(n);
    DigitsAreNotTrimmed(Decimal(n));
  }

  lemma DigitsHoldNoSeparator(s: string)
    requires AllDigits(s)
    ensures ';' !in s && '.' !in s && '\n' !in s
  {
  }

  /** The emitted list reads back as itself, for every plan: ascending, positive, in sixteen bits. */
  lemma EmittedListRoundTrips(xs: seq<nat>, ys: seq<nat>)
    requires xs != [] && Orders.Ascending(xs) && forall i :: 0 <= i < |xs| ==> 1 <= xs[i] <= 65535
    ensures ListsExactly(Split(Rendered(xs), ';'), ys) <==> ys == xs
  {
    hide Names, Split, Join, Trim;
    var tokens := Decimals(xs);
    forall t | t in tokens ensures ';' !in t {
      DigitsHoldNoSeparator(t);
    }
    SplitUndoesJoin(tokens, ';');
    forall i, x | 0 <= i < |xs| ensures Names(tokens[i], x) <==> x == xs[i] {
      DecimalNames(xs[i], x);
    }
    hide Decimals, Decimal;
    ListedThemselves(tokens, xs);
    hide ListsExactly, Named, IsArchitecture;
    if ListsExactly(tokens, ys) {
      SameList(tokens, xs, ys);
    }
  }

  lemma ListedThemselves(tokens: seq<string>, xs: seq<nat>)
    requires |tokens| == |xs| && Orders.Ascending(xs)
        && forall i, x :: 0 <= i < |xs| ==> (Names(tokens[i], x) <==> x == xs[i])
    ensures ListsExactly(tokens, xs)
  {
    hide Names;
    forall i | 0 <= i < |tokens| ensures IsArchitecture(tokens[i]) {
      assert Names(tokens[i], xs[i]);
    }
    forall x ensures x in xs <==> Named(tokens, |tokens|, x) {
      if x in xs {
        var i :| 0 <= i < |xs| && xs[i] == x;
        assert Names(tokens[i], x);
      }
    }
  }

  lemma SameList(tokens: seq<string>, xs: seq<nat>, ys: seq<nat>)
    requires ListsExactly(tokens, xs) && ListsExactly(tokens, ys)
    ensures xs == ys
  {
    hide Named, IsArchitecture;
    forall x ensures x in xs <==> x in ys {
      assert x in xs <==> Named(tokens, |tokens|, x);
    }
    Orders.AscendingIsUnique(xs, ys);
  }

  // ------------------------------------------------------------------------------------------
  // Host compute capabilities
  // ------------------------------------------------------------------------------------------

  /** A line is a capability: a major number, a point, one minor digit; together in sixteen bits. */
  ghost predicate Capability(line: string, architecture: nat) {
    exists major: string, minor: string ::
      && Trim(line) == major + "." + minor && CapabilityParts(major, minor, architecture)
  }

  ghost predicate CapabilityParts(major: string, minor: string, architecture: nat) {
    && major != "" && AllDigits(major) && |minor| == 1 && AllDigits(minor) && Value(major) >= 1
    && architecture == 10 * Value(major) + Value(minor) <= U16_MAX
  }

  ghost predicate IsCapability(line: string) {
    exists x :: Capability(line, x)
  }

  ghost predicate Found(lines: seq<string>, k: nat, x: nat) {
    exists i :: 0 <= i < k && i < |lines| && Capability(lines[i], x)
  }

  method ParseCapability(line: string) returns (p: Parse)
    ensures p.Ok? ==> p.architectures != [] && Capability(line, p.architectures[0])
    ensures p.Ok? <==> IsCapability(line)
    ensures !p.Nothing?
  {
    var t := Trim(line);
    var parts := Split(t, '.');
    forall major: string, minor: string, x: nat | t == major + "." + minor && CapabilityParts(major, minor, x)
      ensures parts == [major, minor]
    {
      DigitsHoldNoSeparator(major);
      DigitsHoldNoSeparator(minor);
      SplitAt(major, '.', minor);
      SplitWord(minor, '.');
    }
    hide Split;
    if |parts| != 2 { return Malformed(line); }
    var major, minor := parts[0], parts[1];
    if major == "" || |minor| != 1 || !AllDigits(major) || !AllDigits(minor) { return Malformed(line); }
    if Value(major) > U16_MAX { return TooLarge(line); }
    if Value(major) == 0 { return Zero(line); }
    var architecture := Value(major) * 10 + Value(minor);
    if architecture > U16_MAX { return TooLarge(line); }
    TwoParts(t, '.');
    assert CapabilityParts(major, minor, architecture);
    return Ok([architecture]);
  }

  lemma TwoParts(t: string, sep: char)
    requires |Split(t, sep)| == 2
    ensures t == Split(t, sep)[0] + [sep] + Split(t, sep)[1]
  {
    JoinUndoesSplit(t, sep);
    var parts := Split(t, sep);
    hide Split;
    assert Join(parts[1..], sep) == parts[1];
  }

  lemma CapabilityIsOne(line: string, x: nat, y: nat)
    requires Capability(line, x) && Capability(line, y)
    ensures x == y
  {
    hide Trim, Value;
    var m1: string, n1: string :| Trim(line) == m1 + "." + n1 && CapabilityParts(m1, n1, x);
    var m2: string, n2: string :| Trim(line) == m2 + "." + n2 && CapabilityParts(m2, n2, y);
    assert |m1| == |m2|;
    assert m1 == Trim(line)[..|m1|] == m2;
    assert n1 == Trim(line)[|m1| + 1..] == n2;
  }

  /** Major and minor in decimal, with a point between them, name ten times the one plus the other. */
  lemma CapabilityOf(major: nat, minor: nat, x: nat)
    requires 1 <= major && minor < 10 && 10 * major + minor <= 65535
    ensures Capability(Decimal(major) + "." + Decimal(minor), x) <==> x == 10 * major + minor
  {
    var line := Decimal(major) + "." + Decimal(minor);
    DecimalHasValue(major);
    DecimalHasValue(minor);
    assert |Decimal(minor)| == 1;
    PointIsNotTrimmed(Decimal(major), Decimal(minor));
    hide Trim, Decimal, Value;
    assert CapabilityParts(Decimal(major), Decimal(minor), 10 * major + minor);
    assert Capability(line, 10 * major + minor);
    if Capability(line, x) { CapabilityIsOne(line, x, 10 * major + minor); }
  }

  lemma PointIsNotTrimmed(major: string, minor: string)
    requires major != "" && minor != "" && AllDigits(major) && AllDigits(minor)
    ensures Trim(major + "." + minor) == major + "." + minor
  {
    var line := major + "." + minor;
    assert line[0] == major[0] && line[|line| - 1] == minor[|minor| - 1];
  }

  /** The lines that count: blank ones are skipped. */
  ghost predicate Counts(line: string) { Trim(line) != "" }

  /** The lines are capabilities or blank, and their set in ascending order is the result. */
  ghost predicate Visible(lines: seq<string>, xs: seq<nat>) {
    && Orders.Ascending(xs) && (forall x :: x in xs <==> Found(lines, |lines|, x))
    && (forall i :: 0 <= i < |lines| && Counts(lines[i]) ==> IsCapability(lines[i]))
  }

  /** Every line that is not blank must be a capability; the result is the ascending set of ten times
      the major number plus the minor, and there must be one. */
  method ParseHost(output: string) returns (p: Parse)
    ensures p.Ok? ==> Visible(Split(output, '\n'), p.architectures) && p.architectures != []
    ensures p.Nothing? <==> Visible(Split(output, '\n'), [])
    ensures !p.Ok? && !p.Nothing? ==>
      exists i :: 0 <= i < |Split(output, '\n')|
        && Counts(Split(output, '\n')[i]) && !IsCapability(Split(output, '\n')[i])
  {
    hide Capability, Split, Trim, IsCapability, Found;
    var lines := Split(output, '\n');
    var found: set<nat> := {};
    NothingFound(lines);
    for i := 0 to |lines|
      invariant forall x :: x in found <==> Found(lines, i, x)
      invariant forall k :: 0 <= k < i && Counts(lines[k]) ==> IsCapability(lines[k])
    {
      if Trim(lines[i]) == "" {
        BlankFindsNothing(lines, i);
      } else {
        var one := ParseCapability(lines[i]);
        if !one.Ok? { return one; }
        FoundNext(lines, i, one.architectures[0]);
        found := found + {one.architectures[0]};
      }
    }
    var sorted := SortedSet(found);
    assert sorted == [] <==> found == {} by {
      assert sorted != [] ==> sorted[0] in found;
    }
    if found == {} {
      return Nothing;
    }
    return Ok(sorted);
  }

  lemma NothingFound(lines: seq<string>)
    ensures forall x :: !Found(lines, 0, x)
  {
  }

  lemma FoundNext(lines: seq<string>, i: nat, architecture: nat)
    requires i < |lines| && Capability(lines[i], architecture)
    ensures forall x :: Found(lines, i + 1, x) <==> Found(lines, i, x) || x == architecture
  {
    forall x | Capability(lines[i], x) ensures x == architecture { CapabilityIsOne(lines[i], x, architecture); }
    hide Capability;
    forall x ensures Found(lines, i + 1, x) <==> Found(lines, i, x) || x == architecture {
      assert x == architecture ==> Capability(lines[i], x);
    }
  }

  lemma BlankFindsNothing(lines: seq<string>, i: nat)
    requires i < |lines| && Trim(lines[i]) == ""
    ensures forall x :: Found(lines, i + 1, x) <==> Found(lines, i, x)
  {
    forall x ensures !Capability(lines[i], x) {
    }
    hide Capability;
  }

  // ------------------------------------------------------------------------------------------
  // JSON strings
  // ------------------------------------------------------------------------------------------

  /** Unicode category Cc. */
  predicate IsControl(c: char) {
    c as int < 0x20 || 0x7f <= c as int <= 0x9f
  }

  function HexDigit(n: nat): char
    requires n < 16
  {
    if n < 10 then ('0' as int + n) as char else ('a' as int + n - 10) as char
  }

  function Escaped(c: char): string {
    if c == '"' then "\\\""
    else if c == '\\' then "\\\\"
    else if c == '\n' then "\\n"
    else if c == '\r' then "\\r"
    else if c == '\t' then "\\t"
    else if IsControl(c) then "\\u00" + [HexDigit(c as int / 16), HexDigit(c as int % 16)]
    else [c]
  }

  function Escape(s: string): string {
    if s == "" then "" else Escaped(s[0]) + Escape(s[1..])
  }

  method JsonEscape(value: string) returns (escaped: string)
    ensures escaped == Escape(value)
  {
    hide Escaped;
    escaped := "";
    for i := 0 to |value|
      invariant escaped + Escape(value[i..]) == Escape(value)
    {
      assert value[i..][1..] == value[i + 1..];
      assert escaped + (Escaped(value[i]) + Escape(value[i + 1..])) ==
          escaped + Escaped(value[i]) + Escape(value[i + 1..]);
      escaped := escaped + Escaped(value[i]);
    }
    assert value[|value|..] == "";
  }

  /** No control character is left, so the text stays on the one line it is printed on. */
  lemma {:induction false} EscapedHasNoControl(s: string)
    ensures forall i :: 0 <= i < |Escape(s)| ==>
      var n := Escape(s)[i] as int; n >= 0x20 && !(0x7f <= n <= 0x9f)
  {
    if s != "" {
      EscapedHasNoControl(s[1..]);
    }
  }

  /** How the characters that need it are spelled. */
  lemma KnownEscapes()
    ensures Escaped('"') == "\\\"" && Escaped('\\') == "\\\\" && Escaped('\n') == "\\n" && Escaped('\r') == "\\r"
    ensures Escaped('\t') == "\\t" && Escaped(31 as char) == "\\u001f" && Escaped(127 as char) == "\\u007f"
    ensures forall c: char :: 128 <= c as int < 160 ==> |Escaped(c)| == 6 && Escaped(c)[..2] == "\\u"
    ensures forall c: char :: c != '"' && c != '\\' && (32 <= c as int < 127 || 160 <= c as int) ==> Escaped(c) == [c]
  {
  }

  // A reader of JSON strings, after section 7 of RFC 8259.

  datatype Read<T> = Done(value: T, rest: string) | Refused

  function HexValue(c: char): int {
    if '0' <= c <= '9' then c as int - '0' as int
    else if 'a' <= c <= 'f' then c as int - 'a' as int + 10
    else if 'A' <= c <= 'F' then c as int - 'A' as int + 10
    else -1
  }

  predicate IsHex4(t: string) {
    |t| >= 4 && HexValue(t[0]) >= 0 && HexValue(t[1]) >= 0 && HexValue(t[2]) >= 0 && HexValue(t[3]) >= 0
  }

  function Hex4(t: string): (n: nat)
    requires IsHex4(t)
    ensures n < 0x10000
  {
    ((HexValue(t[0]) * 16 + HexValue(t[1])) * 16 + HexValue(t[2])) * 16 + HexValue(t[3])
  }

  function SimpleEscape(c: char): string {
    match c
    case '"' => "\""
    case '\\' => "\\"
    case '/' => "/"
    case 'b' => [8 as char]
    case 'f' => [12 as char]
    case 'n' => "\n"
    case 'r' => "\r"
    case 't' => "\t"
    case _ => ""
  }

  /** One character after the backslash and the u, possibly by a surrogate pair. */
  function ReadUnicode(t: string): (r: Read<char>)
    ensures r.Done? ==> |r.rest| < |t|
  {
    if !IsHex4(t) then Refused
    else
      var n := Hex4(t);
      if 0xd800 <= n <= 0xdbff then
        if |t| >= 6 && t[4] == '\\' && t[5] == 'u' && IsHex4(t[6..]) && 0xdc00 <= Hex4(t[6..]) <= 0xdfff
        then Done((0x10000 + (n - 0xd800) * 0x400 + (Hex4(t[6..]) - 0xdc00)) as char, t[10..])
        else Refused
      else if 0xdc00 <= n <= 0xdfff then Refused
      else Done(n as char, t[4..])
  }

  function Prefixed(c: char, r: Read<string>): Read<string> {
    match r
    case Done(value, rest) => Done([c] + value, rest)
    case Refused => Refused
  }

  /** Everything up to the closing quote. */
  function ReadString(t: string): (r: Read<string>)
    ensures r.Done? ==> |r.rest| < |t|
    decreases |t|
  {
    if t == "" then Refused
    else if t[0] == '"' then Done("", t[1..])
    else if t[0] == '\\' then
      if |t| < 2 then Refused
      else if t[1] == 'u' then
        match ReadUnicode(t[2..])
        case Done(c, rest) => Prefixed(c, ReadString(rest))
        case Refused => Refused
      else if SimpleEscape(t[1]) == "" then Refused
      else Prefixed(SimpleEscape(t[1])[0], ReadString(t[2..]))
    else if t[0] as int < 0x20 then Refused
    else Prefixed(t[0], ReadString(t[1..]))
  }

  lemma ReadEscapedControl(c: char, t: string)
    requires IsControl(c)
    ensures ReadString("\\u00" + [HexDigit(c as int / 16), HexDigit(c as int % 16)] + t) == Prefixed(c, ReadString(t))
  {
    var h := "00" + [HexDigit(c as int / 16), HexDigit(c as int % 16)];
    var all := "\\u00" + [HexDigit(c as int / 16), HexDigit(c as int % 16)] + t;
    assert all[2..] == h + t;
    assert (h + t)[4..] == t;
    assert IsHex4(h + t) && Hex4(h + t) == c as int;
  }

  /** Reading one escaped character gives that character back. */
  lemma ReadEscaped(c: char, t: string)
    ensures ReadString(Escaped(c) + t) == Prefixed(c, ReadString(t))
  {
    if c == '"' || c == '\\' || c == '\n' || c == '\r' || c == '\t' {
      assert (Escaped(c) + t)[2..] == t;
    } else if IsControl(c) {
      ReadEscapedControl(c, t);
    } else {
      assert ([c] + t)[1..] == t;
    }
  }

  lemma ReadClosing(rest: string)
    ensures ReadString("\"" + rest) == Done("", rest)
  {
    assert ("\"" + rest)[1..] == rest;
  }

  lemma EscapeUnfold(s: string, t: string)
    requires s != ""
    ensures Escape(s) + t == Escaped(s[0]) + (Escape(s[1..]) + t)
  {
    hide Escaped;
  }

  /** Whatever was escaped reads back as itself, up to the closing quote and no further. */
  lemma {:induction false} EscapeRoundTrips(s: string, rest: string)
    ensures ReadString(Escape(s) + ("\"" + rest)) == Done(s, rest)
  {
    hide ReadString, Escaped;
    var t := "\"" + rest;
    if s == "" {
      assert Escape(s) + t == t;
      ReadClosing(rest);
    } else {
      EscapeRoundTrips(s[1..], rest);
      EscapeUnfold(s, t);
      ReadEscaped(s[0], Escape(s[1..]) + t);
      assert s == [s[0]] + s[1..];
    }
  }

  // Arrays of strings.

  function Quoted(s: string): string {
    "\"" + Escape(s) + "\""
  }

  function QuotedAll(values: seq<string>): (r: seq<string>)
    ensures |r| == |values| && forall i :: 0 <= i < |values| ==> r[i] == Quoted(values[i])
  {
    seq(|values|, i requires 0 <= i < |values| => Quoted(values[i]))
  }

  /** `render_json_string_array`. */
  function RenderedArray(values: seq<string>): string {
    "[" + Join(QuotedAll(values), ',') + "]"
  }

  /** The elements after the first quote of an element, to the closing bracket. */
  function ReadElements(t: string): Read<seq<string>>
    decreases |t|
  {
    match ReadString(t)
    case Refused => Refused
    case Done(value, rest) =>
      if rest != "" && rest[0] == ']' then Done([value], rest[1..])
      else if |rest| >= 2 && rest[0] == ',' && rest[1] == '"' then
        match ReadElements(rest[2..])
        case Refused => Refused
        case Done(values, after) => Done([value] + values, after)
      else Refused
  }

  function ReadArray(t: string): Read<seq<string>> {
    if |t| >= 2 && t[0] == '[' && t[1] == ']' then Done([], t[2..])
    else if |t| >= 2 && t[0] == '[' && t[1] == '"' then ReadElements(t[2..])
    else Refused
  }

  lemma {:induction false} ElementsRoundTrip(values: seq<string>, rest: string)
    requires values != []
    ensures Join(QuotedAll(values), ',') != "" && Join(QuotedAll(values), ',')[0] == '"'
    ensures ReadElements(Join(QuotedAll(values), ',')[1..] + "]" + rest) == Done(values, rest)
    decreases |values|
  {
    hide ReadString, Escape, ReadElements;
    var all := Join(QuotedAll(values), ',');
    if |values| == 1 {
      assert all[1..] + "]" + rest == Escape(values[0]) + ("\"" + ("]" + rest));
      ReadLast(values[0], rest);
      assert values == [values[0]];
    } else {
      var tail := Join(QuotedAll(values[1..]), ',');
      assert QuotedAll(values)[1..] == QuotedAll(values[1..]);
      assert all == Quoted(values[0]) + [','] + tail;
      ElementsRoundTrip(values[1..], rest);
      assert tail == ['"'] + tail[1..];
      assert all[1..] + "]" + rest == Escape(values[0]) + ("\"" + (",\"" + (tail[1..] + "]" + rest)));
      ReadNext(values[0], tail[1..] + "]" + rest);
      assert values == [values[0]] + values[1..];
    }
  }

  lemma ReadLast(value: string, rest: string)
    ensures ReadElements(Escape(value) + ("\"" + ("]" + rest))) == Done([value], rest)
  {
    hide ReadString, Escape;
    EscapeRoundTrips(value, "]" + rest);
    assert ("]" + rest)[1..] == rest;
  }

  lemma ReadNext(value: string, t: string)
    ensures ReadElements(Escape(value) + ("\"" + (",\"" + t))) ==
      match ReadElements(t) case Done(values, rest) => Done([value] + values, rest) case Refused => Refused
  {
    hide ReadString, Escape;
    EscapeRoundTrips(value, ",\"" + t);
    assert (",\"" + t)[2..] == t;
  }

  /** A rendered array of strings reads back as itself, whatever the strings hold. */
  lemma ArrayRoundTrips(values: seq<string>, rest: string)
    ensures ReadArray(RenderedArray(values) + rest) == Done(values, rest)
  {
    if values == [] {
      assert RenderedArray(values) + rest == "[]" + rest;
    } else {
      hide ReadElements, Join, QuotedAll, ReadString, ReadArray;
      ElementsRoundTrip(values, rest);
      var all := Join(QuotedAll(values), ',');
      Bracketed(all, rest);
      ReadOpening(all[1..] + "]" + rest);
    }
  }

  lemma Bracketed(all: string, rest: string)
    requires all != "" && all[0] == '"'
    ensures "[" + all + "]" + rest == "[\"" + (all[1..] + "]" + rest)
  {
    assert all == ['"'] + all[1..];
  }

  lemma ReadOpening(t: string)
    ensures ReadArray("[\"" + t) == ReadElements(t)
  {
    hide ReadElements;
    assert ("[\"" + t)[2..] == t;
  }
}
