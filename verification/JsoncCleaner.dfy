/** The cleaner of commented JSON: blank in place, until nothing changes. */
module JsoncCleaner {
  // Comments and trailing commas become blanks, pass after pass, as `map_repo.py` does it.

  // ------------------------------------------------------------------------------------------
  // The lexical structure of a JSONC text
  // ------------------------------------------------------------------------------------------

  datatype Mode = Code | Quoted | Escaped | Line | Block

  datatype Class = Plain | Literal | Comment

  /** `str.isspace` of a single character. */
  predicate IsSpace(c: char) {
    var n := c as int;
    || 0x09 <= n <= 0x0D || 0x1C <= n <= 0x20 || n == 0x85 || n == 0xA0 || n == 0x1680
    || 0x2000 <= n <= 0x200A || n == 0x2028 || n == 0x2029 || n == 0x202F || n == 0x205F || n == 0x3000
  }

  predicate OpensLine(s: string) { |s| >= 2 && s[0] == '/' && s[1] == '/' }
  predicate OpensBlock(s: string) { |s| >= 2 && s[0] == '/' && s[1] == '*' }
  predicate ClosesBlock(s: string) { |s| >= 2 && s[0] == '*' && s[1] == '/' }

  /** How many characters the lexer takes in one step. */
  function Width(s: string, mode: Mode): (n: nat)
    requires s != ""
    ensures 1 <= n <= |s|
  {
    if (mode == Code && OpensBlock(s)) || (mode == Block && ClosesBlock(s)) then 2 else 1
  }

  /** The mode after the step. A line comment ends before its newline, so it is left without taking
      a character; `Enter` is applied first. */
  function Next(s: string, mode: Mode): Mode
    requires s != ""
  {
    match mode
    case Code => if s[0] == '"' then Quoted else if OpensLine(s) then Line else if OpensBlock(s) then Block else Code
    case Quoted => if s[0] == '\\' then Escaped else if s[0] == '"' then Code else Quoted
    case Escaped => Quoted
    case Line => if s[0] == '\n' then Code else Line
    case Block => if ClosesBlock(s) then Code else Block
  }

  function ClassOfHead(s: string, mode: Mode): Class
    requires s != ""
  {
    match mode
    case Code => if s[0] == '"' then Literal else if OpensLine(s) || OpensBlock(s) then Comment else Plain
    case Quoted => Literal
    case Escaped => Literal
    case Line => if s[0] == '\n' then Plain else Comment
    case Block => Comment
  }

  function Classes(s: string, mode: Mode): (r: seq<Class>)
    ensures |r| == |s|
    decreases |s|
  {
    if s == "" then []
    else
      var c, n := ClassOfHead(s, mode), Width(s, mode);
      (if n == 1 then [c] else [c, c]) + Classes(s[n..], Next(s, mode))
  }

  /** The text ends inside a block comment. */
  predicate Unterminated(s: string, mode: Mode)
    decreases |s|
  {
    if s == "" then mode == Block else Unterminated(s[Width(s, mode)..], Next(s, mode))
  }

  // ------------------------------------------------------------------------------------------
  // One pass, and the one-shot reference
  // ------------------------------------------------------------------------------------------

  function Blank(c: char): char { if c == '\n' then '\n' else ' ' }

  function BlankAll(s: string): (r: string)
    ensures |r| == |s| && forall i :: 0 <= i < |s| ==> r[i] == Blank(s[i])
  {
    seq(|s|, i requires 0 <= i < |s| => Blank(s[i]))
  }

  function Blanks(n: nat): (r: string)
    ensures |r| == n && forall i :: 0 <= i < n ==> r[i] == ' '
  {
    seq(n, i => ' ')
  }

  lemma BlanksGrow(n: nat)
    ensures Blanks(n + 1) == " " + Blanks(n)
  {
  }

  lemma Assoc(a: string, b: string, c: string)
    ensures (a + b) + c == a + (b + c)
  {
  }

  predicate Closing(c: char) { c == '}' || c == ']' }

  /** What one pass looks at behind a comma: the next character that is not white space closes. */
  predicate ClosesNext(s: string) {
    s != "" && if IsSpace(s[0]) then ClosesNext(s[1..]) else Closing(s[0])
  }

  function Pass(s: string, mode: Mode): (r: string)
    ensures |r| == |s|
    decreases |s|
  {
    if s == "" then ""
    else
      var n := Width(s, mode);
      (if ClassOfHead(s, mode) == Comment then BlankAll(s[..n])
       else if mode == Code && s[0] == ',' && ClosesNext(s[1..]) then " "
       else [s[0]]) + Pass(s[n..], Next(s, mode))
  }

  /** Nothing but white space, comments and further commas stands before a closing delimiter. */
  predicate ClosesAfter(s: string, mode: Mode)
    decreases |s|
  {
    && s != ""
    && if ClassOfHead(s, mode) == Comment || (ClassOfHead(s, mode) == Plain && (IsSpace(s[0]) || s[0] == ','))
       then ClosesAfter(s[Width(s, mode)..], Next(s, mode))
       else ClassOfHead(s, mode) == Plain && Closing(s[0])
  }

  /** The text with every comment and every dangling comma blanked at once. */
  function Cleaned(s: string, mode: Mode): (r: string)
    ensures |r| == |s|
    decreases |s|
  {
    if s == "" then ""
    else
      var n := Width(s, mode);
      (if ClassOfHead(s, mode) == Comment then BlankAll(s[..n])
       else if mode == Code && s[0] == ',' && ClosesAfter(s[1..], Code) then " "
       else [s[0]]) + Cleaned(s[n..], Next(s, mode))
  }

  /** A pass leaves no comment, so the next one starts in code wherever this one was in a comment. */
  function AfterPass(mode: Mode): Mode {
    if mode == Line || mode == Block then Code else mode
  }

  lemma PassHead(s: string, mode: Mode)
    requires s != ""
    ensures Pass(s, mode)[0] == s[0] || Pass(s, mode)[0] == ' '
  {
  }

  /** A pass opens no comment where there was none. */
  lemma PassOpensNothing(s: string)
    requires s != "" && ClassOfHead(s, Code) == Plain
    ensures !OpensLine(Pass(s, Code)) && !OpensBlock(Pass(s, Code))
  {
    if |s| > 1 {
      PassHead(s[1..], Next(s, Code));
      assert Pass(s, Code)[1] == Pass(s[1..], Next(s, Code))[0];
    }
  }

  lemma {:induction false} PassUnfold(s: string, mode: Mode)
    requires s != ""
    ensures var n := Width(s, mode);
      Pass(s, mode)[n..] == Pass(s[n..], Next(s, mode))
    ensures ClassOfHead(s, mode) == Comment ==> Pass(s, mode)[0] == Blank(s[0])
    ensures Width(s, mode) == 2 ==> Pass(s, mode)[1] == Blank(s[1])
  {
  }

  function Uncommented(c: Class): Class { if c == Comment then Plain else c }

  /** A step over one character is a step over one character after the pass. */
  lemma PassStepOne(s: string, mode: Mode)
    requires s != "" && Width(s, mode) == 1
    ensures var p, m := Pass(s, mode), AfterPass(mode);
      && Width(p, m) == 1 && p[1..] == Pass(s[1..], Next(s, mode))
      && Next(p, m) == AfterPass(Next(s, mode)) && ClassOfHead(p, m) == Uncommented(ClassOfHead(s, mode))
  {
    PassUnfold(s, mode);
    if mode == Code && ClassOfHead(s, mode) == Plain {
      PassOpensNothing(s);
    }
  }

  /** A comment delimiter becomes two blanks. */
  lemma PassStepTwo(s: string, mode: Mode)
    requires s != "" && Width(s, mode) == 2
    ensures var p := Pass(s, mode);
      && ClassOfHead(s, mode) == Comment && AfterPass(mode) == AfterPass(Next(s, mode)) == Code
      && p == [' ', ' '] + Pass(s[2..], Next(s, mode))
  {
    PassUnfold(s, mode);
  }

  /** Two blanks are plain text. */
  lemma {:induction false} BlanksArePlain(rest: string)
    ensures Classes([' ', ' '] + rest, Code) == [Plain, Plain] + Classes(rest, Code)
    ensures Unterminated([' ', ' '] + rest, Code) == Unterminated(rest, Code)
  {
    var t := [' ', ' '] + rest;
    assert t[1..] == [' '] + rest && t[1..][1..] == rest;
  }

  function UncommentedAll(classes: seq<Class>): (r: seq<Class>)
    ensures |r| == |classes| && forall i :: 0 <= i < |r| ==> r[i] == Uncommented(classes[i])
  {
    seq(|classes|, i requires 0 <= i < |classes| => Uncommented(classes[i]))
  }

  lemma UncommentedCons(c: Class, rest: seq<Class>)
    ensures UncommentedAll([c] + rest) == [Uncommented(c)] + UncommentedAll(rest)
  {
  }

  lemma StepOneClasses(s: string, mode: Mode)
    requires s != "" && Width(s, mode) == 1
    ensures Classes(s, mode) == [ClassOfHead(s, mode)] + Classes(s[1..], Next(s, mode))
    ensures Unterminated(s, mode) == Unterminated(s[1..], Next(s, mode))
  {
  }

  lemma StepTwoClasses(s: string, mode: Mode)
    requires s != "" && Width(s, mode) == 2
    ensures Classes(s, mode) == [Comment] + ([Comment] + Classes(s[2..], Next(s, mode)))
  {
  }

  /** Passing keeps the literals where they are and leaves only plain text elsewhere; in particular
      no pass but the first can meet an unterminated comment. */
  lemma {:induction false} PassKeepsStructure(s: string, mode: Mode)
    ensures Classes(Pass(s, mode), AfterPass(mode)) == UncommentedAll(Classes(s, mode))
    ensures !Unterminated(Pass(s, mode), AfterPass(mode))
    decreases |s|
  {
    hide Pass, Next, ClassOfHead, Classes, Unterminated, UncommentedAll;
    if s == "" {
      NothingToPass(mode);
      NothingToPass(AfterPass(mode));
    } else {
      var n, p, m := Width(s, mode), Pass(s, mode), AfterPass(mode);
      PassKeepsStructure(s[n..], Next(s, mode));
      if n == 1 {
        PassStepOne(s, mode);
        StepOneClasses(s, mode);
        StepOneClasses(p, m);
        UncommentedCons(ClassOfHead(s, mode), Classes(s[1..], Next(s, mode)));
      } else {
        PassStepTwo(s, mode);
        StepTwoClasses(s, mode);
        BlanksArePlain(Pass(s[2..], Next(s, mode)));
        UncommentedCons(Comment, [Comment] + Classes(s[2..], Next(s, mode)));
        UncommentedCons(Comment, Classes(s[2..], Next(s, mode)));
      }
    }
  }

  lemma BlankIsSkipped(rest: string)
    ensures ClosesAfter([' '] + rest, Code) == ClosesAfter(rest, Code)
    ensures Cleaned([' '] + rest, Code) == [' '] + Cleaned(rest, Code)
  {
    assert ([' '] + rest)[1..] == rest;
  }

  lemma BlanksAreSkipped(rest: string)
    ensures ClosesAfter([' ', ' '] + rest, Code) == ClosesAfter(rest, Code)
    ensures Cleaned([' ', ' '] + rest, Code) == [' ', ' '] + Cleaned(rest, Code)
  {
    hide ClosesAfter, Cleaned;
    assert [' ', ' '] + rest == [' '] + ([' '] + rest);
    BlankIsSkipped([' '] + rest);
    BlankIsSkipped(rest);
    assert [' ', ' '] + Cleaned(rest, Code) == [' '] + ([' '] + Cleaned(rest, Code));
  }

  /** Whether a comma dangles does not depend on how much was blanked before. */
  lemma {:induction false} PassKeepsClosesAfter(s: string, mode: Mode)
    ensures ClosesAfter(Pass(s, mode), AfterPass(mode)) == ClosesAfter(s, mode)
    decreases |s|
  {
    if s != "" {
      var n := Width(s, mode);
      PassKeepsClosesAfter(s[n..], Next(s, mode));
      if n == 1 {
        PassStepOne(s, mode);
        PassHead(s, mode);
      } else {
        PassStepTwo(s, mode);
        BlanksAreSkipped(Pass(s[2..], Next(s, mode)));
      }
    }
  }

  lemma {:induction false} ClosesNextImpliesAfter(s: string)
    requires ClosesNext(s)
    ensures ClosesAfter(s, Code)
  {
    if IsSpace(s[0]) {
      ClosesNextImpliesAfter(s[1..]);
    }
  }

  function CleanHead(s: string, mode: Mode): char
    requires s != ""
  {
    if ClassOfHead(s, mode) == Comment then Blank(s[0])
    else if mode == Code && s[0] == ',' && ClosesAfter(s[1..], Code) then ' '
    else s[0]
  }

  lemma CleanedStep(s: string, mode: Mode)
    requires s != "" && Width(s, mode) == 1
    ensures Cleaned(s, mode) == [CleanHead(s, mode)] + Cleaned(s[1..], Next(s, mode))
  {
  }

  lemma PassKeepsCleanHead(s: string, mode: Mode)
    requires s != "" && Width(s, mode) == 1
    ensures CleanHead(Pass(s, mode), AfterPass(mode)) == CleanHead(s, mode)
  {
    PassStepOne(s, mode);
    if mode == Code && s[0] == ',' {
      PassKeepsClosesAfter(s[1..], Code);
      if ClosesNext(s[1..]) {
        ClosesNextImpliesAfter(s[1..]);
      }
    }
  }

  /** One pass does not change what the whole cleaning arrives at. */
  lemma {:induction false} PassKeepsCleaned(s: string, mode: Mode)
    ensures Cleaned(Pass(s, mode), AfterPass(mode)) == Cleaned(s, mode)
    decreases |s|
  {
    if s != "" {
      PassKeepsCleaned(s[Width(s, mode)..], Next(s, mode));
      if Width(s, mode) == 1 {
        PassStepOne(s, mode);
        PassKeepsCleanHead(s, mode);
        CleanedStep(s, mode);
        CleanedStep(Pass(s, mode), AfterPass(mode));
      } else {
        PassStepTwo(s, mode);
        BlanksAreSkipped(Pass(s[2..], Next(s, mode)));
      }
    }
  }

  /** In a text no pass would change, a comma that dangles at all closes directly. */
  lemma {:induction false} StableClosesNext(s: string)
    requires Pass(s, Code) == s && ClosesAfter(s, Code)
    ensures ClosesNext(s)
  {
    PassUnfold(s, Code);
    if ClassOfHead(s, Code) == Plain && (IsSpace(s[0]) || s[0] == ',') {
      StableClosesNext(s[1..]);
    }
  }

  /** What no pass would change is clean. */
  lemma {:induction false} StableIsCleaned(s: string, mode: Mode)
    requires Pass(s, mode) == s && mode == AfterPass(mode)
    ensures Cleaned(s, mode) == s
    decreases |s|
  {
    if s != "" {
      PassUnfold(s, mode);
      assert ClassOfHead(s, mode) != Comment;
      StableIsCleaned(s[1..], Next(s, mode));
      if mode == Code && s[0] == ',' && ClosesAfter(s[1..], Code) {
        StableClosesNext(s[1..]);
      }
    }
  }

  // ------------------------------------------------------------------------------------------
  // Termination
  // ------------------------------------------------------------------------------------------

  /** Characters other than the blank and the newline. */
  function Ink(s: string): nat {
    if s == "" then 0 else (if s[0] == ' ' || s[0] == '\n' then 0 else 1) + Ink(s[1..])
  }

  /** Every character either stays or becomes a blank or newline in place. */
  ghost predicate BlankedFrom(r: string, s: string) {
    |r| == |s| && forall i :: 0 <= i < |s| ==> r[i] == s[i] || r[i] == Blank(s[i])
  }

  lemma {:induction false} BlankedHasLessInk(r: string, s: string)
    requires BlankedFrom(r, s)
    ensures Ink(r) <= Ink(s) && (r != s ==> Ink(r) < Ink(s))
  {
    if s != "" {
      assert BlankedFrom(r[1..], s[1..]);
      BlankedHasLessInk(r[1..], s[1..]);
      assert r == [r[0]] + r[1..] && s == [s[0]] + s[1..];
    }
  }

  lemma BlankedJoins(r1: string, s1: string, r2: string, s2: string)
    requires BlankedFrom(r1, s1) && BlankedFrom(r2, s2)
    ensures BlankedFrom(r1 + r2, s1 + s2)
  {
  }

  lemma {:induction false} PassBlanks(s: string, mode: Mode)
    ensures BlankedFrom(Pass(s, mode), s)
    decreases |s|
  {
    hide Pass, BlankedFrom, Width, Next;
    if s == "" {
      NothingToPass(mode);
    } else {
      var n := Width(s, mode);
      PassBlanks(s[n..], Next(s, mode));
      PassHeadBlanks(s, mode);
      BlankedJoins(Pass(s, mode)[..n], s[..n], Pass(s[n..], Next(s, mode)), s[n..]);
      assert s == s[..n] + s[n..];
    }
  }

  lemma NothingToPass(mode: Mode)
    ensures Pass("", mode) == "" && BlankedFrom("", "")
    ensures Classes("", mode) == [] && UncommentedAll([]) == [] && !Unterminated("", AfterPass(mode))
  {
  }

  lemma PassHeadBlanks(s: string, mode: Mode)
    requires s != ""
    ensures var n := Width(s, mode);
      && BlankedFrom(Pass(s, mode)[..n], s[..n])
      && Pass(s, mode) == Pass(s, mode)[..n] + Pass(s[n..], Next(s, mode))
  {
    PassUnfold(s, mode);
  }

  // ------------------------------------------------------------------------------------------
  // The cleaner
  // ------------------------------------------------------------------------------------------

  datatype Result = Text(text: string) | UnterminatedComment

  /** `str.find` of a newline, the length of the text when there is none. */
  function LineEnd(s: string, i: nat): (e: nat)
    requires i <= |s|
    ensures i <= e <= |s|
    decreases |s| - i
  {
    if i == |s| || s[i] == '\n' then i else LineEnd(s, i + 1)
  }

  /** `str.find` of the end of a block comment, the length of the text when there is none. */
  function BlockEnd(s: string, i: nat): (e: nat)
    requires i <= |s|
    ensures i <= e <= |s|
    decreases |s| - i
  {
    if i == |s| || ClosesBlock(s[i..]) then i else BlockEnd(s, i + 1)
  }

  function SpaceEnd(s: string, i: nat): (e: nat)
    requires i <= |s|
    ensures i <= e <= |s|
    decreases |s| - i
  {
    if i == |s| || !IsSpace(s[i]) then i else SpaceEnd(s, i + 1)
  }

  lemma LineStops(t: string)
    requires t == "" || t[0] == '\n'
    ensures Pass(t, Line) == Pass(t, Code) && Unterminated(t, Line) == Unterminated(t, Code)
  {
  }

  lemma LineStep(t: string)
    requires t != "" && t[0] != '\n'
    ensures Pass(t, Line) == " " + Pass(t[1..], Line) && Unterminated(t, Line) == Unterminated(t[1..], Line)
  {
    assert BlankAll(t[..1]) == " ";
  }

  /** Blanking to the end of the line at once is what the lexer does character by character. */
  lemma {:induction false} LineSkips(s: string, i: nat)
    requires i <= |s|
    ensures var e := LineEnd(s, i);
      && Pass(s[i..], Line) == Blanks(e - i) + Pass(s[e..], Code)
      && Unterminated(s[i..], Line) == Unterminated(s[e..], Code)
    decreases |s| - i
  {
    hide Pass, Unterminated, Blanks;
    var e := LineEnd(s, i);
    if i < |s| && s[i] != '\n' {
      assert s[i..][1..] == s[i + 1..];
      LineStep(s[i..]);
      LineSkips(s, i + 1);
      BlanksGrow(e - i - 1);
      Assoc(" ", Blanks(e - i - 1), Pass(s[e..], Code));
    } else {
      LineStops(s[i..]);
      NoBlanks(Pass(s[e..], Code));
    }
  }

  lemma NoBlanks(t: string)
    ensures Blanks(0) + t == t
  {
  }

  lemma BlockStep(t: string)
    requires t != ""
    ensures var n := Width(t, Block);
      && Pass(t, Block) == BlankAll(t[..n]) + Pass(t[n..], if ClosesBlock(t) then Code else Block)
      && Unterminated(t, Block) == Unterminated(t[n..], if ClosesBlock(t) then Code else Block)
  {
  }

  lemma BlockWidth(t: string)
    requires t != ""
    ensures Width(t, Block) == if ClosesBlock(t) then 2 else 1
  {
  }

  lemma BlankAllJoins(s: string, i: nat, j: nat, k: nat)
    requires i <= j <= k <= |s|
    ensures BlankAll(s[i..j]) + BlankAll(s[j..k]) == BlankAll(s[i..k])
  {
  }

  ghost predicate BlockSkipped(s: string, i: nat, e: nat)
    requires i <= e <= |s|
  {
    if e == |s| then Unterminated(s[i..], Block)
    else
      && e + 2 <= |s|
      && Pass(s[i..], Block) == BlankAll(s[i..e + 2]) + Pass(s[e + 2..], Code)
      && Unterminated(s[i..], Block) == Unterminated(s[e + 2..], Code)
  }

  lemma BlockSkipsOne(s: string, i: nat, e: nat)
    requires i < e <= |s| && !ClosesBlock(s[i..]) && BlockSkipped(s, i + 1, e)
    ensures BlockSkipped(s, i, e)
  {
    hide Pass, Unterminated, BlankAll, Width;
    BlockWidth(s[i..]);
    BlockStep(s[i..]);
    hide ClosesBlock;
    assert s[i..][1..] == s[i + 1..] && s[i..][..1] == s[i..i + 1];
    if e < |s| {
      BlankAllJoins(s, i, i + 1, e + 2);
      Assoc(BlankAll(s[i..i + 1]), BlankAll(s[i + 1..e + 2]), Pass(s[e + 2..], Code));
    }
  }

  lemma BlockSkipsEnd(s: string, i: nat)
    requires i < |s| && ClosesBlock(s[i..])
    ensures BlockSkipped(s, i, i)
  {
    BlockStep(s[i..]);
    assert s[i..][2..] == s[i + 2..] && s[i..][..2] == s[i..i + 2];
  }

  lemma {:induction false} BlockSkips(s: string, i: nat)
    requires i <= |s|
    ensures BlockSkipped(s, i, BlockEnd(s, i))
    decreases |s| - i
  {
    if i < |s| {
      if ClosesBlock(s[i..]) {
        BlockSkipsEnd(s, i);
      } else {
        hide BlockSkipped;
        BlockSkips(s, i + 1);
        BlockSkipsOne(s, i, BlockEnd(s, i));
      }
    }
  }

  lemma {:induction false} SpaceSkips(s: string, i: nat)
    requires i <= |s|
    ensures ClosesNext(s[i..]) <==> SpaceEnd(s, i) < |s| && Closing(s[SpaceEnd(s, i)])
    decreases |s| - i
  {
    if i < |s| && IsSpace(s[i]) {
      assert s[i..][1..] == s[i + 1..];
      SpaceSkips(s, i + 1);
    }
  }

  function ModeOf(quoted: bool, escaped: bool): Mode {
    if !quoted then Code else if escaped then Escaped else Quoted
  }

  lemma OpensLineStep(t: string)
    requires OpensLine(t)
    ensures Pass(t, Code) == " " + Pass(t[1..], Line) && Unterminated(t, Code) == Unterminated(t[1..], Line)
  {
    assert BlankAll(t[..1]) == " ";
  }

  lemma OpensLineUnfold(s: string, i: nat)
    requires i < |s| && OpensLine(s[i..])
    ensures var e := LineEnd(s, i);
      && i < e
      && Pass(s[i..], Code) == Blanks(e - i) + Pass(s[e..], Code)
      && Unterminated(s[i..], Code) == Unterminated(s[e..], Code)
  {
    hide Pass, Unterminated, Blanks;
    assert s[i..][1..] == s[i + 1..];
    OpensLineStep(s[i..]);
    LineSkips(s, i + 1);
    var e := LineEnd(s, i);
    BlanksGrow(e - i - 1);
    Assoc(" ", Blanks(e - i - 1), Pass(s[e..], Code));
  }

  lemma OpensBlockStep(t: string)
    requires OpensBlock(t)
    ensures Pass(t, Code) == BlankAll(t[..2]) + Pass(t[2..], Block)
    ensures Unterminated(t, Code) == Unterminated(t[2..], Block)
  {
  }

  lemma OpensBlockUnfold(s: string, i: nat)
    requires i < |s| && OpensBlock(s[i..])
    ensures i + 2 <= |s|
    ensures var e := BlockEnd(s, i + 2);
      if e == |s| then Unterminated(s[i..], Code)
      else
        && e + 2 <= |s|
        && Pass(s[i..], Code) == BlankAll(s[i..e + 2]) + Pass(s[e + 2..], Code)
        && Unterminated(s[i..], Code) == Unterminated(s[e + 2..], Code)
  {
    hide Pass, Unterminated, BlankAll;
    assert s[i..][2..] == s[i + 2..] && s[i..][..2] == s[i..i + 2];
    OpensBlockStep(s[i..]);
    BlockSkips(s, i + 2);
    var e := BlockEnd(s, i + 2);
    if e < |s| {
      BlankAllJoins(s, i, i + 2, e + 2);
      Assoc(BlankAll(s[i..i + 2]), BlankAll(s[i + 2..e + 2]), Pass(s[e + 2..], Code));
    }
  }

  /** One step inside a string literal. */
  lemma QuotedUnfold(s: string, i: nat, mode: Mode)
    requires i < |s| && (mode == Quoted || mode == Escaped)
    ensures var next :=
        if mode == Quoted && s[i] == '\\' then Escaped else if mode == Quoted && s[i] == '"' then Code else Quoted;
      && Unterminated(s[i..], mode) == Unterminated(s[i + 1..], next)
      && Pass(s[i..], mode) == [s[i]] + Pass(s[i + 1..], next)
  {
    assert s[i..][1..] == s[i + 1..];
  }

  /** One step over a character of code that opens no comment. */
  lemma CodeUnfold(s: string, i: nat)
    requires i < |s| && (s[i] == '"' || (!OpensLine(s[i..]) && !OpensBlock(s[i..])))
    ensures var next := if s[i] == '"' then Quoted else Code;
      && Unterminated(s[i..], Code) == Unterminated(s[i + 1..], next)
      && Pass(s[i..], Code) == [if s[i] == ',' && ClosesNext(s[i + 1..]) then ' ' else s[i]] + Pass(s[i + 1..], next)
  {
    assert s[i..][1..] == s[i + 1..];
  }

  /** The loop of a pass has rewritten `source[..index]` into `cleaned`. */
  ghost predicate Scanned(source: string, cleaned: string, index: nat, mode: Mode)
    requires index <= |source|
  {
    && cleaned + Pass(source[index..], mode) == Pass(source, Code)
    && Unterminated(source[index..], mode) == Unterminated(source, Code)
  }

  lemma ScanStarts(source: string)
    ensures Scanned(source, "", 0, Code)
  {
    assert source[0..] == source;
  }

  lemma ScanQuoted(source: string, cleaned: string, index: nat, mode: Mode)
    requires index < |source| && Scanned(source, cleaned, index, mode) && (mode == Quoted || mode == Escaped)
    ensures var c := source[index];
      Scanned(source, cleaned + [c], index + 1,
              if mode == Quoted && c == '\\' then Escaped else if mode == Quoted && c == '"' then Code else Quoted)
  {
    hide Pass, Unterminated;
    QuotedUnfold(source, index, mode);
  }

  lemma ScanCode(source: string, cleaned: string, index: nat)
    requires index < |source| && Scanned(source, cleaned, index, Code)
    requires source[index] == '"' || (!OpensLine(source[index..]) && !OpensBlock(source[index..]))
    ensures var c := source[index];
      Scanned(source, cleaned + [if c == ',' && ClosesNext(source[index + 1..]) then ' ' else c], index + 1,
              if c == '"' then Quoted else Code)
  {
    hide Pass, Unterminated, ClosesNext;
    CodeUnfold(source, index);
  }

  lemma ScanLine(source: string, cleaned: string, index: nat)
    requires index < |source| && Scanned(source, cleaned, index, Code) && OpensLine(source[index..])
    ensures var end := LineEnd(source, index);
      index < end && Scanned(source, cleaned + Blanks(end - index), end, Code)
  {
    hide Pass, Unterminated, Blanks, LineEnd;
    OpensLineUnfold(source, index);
  }

  lemma ScanBlock(source: string, cleaned: string, index: nat)
    requires index < |source| && Scanned(source, cleaned, index, Code) && OpensBlock(source[index..])
    ensures index + 2 <= |source|
    ensures var end := BlockEnd(source, index + 2);
      if end == |source| then Unterminated(source, Code)
      else end + 2 <= |source| && Scanned(source, cleaned + BlankAll(source[index..end + 2]), end + 2, Code)
  {
    hide Pass, Unterminated, BlankAll, BlockEnd;
    OpensBlockUnfold(source, index);
  }

  lemma ScanEnds(source: string, cleaned: string, mode: Mode)
    requires Scanned(source, cleaned, |source|, mode) && mode != Block
    ensures cleaned == Pass(source, Code) && !Unterminated(source, Code)
  {
    assert source[|source|..] == "" && cleaned + "" == cleaned;
  }

  /** Cleaning the result of a pass is cleaning the source, and never refuses; a pass that changed
      something used up some ink. */
  lemma PassIsProgress(source: string)
    ensures var p := Pass(source, Code);
      && Cleaned(p, Code) == Cleaned(source, Code) && !Unterminated(p, Code)
      && (p != source ==> Ink(p) < Ink(source)) && (p == source ==> Cleaned(source, Code) == source)
  {
    hide Pass, Cleaned, Unterminated, Classes, Ink;
    PassKeepsStructure(source, Code);
    PassKeepsCleaned(source, Code);
    PassBlanks(source, Code);
    BlankedHasLessInk(Pass(source, Code), source);
    if Pass(source, Code) == source {
      StableIsCleaned(source, Code);
    }
  }

  /** Comments and trailing commas are blanked in place, pass after pass, until a pass changes
      nothing. The result is the one-shot cleaning, and only the first pass can refuse. */
  method JsoncLoads(source: string) returns (r: Result)
    ensures r == if Unterminated(source, Code) then UnterminatedComment else Text(Cleaned(source, Code))
    ensures r.Text? ==> NoDanglingComma(r.text)
    decreases Ink(source)
  {
    CleanedText(source);
    hide NoDanglingComma, Classes, Scanned, Pass, Unterminated, Cleaned, Ink, ClosesNext;
    hide LineEnd, BlockEnd, SpaceEnd, IsSpace, Blanks, BlankAll;
    var cleaned, index, quoted, escaped := "", 0, false, false;
    ScanStarts(source);
    while index < |source|
      invariant index <= |source| && (escaped ==> quoted)
      invariant Scanned(source, cleaned, index, ModeOf(quoted, escaped))
      decreases |source| - index
    {
      var c := source[index];
      if quoted {
        ScanQuoted(source, cleaned, index, ModeOf(quoted, escaped));
        cleaned := cleaned + [c];
        if escaped {
          escaped := false;
        } else if c == '\\' {
          escaped := true;
        } else if c == '"' {
          quoted := false;
        }
        index := index + 1;
        continue;
      }
      if c == '"' {
        ScanCode(source, cleaned, index);
        quoted := true;
      } else if OpensLine(source[index..]) {
        ScanLine(source, cleaned, index);
        var end := LineEnd(source, index);
        cleaned := cleaned + Blanks(end - index);
        index := end;
        continue;
      } else if OpensBlock(source[index..]) {
        ScanBlock(source, cleaned, index);
        var end := BlockEnd(source, index + 2);
        if end == |source| {
          return UnterminatedComment;
        }
        cleaned := cleaned + BlankAll(source[index..end + 2]);
        index := end + 2;
        continue;
      } else {
        ScanCode(source, cleaned, index);
        if c == ',' {
          var next := SpaceEnd(source, index + 1);
          SpaceSkips(source, index + 1);
          if next < |source| && Closing(source[next]) {
            c := ' ';
          }
        }
      }
      cleaned := cleaned + [c];
      index := index + 1;
    }
    ScanEnds(source, cleaned, ModeOf(quoted, escaped));
    PassIsProgress(source);
    if cleaned != source {
      r := JsoncLoads(cleaned);
    } else {
      r := Text(cleaned);
    }
  }

  // ------------------------------------------------------------------------------------------
  // What the cleaned text is, position by position
  // ------------------------------------------------------------------------------------------

  /** White space, a comment or another comma. */
  predicate Skippable(c: char, class_: Class) {
    class_ == Comment || (class_ == Plain && (IsSpace(c) || c == ','))
  }

  ghost predicate ClosedBy(s: string, classes: seq<Class>, i: int, j: int)
    requires |classes| == |s| && -1 <= i
  {
    && i < j < |s| && classes[j] == Plain && Closing(s[j])
    && forall k :: i < k < j ==> Skippable(s[k], classes[k])
  }

  /** Some closing delimiter follows position `i` with nothing between them that matters. */
  ghost predicate Dangles(s: string, classes: seq<Class>, i: int)
    requires |classes| == |s| && -1 <= i
  {
    exists j :: ClosedBy(s, classes, i, j)
  }

  /** The first `n` characters of a text decide nothing about what follows them. */
  lemma DanglesInSuffix(s: string, n: nat, classes: seq<Class>, i: int)
    requires n <= |s| == |classes| && -1 <= i
    ensures Dangles(s[n..], classes[n..], i) <==> Dangles(s, classes, i + n)
  {
    var m := i + n;
    if j :| ClosedBy(s[n..], classes[n..], i, j) {
      forall k | m < k < j + n ensures Skippable(s[k], classes[k]) {
        assert s[n..][k - n] == s[k] && classes[n..][k - n] == classes[k];
      }
      assert ClosedBy(s, classes, m, j + n);
    }
    if j :| ClosedBy(s, classes, m, j) {
      assert ClosedBy(s[n..], classes[n..], i, j - n);
    }
  }

  lemma DanglesPastSkipped(s: string, classes: seq<Class>, n: nat)
    requires 0 < n <= |s| == |classes|
    requires forall k :: 0 <= k < n ==> Skippable(s[k], classes[k])
    ensures Dangles(s, classes, -1) <==> Dangles(s, classes, n - 1)
  {
    var m := n - 1;
    if j :| ClosedBy(s, classes, -1, j) {
      assert j >= n;
      assert ClosedBy(s, classes, m, j);
    }
    if j :| ClosedBy(s, classes, m, j) {
      assert ClosedBy(s, classes, -1, j);
    }
  }

  lemma ClassesStep(s: string, mode: Mode)
    requires s != ""
    ensures var n := Width(s, mode);
      && Classes(s, mode)[n..] == Classes(s[n..], Next(s, mode))
      && forall k :: 0 <= k < n ==> Classes(s, mode)[k] == ClassOfHead(s, mode)
  {
  }

  /** The recursive look-ahead of the reference is the declarative one. */
  lemma {:induction false} ClosesAfterIffDangles(s: string, mode: Mode)
    ensures ClosesAfter(s, mode) <==> Dangles(s, Classes(s, mode), -1)
    decreases |s|
  {
    if s != "" {
      var n, classes := Width(s, mode), Classes(s, mode);
      ClassesStep(s, mode);
      hide Classes, Width, ClassOfHead;
      if Skippable(s[0], classes[0]) {
        if n == 2 { WidthTwoIsComment(s, mode); }
        DanglesPastSkipped(s, classes, n);
        DanglesInSuffix(s, n, classes, -1);
        ClosesAfterIffDangles(s[n..], Next(s, mode));
      } else if classes[0] == Plain && Closing(s[0]) {
        assert ClosedBy(s, classes, -1, 0);
      }
    }
  }

  lemma WidthTwoIsComment(s: string, mode: Mode)
    requires s != "" && Width(s, mode) == 2
    ensures ClassOfHead(s, mode) == Comment
  {
  }

  /** The one-shot cleaning, position by position: comments become blanks that keep the line
      structure, literals stay, and of the plain text only dangling commas go. */
  lemma {:induction false} CleanedPointwise(s: string, mode: Mode, i: nat)
    requires i < |s|
    ensures var classes := Classes(s, mode);
      Cleaned(s, mode)[i] == match classes[i]
        case Comment => Blank(s[i])
        case Literal => s[i]
        case Plain => if s[i] == ',' && Dangles(s, classes, i) then ' ' else s[i]
    decreases |s|
  {
    var n, classes := Width(s, mode), Classes(s, mode);
    if i < n {
      HeadPointwise(s, mode, i);
    } else {
      hide Classes, Cleaned, Width, Dangles, ClassOfHead, Next;
      ClassesStep(s, mode);
      assert classes[i] == Classes(s[n..], Next(s, mode))[i - n];
      CleanedPointwise(s[n..], Next(s, mode), i - n);
      DanglesInSuffix(s, n, classes, i - n);
      CleanedTail(s, mode, i);
    }
  }

  lemma HeadPointwise(s: string, mode: Mode, i: nat)
    requires s != "" && i < Width(s, mode)
    ensures var classes := Classes(s, mode);
      Cleaned(s, mode)[i] == match classes[i]
        case Comment => Blank(s[i])
        case Literal => s[i]
        case Plain => if s[i] == ',' && Dangles(s, classes, i) then ' ' else s[i]
  {
    hide Classes, Cleaned, ClosesAfter, Dangles, Width, Next, ClassOfHead;
    var classes := Classes(s, mode);
    ClassesStep(s, mode);
    PlainHead(s, mode);
    CleanedHead(s, mode, i);
    assert classes[i] == ClassOfHead(s, mode);
    if mode == Code && s[0] == ',' {
      ClosesAfterIffDangles(s[1..], Code);
      DanglesInSuffix(s, 1, classes, -1);
    }
  }

  /** A comma in code is a step of its own; only newlines and code characters are plain. */
  lemma PlainHead(s: string, mode: Mode)
    requires s != ""
    ensures ClassOfHead(s, mode) == Plain && s[0] == ',' ==> mode == Code
    ensures mode == Code && s[0] == ',' ==>
        Width(s, mode) == 1 && Next(s, mode) == Code && ClassOfHead(s, mode) == Plain
    ensures ClassOfHead(s, mode) != Comment ==> Width(s, mode) == 1
  {
  }

  lemma CleanedHead(s: string, mode: Mode, i: nat)
    requires s != "" && i < Width(s, mode)
    ensures Cleaned(s, mode)[i] == if ClassOfHead(s, mode) == Comment then Blank(s[i])
      else if mode == Code && s[0] == ',' && ClosesAfter(s[1..], Code) then ' ' else s[i]
  {
    if Width(s, mode) == 2 { WidthTwoIsComment(s, mode); }
  }

  lemma CleanedTail(s: string, mode: Mode, i: nat)
    requires s != "" && Width(s, mode) <= i < |s|
    ensures Cleaned(s, mode)[i] == Cleaned(s[Width(s, mode)..], Next(s, mode))[i - Width(s, mode)]
  {
  }

  /** The result of the cleaner is a fixed point of the pass, without comments, and its literals are
      those of the source in the same places. */
  lemma {:induction false} CleanedIsStable(s: string)
    ensures Pass(Cleaned(s, Code), Code) == Cleaned(s, Code) && !Unterminated(Cleaned(s, Code), Code)
    ensures forall i :: 0 <= i < |s| ==> Classes(Cleaned(s, Code), Code)[i] == Uncommented(Classes(s, Code)[i])
    decreases Ink(s)
  {
    var p := Pass(s, Code);
    PassKeepsStructure(s, Code);
    if p == s {
      StableIsCleaned(s, Code);
    } else {
      PassKeepsCleaned(s, Code);
      PassBlanks(s, Code);
      BlankedHasLessInk(p, s);
      CleanedIsStable(p);
      forall i | 0 <= i < |s| ensures Classes(Cleaned(s, Code), Code)[i] == Uncommented(Classes(s, Code)[i]) {
        assert Classes(p, Code)[i] == Uncommented(Classes(s, Code)[i]);
      }
    }
  }

  /** A text that no pass changes has no comma that closes directly. */
  lemma {:induction false} StableHasNoTrailingComma(s: string, mode: Mode, i: nat)
    requires Pass(s, mode) == s && mode == AfterPass(mode)
    requires i < |s| && Classes(s, mode)[i] == Plain && s[i] == ','
    ensures !ClosesNext(s[i + 1..])
    decreases |s|
  {
    PassUnfold(s, mode);
    ClassesStep(s, mode);
    assert ClassOfHead(s, mode) != Comment;
    if i > 0 {
      StableHasNoTrailingComma(s[1..], Next(s, mode), i - 1);
      assert s[1..][i - 1 + 1..] == s[i + 1..];
    }
  }

  /** White space, after section 2 of RFC 8259. */
  predicate JsonSpace(c: char) { c == ' ' || c == '\t' || c == '\n' || c == '\r' }

  lemma {:induction false} ClosesLiterally(s: string, j: nat)
    requires j < |s| && (s[j] == '}' || s[j] == ']') && forall k :: 0 <= k < j ==> JsonSpace(s[k])
    ensures ClosesNext(s)
  {
    if j > 0 { ClosesLiterally(s[1..], j - 1); }
  }

  /** Nothing but JSON's white space stands between i and a closing delimiter at j. */
  ghost predicate OnlySpaceToClosing(s: string, i: nat, j: nat) {
    i < j < |s| && (s[j] == '}' || s[j] == ']') && forall k :: i < k < j ==> JsonSpace(s[k])
  }

  /** No comma outside strings closes. */
  ghost predicate NoDanglingComma(r: string) {
    forall i, j: nat :: 0 <= i < |r| && Classes(r, Code)[i] == Plain && r[i] == ',' ==> !OnlySpaceToClosing(r, i, j)
  }

  lemma StableCommaStaysOpen(r: string, i: nat, j: nat)
    requires Pass(r, Code) == r && i < |r| && Classes(r, Code)[i] == Plain && r[i] == ','
    ensures !OnlySpaceToClosing(r, i, j)
  {
    hide Pass, Classes, ClosesNext, OnlySpaceToClosing;
    StableHasNoTrailingComma(r, Code, i);
    SpaceToClosingCloses(r, i, j);
  }

  lemma SpaceToClosingCloses(r: string, i: nat, j: nat)
    requires i < |r|
    ensures OnlySpaceToClosing(r, i, j) ==> ClosesNext(r[i + 1..])
  {
    hide ClosesNext, JsonSpace;
    if OnlySpaceToClosing(r, i, j) { ClosesLiterally(r[i + 1..], j - i - 1); }
  }

  /** The promises of the cleaner, on every text: the last one is that no comma outside strings is followed by
      nothing but JSON's white space and a closing delimiter. */
  lemma CleanedText(s: string)
    ensures var r, classes := Cleaned(s, Code), Classes(s, Code);
      && |r| == |s|
      && (forall i :: 0 <= i < |s| ==> (r[i] == '\n' <==> s[i] == '\n'))
      && (forall i :: 0 <= i < |s| && classes[i] == Literal ==> r[i] == s[i] && Classes(r, Code)[i] == Literal)
      && (forall i :: 0 <= i < |s| ==> Classes(r, Code)[i] != Comment)
      && NoDanglingComma(r)
  {
    var r := Cleaned(s, Code);
    CleanedIsStable(s);
    forall i | 0 <= i < |s|
      ensures r[i] == '\n' <==> s[i] == '\n'
      ensures Classes(s, Code)[i] == Literal ==> r[i] == s[i]
    {
      CleanedPointwise(s, Code, i);
    }
    hide Cleaned, Classes, Pass, OnlySpaceToClosing;
    forall i, j: nat | 0 <= i < |s| && Classes(r, Code)[i] == Plain && r[i] == ','
      ensures !OnlySpaceToClosing(r, i, j)
    {
      StableCommaStaysOpen(r, i, j);
    }
  }

  /** A closing delimiter outside strings stands at j, and between i and it only comments, commas and JSON's
      white space. */
  ghost predicate ClosesBehind(s: string, classes: seq<Class>, i: nat, j: nat)
    requires |classes| == |s|
  {
    && i < j < |s| && classes[j] == Plain && (s[j] == '}' || s[j] == ']')
    && forall k :: i < k < j ==> classes[k] == Comment || (classes[k] == Plain && (s[k] == ',' || JsonSpace(s[k])))
  }

  /** The same, with any blank or control character and anything beyond ASCII allowed in between. */
  ghost predicate MayCloseBehind(s: string, classes: seq<Class>, i: nat, j: nat)
    requires |classes| == |s|
  {
    && i < j < |s| && classes[j] == Plain && (s[j] == '}' || s[j] == ']')
    && forall k :: i < k < j ==>
        classes[k] == Comment || (classes[k] == Plain && (s[k] == ',' || s[k] as int <= 0x20 || s[k] as int >= 0x85))
  }

  lemma BehindAndClosed(s: string, classes: seq<Class>, i: nat, j: nat)
    requires |classes| == |s|
    ensures ClosesBehind(s, classes, i, j) ==> ClosedBy(s, classes, i, j)
    ensures ClosedBy(s, classes, i, j) ==> MayCloseBehind(s, classes, i, j)
  {
  }

  /** A comma outside strings goes if it is dangling by JSON's white space, and stays unless it is dangling up
      to characters no JSON text has there; everything else outside strings and comments stays as it is. */
  lemma OnlyDanglingCommasGo(s: string, i: nat)
    requires i < |s| && Classes(s, Code)[i] == Plain
    ensures s[i] != ',' ==> Cleaned(s, Code)[i] == s[i]
    ensures s[i] == ',' && (exists j: nat :: ClosesBehind(s, Classes(s, Code), i, j)) ==> Cleaned(s, Code)[i] == ' '
    ensures s[i] == ',' && Cleaned(s, Code)[i] != ',' ==> exists j: nat :: MayCloseBehind(s, Classes(s, Code), i, j)
  {
    CleanedPointwise(s, Code, i);
    hide Cleaned, Classes, ClosesBehind, MayCloseBehind, ClosedBy;
    var classes := Classes(s, Code);
    if j: nat :| ClosesBehind(s, classes, i, j) {
      BehindAndClosed(s, classes, i, j);
    }
    if s[i] == ',' && Dangles(s, classes, i) {
      var j: int :| ClosedBy(s, classes, i, j);
      ClosedIsBehind(s, classes, i, j);
      BehindAndClosed(s, classes, i, j);
    }
  }

  lemma ClosedIsBehind(s: string, classes: seq<Class>, i: nat, j: int)
    requires |classes| == |s| && ClosedBy(s, classes, i, j)
    ensures j >= 0
  {
  }

  // ------------------------------------------------------------------------------------------
  // What comments and literals are, as they are written
  // ------------------------------------------------------------------------------------------

  /** One character of a string: itself, or behind a backslash. */
  datatype Piece = One(c: char) | Behind(c: char)

  /** What a text is written from: a character outside strings and comments, a comment to the end of the line,
      a comment between delimiters, a string. */
  datatype Token = Char(c: char) | ToEndOfLine(body: string) | Between(body: string) | Str(pieces: seq<Piece>)

  function SpellPieces(ps: seq<Piece>): string {
    if ps == [] then ""
    else (match ps[0] case One(c) => [c] case Behind(c) => ['\\', c]) + SpellPieces(ps[1..])
  }

  function Spell(t: Token): string {
    match t
    case Char(c) => [c]
    case ToEndOfLine(body) => "//" + body
    case Between(body) => "/*" + body + "*/"
    case Str(ps) => "\"" + SpellPieces(ps) + "\""
  }

  /** The text of the tokens, and then the rest. */
  function SpellAll(ts: seq<Token>, rest: string): string {
    if ts == [] then rest else Spell(ts[0]) + SpellAll(ts[1..], rest)
  }

  /** A token is written as such, with the given text behind it. */
  ghost predicate WrittenBefore(t: Token, after: string) {
    match t
    case Char(c) => c != '"' && !(c == '/' && after != "" && after[0] in "/*")
    case ToEndOfLine(body) => '\n' !in body && (after == "" || after[0] == '\n')
    case Between(body) => NoEnd(body)
    case Str(ps) => PlainPieces(ps)
  }

  ghost predicate NoEnd(body: string) {
    forall k :: 0 <= k < |body| - 1 ==> !(body[k] == '*' && body[k + 1] == '/')
  }

  ghost predicate PlainPieces(ps: seq<Piece>) {
    forall k :: 0 <= k < |ps| && ps[k].One? ==> ps[k].c != '"' && ps[k].c != '\\'
  }

  ghost predicate Written(ts: seq<Token>, rest: string) {
    ts == [] || (WrittenBefore(ts[0], SpellAll(ts[1..], rest)) && Written(ts[1..], rest))
  }

  function ClassOfToken(t: Token): Class {
    match t
    case Char(_) => Plain
    case ToEndOfLine(_) => Comment
    case Between(_) => Comment
    case Str(_) => Literal
  }

  function Times(c: Class, n: nat): (r: seq<Class>)
    ensures |r| == n && forall k :: 0 <= k < n ==> r[k] == c
  {
    seq(n, _ => c)
  }

  function ClassesOf(ts: seq<Token>): seq<Class> {
    if ts == [] then [] else Times(ClassOfToken(ts[0]), |Spell(ts[0])|) + ClassesOf(ts[1..])
  }

  /** The classes of a text and whether it ends inside a comment are those of what follows a beginning. */
  ghost predicate Reads(s: string, mode: Mode, c: Class, n: nat, after: string, next: Mode) {
    Classes(s, mode) == Times(c, n) + Classes(after, next) && Unterminated(s, mode) == Unterminated(after, next)
  }

  lemma ReadsOne(s: string, mode: Mode, c: Class)
    requires s != "" && Width(s, mode) == 1 && ClassOfHead(s, mode) == c
    ensures Reads(s, mode, c, 1, s[1..], Next(s, mode))
  {
  }

  lemma ReadsTwo(s: string, mode: Mode, c: Class)
    requires s != "" && Width(s, mode) == 2 && ClassOfHead(s, mode) == c
    ensures Reads(s, mode, c, 2, s[2..], Next(s, mode))
  {
  }

  lemma ReadsOn(s: string, m: Mode, c: Class, a: nat, t: string, n: Mode, b: nat, u: string, o: Mode)
    requires Reads(s, m, c, a, t, n) && Reads(t, n, c, b, u, o)
    ensures Reads(s, m, c, a + b, u, o)
  {
    hide Classes, Unterminated;
    assert Times(c, a) + (Times(c, b) + Classes(u, o)) == Times(c, a + b) + Classes(u, o);
  }

  lemma ReadsNothing(s: string, mode: Mode, c: Class)
    ensures Reads(s, mode, c, 0, s, mode)
  {
  }

  lemma {:induction false} ReadsLine(body: string, after: string)
    requires '\n' !in body && (after == "" || after[0] == '\n')
    ensures Reads(body + after, Line, Comment, |body|, after, Code)
  {
    var s := body + after;
    if body == "" {
      assert s == after;
      assert Classes(after, Line) == Classes(after, Code) && Unterminated(after, Line) == Unterminated(after, Code);
      ReadsNothing(after, Code, Comment);
    } else {
      assert s[1..] == body[1..] + after && s[0] == body[0] && body[0] in body;
      ReadsOne(s, Line, Comment);
      ReadsLine(body[1..], after);
      hide Reads;
      ReadsOn(s, Line, Comment, 1, s[1..], Line, |body| - 1, after, Code);
    }
  }

  lemma {:induction false} ReadsBlock(body: string, after: string)
    requires NoEnd(body)
    ensures Reads(body + "*/" + after, Block, Comment, |body| + 2, after, Code)
  {
    var s := body + "*/" + after;
    if body == "" {
      assert s[2..] == after;
      ReadsTwo(s, Block, Comment);
    } else {
      assert s[1..] == body[1..] + "*/" + after && s[0] == body[0];
      assert |body| > 1 ==> s[1] == body[1];
      assert !ClosesBlock(s);
      ReadsOne(s, Block, Comment);
      ReadsBlock(body[1..], after);
      hide Reads;
      ReadsOn(s, Block, Comment, 1, s[1..], Block, |body| + 1, after, Code);
    }
  }

  lemma ReadsPiece(p: Piece, t: string)
    requires p.One? ==> p.c != '"' && p.c != '\\'
    ensures var spelled := match p case One(c) => [c] case Behind(c) => ['\\', c];
      Reads(spelled + t, Quoted, Literal, |spelled|, t, Quoted)
  {
    match p
    case One(c) =>
      var s := [c] + t;
      assert s[1..] == t;
      ReadsOne(s, Quoted, Literal);
    case Behind(c) =>
      var s := ['\\', c] + t;
      assert s[1..] == [c] + t && s[1..][1..] == t;
      ReadsOne(s, Quoted, Literal);
      ReadsOne(s[1..], Escaped, Literal);
      hide Reads;
      ReadsOn(s, Quoted, Literal, 1, s[1..], Escaped, 1, t, Quoted);
  }

  lemma {:induction false} ReadsPieces(ps: seq<Piece>, after: string)
    requires PlainPieces(ps)
    ensures Reads(SpellPieces(ps) + "\"" + after, Quoted, Literal, |SpellPieces(ps)| + 1, after, Code)
    decreases |ps|
  {
    hide Reads;
    var s := SpellPieces(ps) + "\"" + after;
    if ps == [] {
      ReadsClosingQuote(after);
      assert s == "\"" + after;
    } else {
      var spelled := match ps[0] case One(c) => [c] case Behind(c) => ['\\', c];
      var t := SpellPieces(ps[1..]) + "\"" + after;
      assert s == spelled + t;
      ReadsPiece(ps[0], t);
      ReadsPieces(ps[1..], after);
      ReadsOn(s, Quoted, Literal, |spelled|, t, Quoted, |SpellPieces(ps[1..])| + 1, after, Code);
    }
  }

  lemma ReadsClosingQuote(after: string)
    ensures Reads("\"" + after, Quoted, Literal, 1, after, Code)
  {
    assert ("\"" + after)[1..] == after;
    ReadsOne("\"" + after, Quoted, Literal);
  }

  lemma ReadsChar(c: char, after: string)
    requires WrittenBefore(Char(c), after)
    ensures Reads([c] + after, Code, Plain, 1, after, Code)
  {
    var s := [c] + after;
    assert s[1..] == after;
    ReadsOne(s, Code, Plain);
  }

  lemma ReadsToEndOfLine(body: string, after: string)
    requires WrittenBefore(ToEndOfLine(body), after)
    ensures Reads("//" + body + after, Code, Comment, 2 + |body|, after, Code)
  {
    var s := "//" + body + after;
    assert s[1..] == "/" + body + after && s[1..][1..] == body + after;
    ReadsOne(s, Code, Comment);
    ReadsOne(s[1..], Line, Comment);
    ReadsLine(body, after);
    hide Reads;
    ReadsOn(s, Code, Comment, 1, s[1..], Line, 1, body + after, Line);
    ReadsOn(s, Code, Comment, 2, body + after, Line, |body|, after, Code);
  }

  lemma ReadsBetween(body: string, after: string)
    requires NoEnd(body)
    ensures Reads("/*" + body + "*/" + after, Code, Comment, 4 + |body|, after, Code)
  {
    var s := "/*" + body + "*/" + after;
    assert s[2..] == body + "*/" + after;
    ReadsTwo(s, Code, Comment);
    hide Reads;
    ReadsBlock(body, after);
    ReadsOn(s, Code, Comment, 2, s[2..], Block, |body| + 2, after, Code);
  }

  lemma ReadsOpeningQuote(t: string)
    ensures Reads("\"" + t, Code, Literal, 1, t, Quoted)
  {
    assert ("\"" + t)[1..] == t;
    ReadsOne("\"" + t, Code, Literal);
  }

  lemma ReadsString(ps: seq<Piece>, after: string)
    requires PlainPieces(ps)
    ensures Reads(Spell(Str(ps)) + after, Code, Literal, |Spell(Str(ps))|, after, Code)
  {
    hide Reads;
    var t := SpellPieces(ps) + "\"" + after;
    assert Spell(Str(ps)) + after == "\"" + t;
    ReadsOpeningQuote(t);
    ReadsPieces(ps, after);
    ReadsOn("\"" + t, Code, Literal, 1, t, Quoted, |SpellPieces(ps)| + 1, after, Code);
  }

  lemma ReadsToken(t: Token, after: string)
    requires WrittenBefore(t, after)
    ensures Reads(Spell(t) + after, Code, ClassOfToken(t), |Spell(t)|, after, Code)
  {
    hide Reads;
    match t
    case Char(c) => ReadsChar(c, after);
    case ToEndOfLine(body) => ReadsToEndOfLine(body, after);
    case Between(body) => ReadsBetween(body, after);
    case Str(ps) => ReadsString(ps, after);
  }

  /** Every text is taken apart as it was written: the comments and the strings of its tokens are exactly its
      comments and its literals, whatever the tokens hold and whatever comes behind them. */
  lemma {:induction false} LexerReadsTokens(ts: seq<Token>, rest: string)
    requires Written(ts, rest)
    ensures Classes(SpellAll(ts, rest), Code) == ClassesOf(ts) + Classes(rest, Code)
    ensures Unterminated(SpellAll(ts, rest), Code) == Unterminated(rest, Code)
  {
    hide Classes, Unterminated, Spell, WrittenBefore;
    if ts == [] {
      assert [] + Classes(rest, Code) == Classes(rest, Code);
    } else {
      var after := SpellAll(ts[1..], rest);
      ReadsToken(ts[0], after);
      LexerReadsTokens(ts[1..], rest);
      var first := Times(ClassOfToken(ts[0]), |Spell(ts[0])|);
      assert first + (ClassesOf(ts[1..]) + Classes(rest, Code)) == first + ClassesOf(ts[1..]) + Classes(rest, Code);
    }
  }

  /** A comment that is opened between delimiters and not closed is what the cleaner refuses. */
  lemma {:induction false} OpenCommentIsRefused(ts: seq<Token>, body: string)
    requires Written(ts, "/*" + body) && NoEnd(body)
    ensures Unterminated(SpellAll(ts, "/*" + body), Code)
  {
    var rest := "/*" + body;
    LexerReadsTokens(ts, rest);
    assert rest[2..] == body;
    hide SpellAll;
    OpenBlockEnds(body);
  }

  lemma {:induction false} OpenBlockEnds(body: string)
    requires NoEnd(body)
    ensures Unterminated(body, Block)
  {
    if body != "" { OpenBlockEnds(body[1..]); }
  }

  /** A text written to its end is cleaned, not refused. */
  lemma WrittenIsTerminated(ts: seq<Token>)
    requires Written(ts, "")
    ensures !Unterminated(SpellAll(ts, ""), Code) && Classes(SpellAll(ts, ""), Code) == ClassesOf(ts)
  {
    LexerReadsTokens(ts, "");
  }
}
