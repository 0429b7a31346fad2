/** The append-only, fsynced line journal. */
module Journal {
  // One encoded record a line, synced per append, replayed on open. The file is a byte sequence of which a
  // prefix is durable; a crash keeps the durable prefix and any part of the rest.

  type Byte = x: int | 0 <= x < 256

  const NEWLINE: Byte := 10
  const RETURN: Byte := 13

  // ------------------------------------------------------------------------------------------
  // Records and the honest trial count
  // ------------------------------------------------------------------------------------------

  datatype Record =
    | SweepCompleted(sweep: nat, trialsOffered: nat)
    | SweepFailed(sweep: nat, trialsOffered: nat)
    | SweepAbandoned(sweep: nat, trialsOffered: nat)
    | ShuffleControlCompleted(block: nat, trialsOffered: nat)
    | BestEverAdvanced(sweep: nat)
    | PosteriorRetracted(block: nat)
    | GarbageCollected(bytes: nat)
    | TruncatedTail(bytes: nat)
    | Other(tag: nat, payload: seq<Byte>)

  predicate IsTerminal(r: Record) {
    r.SweepCompleted? || r.SweepFailed? || r.SweepAbandoned?
  }

  /** `n_session`: the trials of every terminal sweep record. */
  function NSession(rs: seq<Record>): nat {
    if rs == [] then 0 else (if IsTerminal(rs[0]) then rs[0].trialsOffered else 0) + NSession(rs[1..])
  }

  lemma {:induction false} NSessionAdditive(a: seq<Record>, b: seq<Record>)
    ensures NSession(a + b) == NSession(a) + NSession(b)
  {
    if a == [] {
      assert a + b == b;
    } else {
      assert (a + b)[1..] == a[1..] + b;
      NSessionAdditive(a[1..], b);
    }
  }

  /** A record added at the end counts its trials if it ends a sweep, however the sweep ended, and nothing
      otherwise; the control's summary restates trials its own sweep has counted. */
  lemma NSessionNext(rs: seq<Record>, r: Record)
    ensures r.SweepCompleted? || r.SweepFailed? || r.SweepAbandoned? ==>
        NSession(rs + [r]) == NSession(rs) + r.trialsOffered
    ensures (r.ShuffleControlCompleted? || r.BestEverAdvanced? || r.PosteriorRetracted? || r.GarbageCollected?
             || r.TruncatedTail? || r.Other?) ==> NSession(rs + [r]) == NSession(rs)
  {
    NSessionAdditive(rs, [r]);
    assert [r][1..] == [];
  }

  /** `a` can be obtained from `b` by leaving records out. */
  ghost predicate Within(a: seq<Record>, b: seq<Record>)
    decreases |b|
  {
    a == [] || (b != [] && ((a[0] == b[0] && Within(a[1..], b[1..])) || Within(a, b[1..])))
  }

  lemma {:induction false} NSessionMonotone(a: seq<Record>, b: seq<Record>)
    requires Within(a, b)
    ensures NSession(a) <= NSession(b)
    decreases |b|
  {
    if a != [] {
      if a[0] == b[0] && Within(a[1..], b[1..]) {
        NSessionMonotone(a[1..], b[1..]);
      } else {
        NSessionMonotone(a, b[1..]);
      }
    }
  }

  // ------------------------------------------------------------------------------------------
  // Lines
  // ------------------------------------------------------------------------------------------

  datatype Line = Line(number: nat, atMs: int, record: Record)

  datatype Decoded = Parsed(record: Record) | NotUtf8 | Malformed | ForeignSchema

  /** Serialisation, as the journal calls it. */
  datatype Codec = Codec(encode: Line -> seq<Byte>, decode: seq<Byte> -> Decoded, blank: seq<Byte> -> bool)

  /** A non-empty beginning of an encoded line, as a write that stopped leaves it. */
  ghost predicate Fragment(codec: Codec, b: seq<Byte>) {
    b != [] && exists l :: b <= codec.encode(l)
  }

  function Concat(parts: seq<seq<Byte>>): seq<Byte> {
    if parts == [] then [] else parts[0] + Concat(parts[1..])
  }

  /** An encoded line has no newline, is not blank, does not end in a carriage return and decodes to
      its record; and no line glued behind unfinished ones decodes at all, as for JSON objects. */
  ghost predicate Lawful(codec: Codec) {
    && (forall l :: var e := codec.encode(l);
          e != [] && NEWLINE !in e && e[|e| - 1] != RETURN && !codec.blank(e) && codec.decode(e) == Parsed(l.record))
    && (forall parts: seq<seq<Byte>>, l :: parts != [] && (forall k :: 0 <= k < |parts| ==> Fragment(codec, parts[k]))
          ==> Glued(codec, Concat(parts) + codec.encode(l)))
  }

  ghost predicate Glued(codec: Codec, b: seq<Byte>) {
    !codec.blank(b) && !codec.decode(b).Parsed?
  }

  // ------------------------------------------------------------------------------------------
  // Such a codec exists
  // ------------------------------------------------------------------------------------------

  function Unary(n: nat): (r: seq<Byte>)
    ensures r != [] && forall k :: 0 <= k < |r| ==> r[k] == 1 || r[k] == 2
  {
    if n == 0 then [2] else [1] + Unary(n - 1)
  }

  function Unaries(ns: seq<nat>): (r: seq<Byte>)
    ensures forall k :: 0 <= k < |r| ==> r[k] == 1 || r[k] == 2
  {
    if ns == [] then [] else Unary(ns[0]) + Unaries(ns[1..])
  }

  lemma {:induction false} UnaryIsPrefixFree(m: nat, n: nat, x: seq<Byte>, y: seq<Byte>)
    requires Unary(m) + x == Unary(n) + y
    ensures m == n && x == y
  {
    var a, b := Unary(m) + x, Unary(n) + y;
    assert a[0] == b[0];
    if m == 0 {
      assert a[1..] == x && b[1..] == y;
    } else {
      assert a[1..] == Unary(m - 1) + x && b[1..] == Unary(n - 1) + y;
      UnaryIsPrefixFree(m - 1, n - 1, x, y);
    }
  }

  lemma {:induction false} UnariesAreInjective(a: seq<nat>, b: seq<nat>)
    requires Unaries(a) == Unaries(b)
    ensures a == b
  {
    if a != [] && b != [] {
      UnaryIsPrefixFree(a[0], b[0], Unaries(a[1..]), Unaries(b[1..]));
      UnariesAreInjective(a[1..], b[1..]);
      assert a == [a[0]] + a[1..] && b == [b[0]] + b[1..];
    }
  }

  function RecordFields(r: Record): seq<nat> {
    match r
    case SweepCompleted(sweep, trials) => [0, sweep, trials]
    case SweepFailed(sweep, trials) => [1, sweep, trials]
    case SweepAbandoned(sweep, trials) => [2, sweep, trials]
    case ShuffleControlCompleted(block, trials) => [3, block, trials]
    case BestEverAdvanced(sweep) => [4, sweep]
    case PosteriorRetracted(block) => [5, block]
    case GarbageCollected(bytes) => [6, bytes]
    case TruncatedTail(bytes) => [7, bytes]
    case Other(tag, payload) => [8, tag] + payload
  }

  function Fields(l: Line): seq<nat> {
    [l.number, if l.atMs < 0 then 1 else 0, if l.atMs < 0 then -l.atMs else l.atMs] + RecordFields(l.record)
  }

  lemma FieldsAreInjective(a: Line, b: Line)
    requires Fields(a) == Fields(b)
    ensures a == b
  {
    var x, y := RecordFields(a.record), RecordFields(b.record);
    assert Fields(a)[3..] == x && Fields(b)[3..] == y;
    assert Fields(a)[0] == Fields(b)[0] && Fields(a)[1] == Fields(b)[1] && Fields(a)[2] == Fields(b)[2];
    assert x[0] == y[0] && x[1] == y[1];
    if a.record.Other? {
      assert x[2..] == a.record.payload && y[2..] == b.record.payload;
    }
  }

  /** A line between braces that occur nowhere inside it. */
  function Braced(l: Line): seq<Byte> {
    [123] + Unaries(Fields(l)) + [125]
  }

  ghost function Unbraced(b: seq<Byte>): Decoded {
    if exists l :: Braced(l) == b then
      var l :| Braced(l) == b;
      Parsed(l.record)
    else Malformed
  }

  ghost predicate Empty(b: seq<Byte>) { b == [] }

  lemma BracedIsInjective(a: Line, b: Line)
    requires Braced(a) == Braced(b)
    ensures a == b
  {
    assert Braced(a)[1..|Braced(a)| - 1] == Unaries(Fields(a)) && Braced(b)[1..|Braced(b)| - 1] == Unaries(Fields(b));
    UnariesAreInjective(Fields(a), Fields(b));
    FieldsAreInjective(a, b);
  }

  lemma OneBrace(l: Line, k: nat)
    requires k < |Braced(l)|
    ensures Braced(l)[k] == 123 <==> k == 0
    ensures Braced(l)[k] != NEWLINE && Braced(l)[|Braced(l)| - 1] == 125
  {
    hide Unaries, Fields;
  }

  /** Two braces make no line. */
  lemma TwoBraces(b: seq<Byte>, i: nat, l: Line)
    requires 0 < i < |b| && b[i] == 123
    ensures Braced(l) != b
  {
    if Braced(l) == b { OneBrace(l, i); }
  }

  lemma PartsAreNotNothing(codec: Codec, parts: seq<seq<Byte>>)
    requires parts != [] && Fragment(codec, parts[0])
    ensures |Concat(parts)| > 0
  {
  }

  lemma SecondBrace(c: seq<Byte>, l: Line, other: Line)
    requires |c| > 0
    ensures Braced(other) != c + Braced(l)
  {
    OneBrace(l, 0);
    TwoBraces(c + Braced(l), |c|, other);
  }

  lemma NoLineNoRecord(codec: Codec, b: seq<Byte>)
    requires codec == Codec(Braced, Unbraced, Empty) && b != [] && forall l :: Braced(l) != b
    ensures Glued(codec, b)
  {
    hide Braced;
  }

  lemma BracedGlues(codec: Codec, parts: seq<seq<Byte>>, l: Line)
    requires codec == Codec(Braced, Unbraced, Empty)
    requires parts != [] && Fragment(codec, parts[0])
    ensures Glued(codec, Concat(parts) + Braced(l))
  {
    PartsAreNotNothing(codec, parts);
    hide Fragment, Concat, Braced, Unbraced, Empty, Glued;
    forall other ensures Braced(other) != Concat(parts) + Braced(l) { SecondBrace(Concat(parts), l, other); }
    NoLineNoRecord(codec, Concat(parts) + Braced(l));
  }

  /** The assumptions about serialisation can be met. */
  lemma SomeCodecIsLawful()
    ensures exists codec :: Lawful(codec)
  {
    var codec := Codec(Braced, Unbraced, Empty);
    forall l
      ensures var e := codec.encode(l);
        e != [] && NEWLINE !in e && e[|e| - 1] != RETURN && !codec.blank(e) && codec.decode(e) == Parsed(l.record)
    {
      var e := codec.encode(l);
      assert e == Braced(l);
      OneBrace(l, 0);
      forall k | 0 <= k < |e| ensures e[k] != NEWLINE { OneBrace(l, k); }
      forall other | Braced(other) == Braced(l) ensures other == l { BracedIsInjective(other, l); }
    }
    forall parts: seq<seq<Byte>>, l | parts != [] && (forall k :: 0 <= k < |parts| ==> Fragment(codec, parts[k]))
      ensures Glued(codec, Concat(parts) + codec.encode(l))
    {
      hide Fragment, Concat, Braced, Unbraced, Empty, Glued;
      BracedGlues(codec, parts, l);
      assert codec.encode(l) == Braced(l);
    }
    assert Lawful(codec);
  }

  // ------------------------------------------------------------------------------------------
  // Replay
  // ------------------------------------------------------------------------------------------

  datatype Replay = Replayed(records: seq<Record>) | Refused(line: nat)

  function IndexOf(b: Byte, s: seq<Byte>): (i: nat)
    ensures i <= |s| && (i < |s| ==> s[i] == b) && forall k :: 0 <= k < i ==> s[k] != b
  {
    if s == [] || s[0] == b then 0 else 1 + IndexOf(b, s[1..])
  }

  function StripReturn(s: seq<Byte>): seq<Byte> {
    if s != [] && s[|s| - 1] == RETURN then s[..|s| - 1] else s
  }

  /** Decode the complete lines in order; the first bad one refuses the file. `line` counts lines. */
  function ReplayLines(codec: Codec, s: seq<Byte>, line: nat): Replay
    decreases |s|
  {
    if s == [] then Replayed([])
    else
      var i := IndexOf(NEWLINE, s);
      var text := StripReturn(s[..i]);
      var rest := if i < |s| then s[i + 1..] else [];
      if codec.blank(text) then ReplayLines(codec, rest, line + 1)
      else match codec.decode(text)
        case Parsed(r) =>
          (match ReplayLines(codec, rest, line + 1)
           case Replayed(rs) => Replayed([r] + rs)
           case Refused(n) => Refused(n))
        case _ => Refused(line)
  }

  /** How much of the file is complete lines. */
  function CompleteLength(s: seq<Byte>): (n: nat)
    ensures n <= |s| && (n > 0 ==> s[n - 1] == NEWLINE) && NEWLINE !in s[n..]
  {
    if s == [] then 0
    else if s[|s| - 1] == NEWLINE then |s|
    else
      var n := CompleteLength(s[..|s| - 1]);
      assert s[n..] == s[..|s| - 1][n..] + [s[|s| - 1]];
      n
  }

  // ------------------------------------------------------------------------------------------
  // What was written, write by write
  // ------------------------------------------------------------------------------------------

  /** One write that left bytes in the file. `acked`: the append returned success. `known`: the
      record is in the memory of the open handle. `kept`: it was in memory when an append last
      returned success. */
  datatype Item = Whole(line: Line, acked: bool, known: bool, kept: bool) | Torn(bytes: seq<Byte>)

  function Bytes(codec: Codec, item: Item): seq<Byte> {
    match item
    case Whole(l, _, _, _) => codec.encode(l) + [NEWLINE]
    case Torn(b) => b
  }

  function Layout(codec: Codec, items: seq<Item>): seq<Byte> {
    if items == [] then [] else Bytes(codec, items[0]) + Layout(codec, items[1..])
  }

  ghost predicate Sound(codec: Codec, items: seq<Item>) {
    forall k :: 0 <= k < |items| && items[k].Torn? ==> Fragment(codec, items[k].bytes)
  }

  /** No whole line was written behind a write that stopped half way. */
  ghost predicate Clean(items: seq<Item>) {
    forall j, k :: 0 <= j < k < |items| && items[k].Whole? ==> items[j].Whole?
  }

  predicate IsWhole(item: Item) { item.Whole? }
  predicate IsAcked(item: Item) { item.Whole? && item.acked }
  predicate IsKnown(item: Item) { item.Whole? && item.known }
  predicate IsKept(item: Item) { item.Whole? && item.kept }

  /** The records of the selected whole lines, in order. */
  function Picked(items: seq<Item>, which: Item -> bool): seq<Record> {
    if items == [] then []
    else (if which(items[0]) && items[0].Whole? then [items[0].line.record] else []) + Picked(items[1..], which)
  }

  function Records(items: seq<Item>): seq<Record> { Picked(items, IsWhole) }
  function Acked(items: seq<Item>): seq<Record> { Picked(items, IsAcked) }
  function Known(items: seq<Item>): seq<Record> { Picked(items, IsKnown) }
  function KeptRecords(items: seq<Item>): seq<Record> { Picked(items, IsKept) }

  lemma {:induction false} LayoutSplit(codec: Codec, a: seq<Item>, b: seq<Item>)
    ensures Layout(codec, a + b) == Layout(codec, a) + Layout(codec, b)
  {
    if a == [] {
      assert a + b == b;
    } else {
      assert (a + b)[1..] == a[1..] + b;
      LayoutSplit(codec, a[1..], b);
    }
  }

  lemma {:induction false} PickedSplit(a: seq<Item>, b: seq<Item>, which: Item -> bool)
    ensures Picked(a + b, which) == Picked(a, which) + Picked(b, which)
  {
    if a == [] {
      assert a + b == b;
    } else {
      assert (a + b)[1..] == a[1..] + b;
      PickedSplit(a[1..], b, which);
    }
  }

  lemma {:induction false} ConcatSnoc(parts: seq<seq<Byte>>, b: seq<Byte>)
    ensures Concat(parts + [b]) == Concat(parts) + b
  {
    if parts == [] {
      assert parts + [b] == [b];
    } else {
      assert (parts + [b])[1..] == parts[1..] + [b];
      ConcatSnoc(parts[1..], b);
    }
  }

  ghost predicate Fragments(codec: Codec, parts: seq<seq<Byte>>) {
    forall k :: 0 <= k < |parts| ==> Fragment(codec, parts[k])
  }

  lemma FragmentHasNoNewline(codec: Codec, b: seq<Byte>)
    requires Lawful(codec) && Fragment(codec, b)
    ensures NEWLINE !in b
  {
    var l :| b <= codec.encode(l);
    assert NEWLINE !in codec.encode(l);
  }

  lemma {:induction false} FragmentsHaveNoNewline(codec: Codec, parts: seq<seq<Byte>>)
    requires Lawful(codec) && Fragments(codec, parts)
    ensures NEWLINE !in Concat(parts)
  {
    if parts != [] {
      FragmentHasNoNewline(codec, parts[0]);
      FragmentsHaveNoNewline(codec, parts[1..]);
    }
  }

  /** The first line of a text, and the rest. */
  lemma {:induction false} FirstLine(t: seq<Byte>, s: seq<Byte>)
    requires NEWLINE !in t
    ensures IndexOf(NEWLINE, t + [NEWLINE] + s) == |t|
    ensures (t + [NEWLINE] + s)[..|t|] == t && (t + [NEWLINE] + s)[|t| + 1..] == s
  {
    var u := t + [NEWLINE] + s;
    assert u[|t|] == NEWLINE && forall k :: 0 <= k < |t| ==> u[k] == t[k];
  }

  /** A line that is not blank and does not end in a carriage return. */
  lemma ReplayOneLine(codec: Codec, t: seq<Byte>, s: seq<Byte>, line: nat)
    requires NEWLINE !in t && t != [] && t[|t| - 1] != RETURN && !codec.blank(t)
    ensures ReplayLines(codec, t + [NEWLINE] + s, line) ==
      match codec.decode(t)
      case Parsed(r) =>
        (match ReplayLines(codec, s, line + 1)
         case Replayed(rs) => Replayed([r] + rs)
         case Refused(n) => Refused(n))
      case _ => Refused(line)
  {
    FirstLine(t, s);
  }

  /** What a complete line does to a replay, whatever it holds. A blank one is skipped, but keeps its line
      number; one that does not decode refuses the file under its number; any other adds its record. A carriage
      return before the newline belongs to the line break. */
  lemma LineByLine(codec: Codec, t: seq<Byte>, s: seq<Byte>, line: nat)
    requires 10 !in t && (t == [] || t[|t| - 1] != 13)
    ensures ReplayLines(codec, t + [13] + [10] + s, line) == ReplayLines(codec, t + [10] + s, line)
    ensures codec.blank(t) ==> ReplayLines(codec, t + [10] + s, line) == ReplayLines(codec, s, line + 1)
    ensures !codec.blank(t) && !codec.decode(t).Parsed? ==> ReplayLines(codec, t + [10] + s, line) == Refused(line)
    ensures !codec.blank(t) && codec.decode(t).Parsed? ==>
      var (one, rest) := (ReplayLines(codec, t + [10] + s, line), ReplayLines(codec, s, line + 1));
      && (rest.Replayed? ==> one == Replayed([codec.decode(t).record] + rest.records))
      && (rest.Refused? ==> one == rest)
  {
    FirstLine(t, s);
    FirstLine(t + [13], s);
    assert (t + [13])[..|t|] == t;
  }

  lemma EncodedLine(codec: Codec, l: Line)
    requires Lawful(codec)
    ensures var e := codec.encode(l);
      e != [] && NEWLINE !in e && e[|e| - 1] != RETURN && !codec.blank(e) && codec.decode(e) == Parsed(l.record)
  {
  }

  lemma GluedLine(codec: Codec, parts: seq<seq<Byte>>, l: Line)
    requires Lawful(codec) && Fragments(codec, parts) && parts != []
    ensures Glued(codec, Concat(parts) + codec.encode(l))
  {
  }

  ghost predicate AllWhole(items: seq<Item>) {
    forall k :: 0 <= k < |items| ==> items[k].Whole?
  }

  lemma WholeReplays(codec: Codec, parts: seq<seq<Byte>>, l: Line, s: seq<Byte>, line: nat)
    requires Lawful(codec) && Fragments(codec, parts)
    ensures ReplayLines(codec, Concat(parts) + codec.encode(l) + [NEWLINE] + s, line) ==
      if parts != [] then Refused(line)
      else match ReplayLines(codec, s, line + 1)
        case Replayed(rs) => Replayed([l.record] + rs)
        case Refused(n) => Refused(n)
  {
    var t := Concat(parts) + codec.encode(l);
    EncodedLine(codec, l);
    FragmentsHaveNoNewline(codec, parts);
    if parts == [] {
      assert t == codec.encode(l);
    } else {
      GluedLine(codec, parts, l);
    }
    hide Lawful, Fragments, ReplayLines;
    ReplayOneLine(codec, t, s, line);
  }

  /** Replaying what was written: all whole lines give their records, anything else is refused. */
  lemma ReplayNothing(codec: Codec, line: nat)
    ensures ReplayLines(codec, Concat([]) + Layout(codec, []), line) == Replayed([])
  {
  }

  lemma FragmentsSnoc(codec: Codec, parts: seq<seq<Byte>>, items: seq<Item>)
    requires Fragments(codec, parts) && Sound(codec, items) && items != [] && items[0].Torn?
    ensures Fragments(codec, parts + [items[0].bytes]) && Sound(codec, items[1..])
    ensures Concat(parts) + Layout(codec, items) == Concat(parts + [items[0].bytes]) + Layout(codec, items[1..])
  {
    ConcatSnoc(parts, items[0].bytes);
  }

  lemma WholeFirst(codec: Codec, parts: seq<seq<Byte>>, items: seq<Item>)
    requires items != [] && items[0].Whole?
    ensures Concat(parts) + Layout(codec, items)
      == Concat(parts) + codec.encode(items[0].line) + [NEWLINE] + Layout(codec, items[1..])
    ensures Records(items) == [items[0].line.record] + Records(items[1..])
    ensures AllWhole(items) <==> AllWhole(items[1..])
    ensures Concat([]) + Layout(codec, items[1..]) == Layout(codec, items[1..])
  {
    FourParts(Concat(parts), codec.encode(items[0].line), [NEWLINE], Layout(codec, items[1..]));
  }

  lemma FourParts(a: seq<Byte>, b: seq<Byte>, c: seq<Byte>, d: seq<Byte>)
    ensures a + (b + c + d) == a + b + c + d
  {
  }

  lemma {:induction false} LayoutReplays(codec: Codec, parts: seq<seq<Byte>>, items: seq<Item>, line: nat)
    requires Lawful(codec) && Fragments(codec, parts) && Sound(codec, items)
    requires if items == [] then parts == [] else items[|items| - 1].Whole?
    ensures var r := ReplayLines(codec, Concat(parts) + Layout(codec, items), line);
      if parts == [] && AllWhole(items) then r == Replayed(Records(items)) else r.Refused?
    decreases |items|
  {
    hide Lawful, ReplayLines, Fragments, Layout, Concat;
    if items == [] {
      ReplayNothing(codec, line);
    } else {
      var rest := items[1..];
      assert rest == [] || rest[|rest| - 1] == items[|items| - 1];
      match items[0]
      case Whole(l, _, _, _) =>
        WholeReplays(codec, parts, l, Layout(codec, rest), line);
        WholeFirst(codec, parts, items);
        if parts == [] {
          LayoutReplays(codec, [], rest, line + 1);
        }
      case Torn(b) =>
        FragmentsSnoc(codec, parts, items);
        LayoutReplays(codec, parts + [b], rest, line);
    }
  }

  // ------------------------------------------------------------------------------------------
  // Cutting and truncating
  // ------------------------------------------------------------------------------------------

  /** The items up to the last whole line. */
  function Complete(items: seq<Item>): (n: nat)
    ensures n <= |items| && (n > 0 ==> items[n - 1].Whole?) && forall k :: n <= k < |items| ==> items[k].Torn?
  {
    if items == [] then 0
    else if items[|items| - 1].Whole? then |items|
    else Complete(items[..|items| - 1])
  }

  lemma CompleteLengthIs(a: seq<Byte>, t: seq<Byte>)
    requires NEWLINE !in t && (a != [] ==> a[|a| - 1] == NEWLINE)
    ensures CompleteLength(a + t) == |a|
  {
    var u := a + t;
    var n := CompleteLength(u);
    forall k | n <= k < |u| ensures u[k] != NEWLINE {
      assert u[n..][k - n] == u[k];
    }
    assert forall k :: |a| <= k < |u| ==> u[k] == t[k - |a|];
    assert a != [] ==> u[|a| - 1] == NEWLINE;
  }

  lemma {:induction false} TornHasNoNewline(codec: Codec, items: seq<Item>)
    requires Lawful(codec) && Sound(codec, items) && forall k :: 0 <= k < |items| ==> items[k].Torn?
    ensures NEWLINE !in Layout(codec, items)
  {
    if items != [] {
      FragmentHasNoNewline(codec, items[0].bytes);
      TornHasNoNewline(codec, items[1..]);
    }
  }

  lemma {:induction false} LayoutEndsInNewline(codec: Codec, items: seq<Item>)
    requires items != [] && items[|items| - 1].Whole?
    ensures var s := Layout(codec, items); s != [] && s[|s| - 1] == NEWLINE
  {
    if |items| > 1 {
      assert items[1..][|items| - 2] == items[|items| - 1];
      LayoutEndsInNewline(codec, items[1..]);
    }
  }

  lemma EmptyLayout(codec: Codec, items: seq<Item>)
    requires items == []
    ensures Layout(codec, items) == []
  {
  }

  /** The file is the items up to the last whole one, which end in a newline, and a tail without any. */
  lemma LayoutAtComplete(codec: Codec, items: seq<Item>)
    requires Lawful(codec) && Sound(codec, items)
    ensures var a, t := Layout(codec, items[..Complete(items)]), Layout(codec, items[Complete(items)..]);
      && Layout(codec, items) == a + t && NEWLINE !in t && (a != [] ==> a[|a| - 1] == NEWLINE)
  {
    hide Lawful, Fragment, Layout;
    var n := Complete(items);
    assert items == items[..n] + items[n..];
    LayoutSplit(codec, items[..n], items[n..]);
    TornHasNoNewline(codec, items[n..]);
    if n > 0 {
      LayoutEndsInNewline(codec, items[..n]);
    } else {
      EmptyLayout(codec, items[..n]);
    }
  }

  /** The complete lines of the file are the items up to the last whole one. */
  lemma CompleteLayout(codec: Codec, items: seq<Item>)
    requires Lawful(codec) && Sound(codec, items)
    ensures var s, n := Layout(codec, items), Complete(items);
      CompleteLength(s) == |Layout(codec, items[..n])| && s[..CompleteLength(s)] == Layout(codec, items[..n])
  {
    hide *;
    LayoutAtComplete(codec, items);
    CompleteLengthIs(Layout(codec, items[..Complete(items)]), Layout(codec, items[Complete(items)..]));
  }

  /** What a file opens to. */
  function Opened(codec: Codec, s: seq<Byte>): Replay {
    ReplayLines(codec, s[..CompleteLength(s)], 1)
  }

  lemma CleanIffCompleteWhole(items: seq<Item>)
    ensures AllWhole(items[..Complete(items)]) <==> Clean(items)
  {
    var n := Complete(items);
    if AllWhole(items[..n]) {
      forall j, k | 0 <= j < k < |items| && items[k].Whole? ensures items[j].Whole? {
        assert items[..n][j] == items[j];
      }
    }
  }

  /** A file opens exactly when no whole line was glued behind a write that stopped half way, and
      then it yields the record of every whole line. */
  lemma OpensIffClean(codec: Codec, items: seq<Item>)
    requires Lawful(codec) && Sound(codec, items)
    ensures Opened(codec, Layout(codec, items)).Replayed? <==> Clean(items)
    ensures Clean(items) ==> Opened(codec, Layout(codec, items)) == Replayed(Records(items))
  {
    hide Lawful, ReplayLines, Sound, Layout, AllWhole, Clean, Picked;
    var n := Complete(items);
    CompleteLayout(codec, items);
    PrefixReplays(codec, items, n);
    CleanIffCompleteWhole(items);
    RecordsOfComplete(items);
  }

  lemma PrefixReplays(codec: Codec, items: seq<Item>, n: nat)
    requires Lawful(codec) && Sound(codec, items) && n <= |items| && (n > 0 ==> items[n - 1].Whole?)
    ensures var r := ReplayLines(codec, Layout(codec, items[..n]), 1);
      if AllWhole(items[..n]) then r == Replayed(Records(items[..n])) else r.Refused?
  {
    hide Lawful, ReplayLines, Layout, AllWhole, Picked;
    LayoutReplays(codec, [], items[..n], 1);
    assert Concat([]) + Layout(codec, items[..n]) == Layout(codec, items[..n]);
  }

  lemma RecordsOfComplete(items: seq<Item>)
    ensures Records(items[..Complete(items)]) == Records(items)
  {
    var n := Complete(items);
    assert items == items[..n] + items[n..];
    PickedSplit(items[..n], items[n..], IsWhole);
    TornHasNoRecords(items[n..], IsWhole);
  }

  lemma {:induction false} TornHasNoRecords(items: seq<Item>, which: Item -> bool)
    requires forall k :: 0 <= k < |items| ==> items[k].Torn?
    ensures Picked(items, which) == []
  {
    if items != [] {
      TornHasNoRecords(items[1..], which);
    }
  }

  /** What a crash that keeps `keep` bytes leaves of the writes. */
  function Cut(codec: Codec, items: seq<Item>, keep: nat): seq<Item> {
    if items == [] || keep == 0 then []
    else
      var b := Bytes(codec, items[0]);
      if |b| <= keep then [items[0]] + Cut(codec, items[1..], keep - |b|) else [Torn(b[..keep])]
  }

  lemma BrokenWrite(codec: Codec, item: Item, keep: nat)
    requires 0 < keep < |Bytes(codec, item)| && (item.Torn? ==> Fragment(codec, item.bytes))
    ensures Fragment(codec, Bytes(codec, item)[..keep])
  {
    match item
    case Whole(l, _, _, _) =>
      assert Bytes(codec, item)[..keep] <= codec.encode(l);
    case Torn(b) =>
      var l :| b <= codec.encode(l);
      assert b[..keep] <= codec.encode(l);
  }

  lemma {:induction false} CutLayout(codec: Codec, items: seq<Item>, keep: nat)
    requires keep <= |Layout(codec, items)|
    ensures Layout(codec, Cut(codec, items, keep)) == Layout(codec, items)[..keep]
  {
    if items != [] && keep != 0 {
      var b := Bytes(codec, items[0]);
      if |b| <= keep {
        CutLayout(codec, items[1..], keep - |b|);
        assert Cut(codec, items, keep) == [items[0]] + Cut(codec, items[1..], keep - |b|);
      } else {
        assert Layout(codec, [Torn(b[..keep])]) == b[..keep];
      }
    }
  }

  lemma {:induction false} CutSound(codec: Codec, items: seq<Item>, keep: nat)
    requires Sound(codec, items)
    ensures Sound(codec, Cut(codec, items, keep))
  {
    if items != [] && keep != 0 {
      var b := Bytes(codec, items[0]);
      if |b| <= keep {
        CutSound(codec, items[1..], keep - |b|);
      } else {
        BrokenWrite(codec, items[0], keep);
      }
    }
  }

  lemma {:induction false} CutClean(codec: Codec, items: seq<Item>, keep: nat)
    requires Clean(items)
    ensures Clean(Cut(codec, items, keep))
    ensures forall k :: 0 <= k < |Cut(codec, items, keep)| && Cut(codec, items, keep)[k].Whole? ==>
        k < |items| && items[k] == Cut(codec, items, keep)[k]
  {
    if items != [] && keep != 0 {
      var b := Bytes(codec, items[0]);
      if |b| <= keep {
        var rest := Cut(codec, items[1..], keep - |b|);
        CutClean(codec, items[1..], keep - |b|);
        var all := [items[0]] + rest;
        forall j, k | 0 <= j < k < |all| && all[k].Whole? ensures all[j].Whole? {
          assert rest[k - 1] == items[1..][k - 1] == items[k];
          assert items[j].Whole?;
          if j > 0 {
            assert rest[j - 1].Whole?;
          }
        }
      }
    }
  }

  // ------------------------------------------------------------------------------------------
  // Selections survive what they should survive
  // ------------------------------------------------------------------------------------------

  lemma WithinCons(item: Item, a: seq<Record>, b: seq<Record>)
    requires Within(a, b) && item.Whole?
    ensures Within([item.line.record] + a, [item.line.record] + b) && Within(a, [item.line.record] + b)
  {
    assert ([item.line.record] + a)[1..] == a && ([item.line.record] + b)[1..] == b;
  }

  lemma {:induction false} PickedWithin(items: seq<Item>, a: Item -> bool, b: Item -> bool)
    requires forall k :: 0 <= k < |items| && a(items[k]) ==> b(items[k])
    ensures Within(Picked(items, a), Picked(items, b)) && |Picked(items, a)| <= |Picked(items, b)|
  {
    if items != [] {
      PickedWithin(items[1..], a, b);
      var pa, pb := Picked(items[1..], a), Picked(items[1..], b);
      assert [] + pa == pa && [] + pb == pb;
      if items[0].Whole? { WithinCons(items[0], pa, pb); }
    }
  }

  /** The position behind the last selected item. */
  function Reach(codec: Codec, items: seq<Item>, which: Item -> bool): nat {
    if items == [] then 0
    else
      var r := Reach(codec, items[1..], which);
      if r > 0 || which(items[0]) then |Bytes(codec, items[0])| + r else 0
  }

  lemma {:induction false} ReachIsInside(codec: Codec, items: seq<Item>, which: Item -> bool)
    ensures Reach(codec, items, which) <= |Layout(codec, items)|
  {
    if items != [] {
      ReachIsInside(codec, items[1..], which);
    }
  }

  /** A crash that keeps everything up to the last selected item keeps the selection. */
  lemma {:induction false} CutKeepsPicked(codec: Codec, items: seq<Item>, which: Item -> bool, keep: nat)
    requires Reach(codec, items, which) <= keep
    requires forall item :: which(item) ==> item.Whole?
    ensures Picked(Cut(codec, items, keep), which) == Picked(items, which)
    ensures Reach(codec, Cut(codec, items, keep), which) == Reach(codec, items, which)
  {
    if items != [] {
      var b := Bytes(codec, items[0]);
      if keep != 0 && |b| <= keep {
        CutKeepsPicked(codec, items[1..], which, keep - |b|);
      } else {
        NothingPicked(codec, items, which);
        var cut := Cut(codec, items, keep);
        assert cut == [] || (cut == [Torn(b[..keep])] && !which(Torn(b[..keep])));
        assert Picked(cut, which) == [] && Reach(codec, cut, which) == 0;
      }
    }
  }

  lemma {:induction false} NothingPicked(codec: Codec, items: seq<Item>, which: Item -> bool)
    requires Reach(codec, items, which) == 0
    requires forall item :: which(item) ==> item.Whole?
    ensures Picked(items, which) == []
  {
    if items != [] {
      NothingPicked(codec, items[1..], which);
    }
  }

  // ------------------------------------------------------------------------------------------
  // The journal and its crashes
  // ------------------------------------------------------------------------------------------

  /** How the input and output of one append went. */
  datatype Fate = Synced | SyncFails | WriteStops(n: nat)

  datatype Memory = Closed | Open(records: seq<Record>, nextSeq: nat)

  /** `bytes` is the file, of which the first `durable` are safe from a power cut. `failed`: an append
      on the open handle returned an error. The rest is history: the writes behind the bytes, the
      acknowledged records, the records in memory when an append last returned success, and how many
      appends failed. */
  datatype Machine = Machine(
    bytes: seq<Byte>, durable: nat, memory: Memory, failed: bool,
    items: seq<Item>, acked: seq<Record>, kept: seq<Record>, failures: nat)

  const NewFile := Machine([], 0, Closed, false, [], [], [], 0)

  datatype Event =
    | Append(record: Record, atMs: int, fate: Fate)
    | Kill
    | PowerCut(keep: nat)
    | Reopen

  function Learn(item: Item): Item {
    match item
    case Whole(l, a, _, k) => Whole(l, a, true, k)
    case Torn(_) => item
  }

  function Keep(item: Item): Item {
    match item
    case Whole(l, a, n, k) => Whole(l, a, n, k || n)
    case Torn(_) => item
  }

  function MapItems(items: seq<Item>, f: Item -> Item): (r: seq<Item>)
    ensures |r| == |items| && forall k :: 0 <= k < |items| ==> r[k] == f(items[k])
  {
    seq(|items|, k requires 0 <= k < |items| => f(items[k]))
  }

  /** `append`: write the line, flush, sync, and only then remember the record. */
  function Appended(codec: Codec, m: Machine, record: Record, atMs: int, fate: Fate): Machine
    requires m.memory.Open?
  {
    var line := Line(m.memory.nextSeq, atMs, record);
    var text := codec.encode(line) + [NEWLINE];
    match fate
    case Synced =>
      m.(bytes := m.bytes + text, durable := |m.bytes + text|,
         memory := Open(m.memory.records + [record], m.memory.nextSeq + 1),
         items := MapItems(m.items, Keep) + [Whole(line, true, true, true)],
         acked := m.acked + [record], kept := m.memory.records + [record])
    case SyncFails =>
      m.(bytes := m.bytes + text, items := m.items + [Whole(line, false, false, false)],
         failed := true, failures := m.failures + 1)
    case WriteStops(n) =>
      var written := text[..if n < |text| then n else |text| - 1];
      m.(bytes := m.bytes + written, items := m.items + (if written == [] then [] else [Torn(written)]),
         failed := true, failures := m.failures + 1)
  }

  /** `open`: cut a partial last line off the file and sync the cut, then replay. */
  function Reopened(codec: Codec, m: Machine): Machine {
    var n := CompleteLength(m.bytes);
    var cut := m.(bytes := m.bytes[..n], durable := if n < |m.bytes| then n else m.durable,
                  items := MapItems(m.items[..Complete(m.items)], Learn), failed := false);
    match Opened(codec, m.bytes)
    case Replayed(rs) => cut.(memory := Open(rs, |rs|))
    case Refused(_) => cut.(memory := Closed)
  }

  predicate Enabled(m: Machine, e: Event) {
    match e
    case Append(_, _, _) => m.memory.Open?
    case Kill => true
    case PowerCut(keep) => m.durable <= keep <= |m.bytes|
    case Reopen => true
  }

  function Step(codec: Codec, m: Machine, e: Event): Machine {
    if !Enabled(m, e) then m
    else match e
      case Append(r, at, fate) => Appended(codec, m, r, at, fate)
      case Kill => m.(memory := Closed)
      case PowerCut(keep) =>
        m.(bytes := m.bytes[..keep], durable := keep, items := Cut(codec, m.items, keep), memory := Closed)
      case Reopen => Reopened(codec, m)
  }

  /** A process can die at any moment and leaves the file as it is; a power cut can leave any beginning of the
      file that holds its durable part. */
  lemma CrashesComeAnywhere(codec: Codec, m: Machine, keep: nat)
    requires m.durable <= keep <= |m.bytes|
    ensures Step(codec, m, Kill) == m.(memory := Closed)
    ensures var t := Step(codec, m, PowerCut(keep));
      t.bytes == m.bytes[..keep] && t.durable == keep && t.memory == Closed && t.acked == m.acked
  {
  }

  function Run(codec: Codec, m: Machine, events: seq<Event>): Machine
    decreases |events|
  {
    if events == [] then m else Run(codec, Step(codec, m, events[0]), events[1..])
  }

  // ------------------------------------------------------------------------------------------
  // Invariants
  // ------------------------------------------------------------------------------------------

  predicate IsSafe(item: Item) { item.Whole? && (item.acked || item.kept) }

  ghost predicate Inv(codec: Codec, m: Machine) {
    && m.bytes == Layout(codec, m.items) && Sound(codec, m.items)
    && Reach(codec, m.items, IsSafe) <= m.durable <= |m.bytes|
    && m.acked == Acked(m.items) && m.kept == KeptRecords(m.items)
    && |Records(m.items)| <= |m.acked| + m.failures
    && (m.memory.Open? ==> m.memory.records == Known(m.items))
    && (m.memory.Open? ==> forall k :: 0 <= k < |m.items| && IsSafe(m.items[k]) ==> m.items[k].known)
  }

  lemma NewFileInv(codec: Codec)
    ensures Inv(codec, NewFile)
  {
  }

  /** Flags do not change what is in the file. */
  lemma {:induction false} MapLayout(codec: Codec, items: seq<Item>, f: Item -> Item)
    requires forall k :: 0 <= k < |items| ==> Bytes(codec, f(items[k])) == Bytes(codec, items[k])
    ensures Layout(codec, MapItems(items, f)) == Layout(codec, items)
  {
    if items != [] {
      assert MapItems(items, f)[1..] == MapItems(items[1..], f);
      MapLayout(codec, items[1..], f);
    }
  }

  lemma {:induction false} MapPicked(items: seq<Item>, f: Item -> Item, a: Item -> bool, b: Item -> bool)
    requires forall k :: 0 <= k < |items| ==> a(f(items[k])) == b(items[k])
    requires forall k :: 0 <= k < |items| ==> f(items[k]).Whole? == items[k].Whole?
    requires forall k :: 0 <= k < |items| && items[k].Whole? ==> f(items[k]).line == items[k].line
    ensures Picked(MapItems(items, f), a) == Picked(items, b)
  {
    if items != [] {
      assert MapItems(items, f)[1..] == MapItems(items[1..], f);
      MapPicked(items[1..], f, a, b);
    }
  }

  lemma {:induction false} MapReach(codec: Codec, items: seq<Item>, f: Item -> Item, which: Item -> bool)
    requires forall k :: 0 <= k < |items| ==> which(f(items[k])) == which(items[k])
    requires forall k :: 0 <= k < |items| ==> Bytes(codec, f(items[k])) == Bytes(codec, items[k])
    ensures Reach(codec, MapItems(items, f), which) == Reach(codec, items, which)
  {
    if items != [] {
      assert MapItems(items, f)[1..] == MapItems(items[1..], f);
      MapReach(codec, items[1..], f, which);
    }
  }

  lemma {:induction false} ReachOfUnselectedTail(codec: Codec, items: seq<Item>, tail: seq<Item>, which: Item -> bool)
    requires forall k :: 0 <= k < |tail| ==> !which(tail[k])
    ensures Reach(codec, items + tail, which) == Reach(codec, items, which)
  {
    if items == [] {
      assert items + tail == tail;
      if tail != [] {
        ReachOfUnselectedTail(codec, [], tail[1..], which);
        assert [] + tail[1..] == tail[1..];
      }
    } else {
      assert (items + tail)[1..] == items[1..] + tail;
      ReachOfUnselectedTail(codec, items[1..], tail, which);
    }
  }

  /** Adding one write to the file. */
  lemma SnocLayout(codec: Codec, items: seq<Item>, item: Item)
    ensures Layout(codec, items + [item]) == Layout(codec, items) + Bytes(codec, item)
  {
    LayoutSplit(codec, items, [item]);
    assert Layout(codec, [item]) == Bytes(codec, item);
  }

  lemma SnocPicked(items: seq<Item>, item: Item, which: Item -> bool)
    ensures Picked(items + [item], which) ==
        Picked(items, which) + (if which(item) && item.Whole? then [item.line.record] else [])
  {
    PickedSplit(items, [item], which);
  }

  lemma SyncedKeepsInv(codec: Codec, m: Machine, record: Record, atMs: int)
    requires Inv(codec, m) && m.memory.Open?
    ensures Inv(codec, Appended(codec, m, record, atMs, Synced))
  {
    var t := Appended(codec, m, record, atMs, Synced);
    var item := Whole(Line(m.memory.nextSeq, atMs, record), true, true, true);
    var kept := MapItems(m.items, Keep);
    MapLayout(codec, m.items, Keep);
    SnocLayout(codec, kept, item);
    MapPicked(m.items, Keep, IsAcked, IsAcked);
    MapPicked(m.items, Keep, IsKnown, IsKnown);
    MapPicked(m.items, Keep, IsWhole, IsWhole);
    MapPicked(m.items, Keep, IsKept, IsKnown);
    SnocPicked(kept, item, IsAcked);
    SnocPicked(kept, item, IsKnown);
    SnocPicked(kept, item, IsWhole);
    SnocPicked(kept, item, IsKept);
    ReachIsInside(codec, t.items, IsSafe);
    hide Layout, Picked, Reach, Fragment;
    forall k | 0 <= k < |t.items| && t.items[k].Torn? ensures Fragment(codec, t.items[k].bytes) {
      assert t.items[k] == Keep(m.items[k]) == m.items[k];
    }
    forall k | 0 <= k < |t.items| && IsSafe(t.items[k]) ensures t.items[k].known {
      if k < |m.items| {
        assert t.items[k] == Keep(m.items[k]);
      }
    }
  }

  /** One more write that nobody acknowledged and no handle remembers. */
  lemma FailedItem(codec: Codec, items: seq<Item>, item: Item)
    requires !IsSafe(item) && !IsKnown(item)
    ensures var all := items + [item];
      && Layout(codec, all) == Layout(codec, items) + Bytes(codec, item)
      && Reach(codec, all, IsSafe) == Reach(codec, items, IsSafe)
      && Acked(all) == Acked(items) && KeptRecords(all) == KeptRecords(items) && Known(all) == Known(items)
      && |Records(all)| <= |Records(items)| + 1
  {
    SnocLayout(codec, items, item);
    SnocPicked(items, item, IsAcked);
    SnocPicked(items, item, IsKnown);
    SnocPicked(items, item, IsWhole);
    SnocPicked(items, item, IsKept);
    ReachOfUnselectedTail(codec, items, [item], IsSafe);
    hide Layout, Picked, Reach;
  }

  lemma SoundSnoc(codec: Codec, items: seq<Item>, item: Item)
    requires Sound(codec, items) && (item.Torn? ==> Fragment(codec, item.bytes))
    ensures Sound(codec, items + [item])
  {
    hide Fragment;
  }

  lemma FailedKeepsInv(codec: Codec, m: Machine, t: Machine, item: Item)
    requires Inv(codec, m) && !IsSafe(item) && !IsKnown(item) && (item.Torn? ==> Fragment(codec, item.bytes))
    requires t == m.(bytes := m.bytes + Bytes(codec, item), items := m.items + [item],
        failed := true, failures := m.failures + 1)
    ensures Inv(codec, t)
  {
    FailedItem(codec, m.items, item);
    SoundSnoc(codec, m.items, item);
    hide Layout, Picked, Reach, Fragment, Sound, IsSafe, IsKnown, Acked, Known, KeptRecords, Records, Bytes;
  }

  lemma AppendKeepsInv(codec: Codec, m: Machine, record: Record, atMs: int, fate: Fate)
    requires Inv(codec, m) && m.memory.Open?
    ensures Inv(codec, Appended(codec, m, record, atMs, fate))
  {
    var line := Line(m.memory.nextSeq, atMs, record);
    var t := Appended(codec, m, record, atMs, fate);
    match fate
    case Synced => SyncedKeepsInv(codec, m, record, atMs);
    case SyncFails => FailedKeepsInv(codec, m, t, Whole(line, false, false, false));
    case WriteStops(n) =>
      var text := codec.encode(line) + [NEWLINE];
      var written := text[..if n < |text| then n else |text| - 1];
      if written == [] {
        assert m.bytes + written == m.bytes && m.items + [] == m.items;
      } else {
        assert written <= codec.encode(line);
        FailedKeepsInv(codec, m, t, Torn(written));
      }
  }

  lemma CutKeepsInv(codec: Codec, m: Machine, keep: nat)
    requires Inv(codec, m) && m.durable <= keep <= |m.bytes|
    ensures Inv(codec, Step(codec, m, PowerCut(keep)))
  {
    CutLayout(codec, m.items, keep);
    CutSound(codec, m.items, keep);
    CutKeepsPicked(codec, m.items, IsSafe, keep);
    ReachOfSubset(codec, m.items, IsAcked, IsSafe);
    ReachOfSubset(codec, m.items, IsKept, IsSafe);
    CutKeepsPicked(codec, m.items, IsAcked, keep);
    CutKeepsPicked(codec, m.items, IsKept, keep);
    CutRecords(codec, m.items, keep);
    hide Layout, Picked, Reach, Fragment, Sound, Cut;
  }

  lemma {:induction false} ReachOfSubset(codec: Codec, items: seq<Item>, a: Item -> bool, b: Item -> bool)
    requires forall item :: a(item) ==> b(item)
    ensures Reach(codec, items, a) <= Reach(codec, items, b)
  {
    if items != [] {
      ReachOfSubset(codec, items[1..], a, b);
    }
  }

  lemma {:induction false} CutRecords(codec: Codec, items: seq<Item>, keep: nat)
    ensures |Records(Cut(codec, items, keep))| <= |Records(items)|
  {
    if items != [] && keep != 0 {
      var b := Bytes(codec, items[0]);
      if |b| <= keep {
        CutRecords(codec, items[1..], keep - |b|);
      } else {
        var cut := Cut(codec, items, keep);
        assert cut == [Torn(b[..keep])] && cut[1..] == [];
        assert Picked(cut, IsWhole) == [];
      }
    }
  }

  /** Dropping the unfinished tail and learning the rest does not change a selection. */
  lemma LearnedPicked(items: seq<Item>, a: Item -> bool, b: Item -> bool)
    requires forall item: Item :: item.Whole? ==> a(Learn(item)) == b(item)
    ensures Picked(MapItems(items[..Complete(items)], Learn), a) == Picked(items, b)
  {
    var n := Complete(items);
    LearnedWhole(items[..n], a, b);
    assert items == items[..n] + items[n..];
    PickedSplit(items[..n], items[n..], b);
    TornHasNoRecords(items[n..], b);
  }

  lemma {:induction false} LearnedWhole(items: seq<Item>, a: Item -> bool, b: Item -> bool)
    requires forall item: Item :: item.Whole? ==> a(Learn(item)) == b(item)
    ensures Picked(MapItems(items, Learn), a) == Picked(items, b)
  {
    if items != [] {
      assert MapItems(items, Learn)[1..] == MapItems(items[1..], Learn);
      LearnedWhole(items[1..], a, b);
    }
  }

  lemma LearnedSound(codec: Codec, items: seq<Item>, n: nat)
    requires Sound(codec, items) && n <= |items|
    ensures Sound(codec, MapItems(items[..n], Learn))
  {
    hide Fragment;
    var learned := MapItems(items[..n], Learn);
    forall k | 0 <= k < |learned| && learned[k].Torn? ensures Fragment(codec, learned[k].bytes) {
      assert learned[k] == Learn(items[k]);
    }
  }

  lemma LearnedReach(codec: Codec, items: seq<Item>)
    ensures var learned := MapItems(items[..Complete(items)], Learn);
      && Layout(codec, learned) == Layout(codec, items[..Complete(items)])
      && Reach(codec, learned, IsSafe) == Reach(codec, items, IsSafe) <= |Layout(codec, learned)|
  {
    var n := Complete(items);
    MapLayout(codec, items[..n], Learn);
    MapReach(codec, items[..n], Learn, IsSafe);
    ReachIsInside(codec, MapItems(items[..n], Learn), IsSafe);
    hide Layout, Reach, MapItems;
    ReachOfUnselectedTail(codec, items[..n], items[n..], IsSafe);
    assert items == items[..n] + items[n..];
  }

  lemma LearnedLayout(codec: Codec, items: seq<Item>)
    requires Lawful(codec) && Sound(codec, items)
    ensures var learned, s := MapItems(items[..Complete(items)], Learn), Layout(codec, items);
      && Layout(codec, learned) == s[..CompleteLength(s)] && Sound(codec, learned)
      && Reach(codec, learned, IsSafe) == Reach(codec, items, IsSafe) <= CompleteLength(s)
  {
    hide Lawful, Sound, Layout, Reach, CompleteLength, Complete, MapItems;
    CompleteLayout(codec, items);
    LearnedReach(codec, items);
    LearnedSound(codec, items, Complete(items));
  }

  lemma LearnedRecords(items: seq<Item>)
    ensures var learned := MapItems(items[..Complete(items)], Learn);
      && Acked(learned) == Acked(items) && KeptRecords(learned) == KeptRecords(items)
      && Records(learned) == Records(items) && Known(learned) == Records(items)
  {
    hide Picked, Complete, MapItems;
    LearnedPicked(items, IsAcked, IsAcked);
    LearnedPicked(items, IsKept, IsKept);
    LearnedPicked(items, IsWhole, IsWhole);
    LearnedPicked(items, IsKnown, IsWhole);
  }

  lemma ReopenKeepsInv(codec: Codec, m: Machine)
    requires Lawful(codec) && Inv(codec, m)
    ensures Inv(codec, Reopened(codec, m))
  {
    hide Lawful, Layout, Picked, Reach, Fragment, Clean, Opened,
        CompleteLength, Complete, Sound, Learn, MapItems, IsSafe;
    LearnedLayout(codec, m.items);
    LearnedRecords(m.items);
    OpensIffClean(codec, m.items);
    LearnedIsKnown(m.items[..Complete(m.items)]);
  }

  lemma LearnedIsKnown(items: seq<Item>)
    ensures forall k :: 0 <= k < |items| && IsSafe(MapItems(items, Learn)[k]) ==> MapItems(items, Learn)[k].known
  {
    forall k | 0 <= k < |items| && IsSafe(MapItems(items, Learn)[k]) ensures MapItems(items, Learn)[k].known {
      assert MapItems(items, Learn)[k] == Learn(items[k]);
    }
  }

  lemma StepKeepsInv(codec: Codec, m: Machine, e: Event)
    requires Lawful(codec) && Inv(codec, m)
    ensures Inv(codec, Step(codec, m, e))
  {
    if Enabled(m, e) {
      match e
      case Append(r, at, fate) => hide Inv; AppendKeepsInv(codec, m, r, at, fate);
      case Kill =>
      case PowerCut(keep) => hide Inv; CutKeepsInv(codec, m, keep);
      case Reopen => hide Inv; ReopenKeepsInv(codec, m);
    }
  }

  lemma {:induction false} RunKeepsInv(codec: Codec, m: Machine, events: seq<Event>)
    requires Lawful(codec) && Inv(codec, m)
    ensures Inv(codec, Run(codec, m, events))
    decreases |events|
  {
    hide Inv, Lawful, Step;
    if events != [] {
      StepKeepsInv(codec, m, events[0]);
      RunKeepsInv(codec, Step(codec, m, events[0]), events[1..]);
    }
  }

  // ------------------------------------------------------------------------------------------
  // Every run of appends, crashes and reopenings
  // ------------------------------------------------------------------------------------------

  /** The records handed to `append` on an open handle, in order. */
  function Submitted(codec: Codec, m: Machine, events: seq<Event>): seq<Record>
    decreases |events|
  {
    if events == [] then []
    else SubmittedBy(m, events[0]) + Submitted(codec, Step(codec, m, events[0]), events[1..])
  }

  function SubmittedBy(m: Machine, e: Event): seq<Record> {
    if e.Append? && m.memory.Open? then [e.record] else []
  }

  lemma {:induction false} WithinAppend(a: seq<Record>, b: seq<Record>, r: Record)
    requires Within(a, b)
    ensures Within(a, b + [r]) && Within(a + [r], b + [r])
    decreases |b|
  {
    if b == [] {
      assert a == [] && a + [r] == [r] && b + [r] == [r];
      assert [r][1..] == [];
    } else {
      assert (b + [r])[1..] == b[1..] + [r];
      if a == [] {
        WithinAppend([], b[1..], r);
      } else if a[0] == b[0] && Within(a[1..], b[1..]) {
        WithinAppend(a[1..], b[1..], r);
        assert (a + [r])[1..] == a[1..] + [r];
      } else {
        WithinAppend(a, b[1..], r);
      }
    }
  }

  lemma {:induction false} WithinTransitive(a: seq<Record>, b: seq<Record>, c: seq<Record>)
    requires Within(a, b) && Within(b, c)
    ensures Within(a, c)
    decreases |c|
  {
    if a != [] {
      if b[0] == c[0] && Within(b[1..], c[1..]) {
        if a[0] == b[0] && Within(a[1..], b[1..]) {
          WithinTransitive(a[1..], b[1..], c[1..]);
        } else {
          WithinTransitive(a, b[1..], c[1..]);
        }
      } else {
        WithinTransitive(a, b, c[1..]);
      }
    }
  }

  lemma {:induction false} WithinItself(a: seq<Record>)
    ensures Within(a, a)
  {
    if a != [] { WithinItself(a[1..]); }
  }

  lemma {:induction false} CutIsWithin(codec: Codec, items: seq<Item>, keep: nat)
    ensures Within(Records(Cut(codec, items, keep)), Records(items))
  {
    if items != [] && keep != 0 {
      var b := Bytes(codec, items[0]);
      if |b| <= keep {
        var rest := Cut(codec, items[1..], keep - |b|);
        CutIsWithin(codec, items[1..], keep - |b|);
        assert Cut(codec, items, keep) == [items[0]] + rest && ([items[0]] + rest)[1..] == rest;
        hide Cut;
        if items[0].Whole? {
          WithinCons(items[0], Records(rest), Records(items[1..]));
        } else {
          assert [] + Records(rest) == Records(rest) && [] + Records(items[1..]) == Records(items[1..]);
        }
      } else {
        var cut := Cut(codec, items, keep);
        assert cut == [Torn(b[..keep])] && cut[1..] == [];
        assert Picked(cut, IsWhole) == [];
      }
    }
  }

  lemma StepRecordsSubmitted(codec: Codec, m: Machine, e: Event, submitted: seq<Record>)
    requires Within(Records(m.items), submitted)
    ensures Within(Records(Step(codec, m, e).items), submitted + SubmittedBy(m, e))
  {
    assert submitted + [] == submitted;
    if Enabled(m, e) {
      match e {
        case Append(r, at, fate) => AppendRecordsSubmitted(codec, m, r, at, fate, submitted);
        case Kill =>
        case PowerCut(keep) =>
          CutIsWithin(codec, m.items, keep);
          WithinTransitive(Records(Cut(codec, m.items, keep)), Records(m.items), submitted);
        case Reopen => LearnedRecords(m.items);
      }
    }
  }

  lemma AppendRecordsSubmitted(codec: Codec, m: Machine, r: Record, at: int, fate: Fate, submitted: seq<Record>)
    requires m.memory.Open? && Within(Records(m.items), submitted)
    ensures Within(Records(Appended(codec, m, r, at, fate).items), submitted + [r])
  {
    hide Within, Picked;
    WithinAppend(Records(m.items), submitted, r);
    var line := Line(m.memory.nextSeq, at, r);
    match fate
    case Synced =>
      MapPicked(m.items, Keep, IsWhole, IsWhole);
      SnocPicked(MapItems(m.items, Keep), Whole(line, true, true, true), IsWhole);
    case SyncFails => SnocPicked(m.items, Whole(line, false, false, false), IsWhole);
    case WriteStops(n) =>
      var text := codec.encode(line) + [NEWLINE];
      var written := text[..if n < |text| then n else |text| - 1];
      SnocPicked(m.items, Torn(written), IsWhole);
      assert m.items + [] == m.items && Records(m.items) + [] == Records(m.items);
  }

  lemma NothingRecorded()
    ensures Within(Records(NewFile.items), [])
  {
  }

  /** Nothing in the file was made up: its whole lines are records submitted before, in that order. */
  lemma {:induction false} RunRecordsSubmitted(codec: Codec, m: Machine, events: seq<Event>, before: seq<Record>)
    requires Within(Records(m.items), before)
    ensures Within(Records(Run(codec, m, events).items), before + Submitted(codec, m, events))
    decreases |events|
  {
    hide Step, Within, Picked;
    if events == [] {
      assert before + [] == before;
    } else {
      var first, rest := SubmittedBy(m, events[0]), Submitted(codec, Step(codec, m, events[0]), events[1..]);
      StepRecordsSubmitted(codec, m, events[0], before);
      RunRecordsSubmitted(codec, Step(codec, m, events[0]), events[1..], before + first);
      assert before + first + rest == before + (first + rest);
    }
  }

  /** Whatever happened, a file that opens yields every acknowledged record in order, only records that
      were submitted, in their order, at most one further record for every append that failed, and
      everything that was in memory when an append last returned success; so the trial count is not
      below its value then. It opens unless a whole line was written behind a torn one. */
  lemma OpeningRecovers(codec: Codec, events: seq<Event>)
    requires Lawful(codec)
    ensures var m := Run(codec, NewFile, events);
      && (Opened(codec, m.bytes).Replayed? <==> Clean(m.items))
      && (Opened(codec, m.bytes).Replayed? ==>
            var rs := Opened(codec, m.bytes).records;
            && Within(m.acked, rs) && |rs| <= |m.acked| + m.failures
            && Within(rs, Submitted(codec, NewFile, events))
            && Within(m.kept, rs) && NSession(m.kept) <= NSession(rs))
  {
    NewFileInv(codec);
    RunKeepsInv(codec, NewFile, events);
    var m := Run(codec, NewFile, events);
    hide Lawful, Run, Layout, Picked, Reach, Fragment, Clean, Opened, Sound;
    OpensIffClean(codec, m.items);
    PickedWithin(m.items, IsAcked, IsWhole);
    PickedWithin(m.items, IsKept, IsWhole);
    NothingRecorded();
    RunRecordsSubmitted(codec, NewFile, events, []);
    assert [] + Submitted(codec, NewFile, events) == Submitted(codec, NewFile, events);
    NSessionMonotone(m.kept, Records(m.items));
  }

  /** The open handle agrees with the file as long as no append on it failed. */
  ghost predicate Tidy(m: Machine) {
    && Clean(m.items)
    && (m.memory.Open? && !m.failed ==> forall k :: 0 <= k < |m.items| ==> IsKnown(m.items[k]))
  }

  /** No append is issued on a handle on which an append failed. */
  ghost predicate Careful(codec: Codec, m: Machine, events: seq<Event>)
    decreases |events|
  {
    events == [] || ((events[0].Append? ==> !m.failed) && Careful(codec, Step(codec, m, events[0]), events[1..]))
  }

  lemma CompleteOfClean(items: seq<Item>)
    requires Clean(items)
    ensures AllWhole(items[..Complete(items)])
  {
    var n := Complete(items);
    forall k | 0 <= k < n ensures items[..n][k].Whole? {
      assert items[n - 1].Whole?;
    }
  }

  lemma CarefulStepIsTidy(codec: Codec, m: Machine, e: Event)
    requires Tidy(m) && (e.Append? ==> !m.failed)
    ensures Tidy(Step(codec, m, e))
  {
    if Enabled(m, e) {
      match e
      case Append(r, at, fate) =>
      case Kill =>
      case PowerCut(keep) => CutClean(codec, m.items, keep);
      case Reopen => hide CompleteLength, Opened; CompleteOfClean(m.items);
    }
  }

  /** When every append is issued on a handle without an earlier failure, the file always opens. */
  lemma {:induction false} CarefulRunOpens(codec: Codec, m: Machine, events: seq<Event>)
    requires Lawful(codec) && Inv(codec, m) && Tidy(m) && Careful(codec, m, events)
    ensures Opened(codec, Run(codec, m, events).bytes).Replayed? && Tidy(Run(codec, m, events))
    decreases |events|
  {
    hide Lawful, Step, Opened;
    if events == [] {
      OpensIffClean(codec, m.items);
    } else {
      CarefulStepIsTidy(codec, m, events[0]);
      StepKeepsInv(codec, m, events[0]);
      hide Inv, Tidy;
      CarefulRunOpens(codec, Step(codec, m, events[0]), events[1..]);
    }
  }

  /** Memory and disk agree after every acknowledged append of a careful run. */
  lemma MemoryIsDisk(codec: Codec, m: Machine)
    requires Lawful(codec) && Inv(codec, m) && Tidy(m) && m.memory.Open? && !m.failed
    ensures Opened(codec, m.bytes) == Replayed(m.memory.records)
  {
    hide Lawful, Opened;
    OpensIffClean(codec, m.items);
    SamePicked(m.items, IsKnown, IsWhole);
  }

  lemma {:induction false} SamePicked(items: seq<Item>, a: Item -> bool, b: Item -> bool)
    requires forall k :: 0 <= k < |items| ==> a(items[k]) == b(items[k])
    ensures Picked(items, a) == Picked(items, b)
  {
    if items != [] {
      SamePicked(items[1..], a, b);
    }
  }

  /** An append can make a readable file unreadable in exactly one way: an earlier write stopped half
      way and this one put a whole line behind it. */
  lemma AppendKeepsReadableIff(codec: Codec, m: Machine, record: Record, atMs: int, fate: Fate)
    requires Lawful(codec) && Inv(codec, m) && m.memory.Open? && Opened(codec, m.bytes).Replayed?
    ensures Opened(codec, Appended(codec, m, record, atMs, fate).bytes).Replayed?
      <==> (CompleteLength(m.bytes) == |m.bytes| || fate.WriteStops?)
  {
    var t := Appended(codec, m, record, atMs, fate);
    AppendKeepsInv(codec, m, record, atMs, fate);
    hide Lawful, Opened;
    OpensIffClean(codec, m.items);
    OpensIffClean(codec, t.items);
    NoTailIffWhole(codec, m.items);
    hide Inv, Layout, Clean, CompleteLength, AllWhole, Complete;
    AppendKeepsCleanIff(codec, m, record, atMs, fate);
  }

  lemma TailHasBytes(codec: Codec, items: seq<Item>)
    requires Lawful(codec) && Sound(codec, items) && items != []
    ensures Layout(codec, items) != []
  {
    hide Lawful;
  }

  lemma SoundTail(codec: Codec, items: seq<Item>, n: nat)
    requires Sound(codec, items) && n <= |items|
    ensures Sound(codec, items[n..])
  {
    hide Fragment;
  }

  lemma NoTailIffWhole(codec: Codec, items: seq<Item>)
    requires Lawful(codec) && Sound(codec, items) && Clean(items)
    ensures CompleteLength(Layout(codec, items)) == |Layout(codec, items)| <==> AllWhole(items)
  {
    hide Lawful, Sound, Layout, CompleteLength, Clean;
    var n := Complete(items);
    CompleteLayout(codec, items);
    CompleteOfClean(items);
    assert items == items[..n] + items[n..];
    LayoutSplit(codec, items[..n], items[n..]);
    if n < |items| {
      SoundTail(codec, items, n);
      TailHasBytes(codec, items[n..]);
    } else {
      EmptyLayout(codec, items[n..]);
    }
  }

  lemma AppendKeepsCleanIff(codec: Codec, m: Machine, record: Record, atMs: int, fate: Fate)
    requires m.memory.Open? && Clean(m.items)
    ensures Clean(Appended(codec, m, record, atMs, fate).items) <==> (AllWhole(m.items) || fate.WriteStops?)
  {
    var t := Appended(codec, m, record, atMs, fate);
    if !fate.WriteStops? && !AllWhole(m.items) {
      var k :| 0 <= k < |m.items| && m.items[k].Torn?;
      assert t.items[|m.items|].Whole? && t.items[k].Torn?;
    }
  }

  /** An append that writes its whole line while the file ends in a partial one. */
  ghost predicate Glues(m: Machine, e: Event) {
    e.Append? && m.memory.Open? && !e.fate.WriteStops? && CompleteLength(m.bytes) < |m.bytes|
  }

  ghost predicate NeverGlues(codec: Codec, m: Machine, events: seq<Event>)
    decreases |events|
  {
    events == [] || (!Glues(m, events[0]) && NeverGlues(codec, Step(codec, m, events[0]), events[1..]))
  }

  /** At the start, and after each event, the file opens. */
  ghost predicate AlwaysOpens(codec: Codec, m: Machine, events: seq<Event>)
    decreases |events|
  {
    && Opened(codec, m.bytes).Replayed?
    && (events == [] || AlwaysOpens(codec, Step(codec, m, events[0]), events[1..]))
  }

  lemma ReopenIsClean(codec: Codec, m: Machine)
    requires Clean(m.items)
    ensures Clean(Reopened(codec, m).items)
  {
    hide CompleteLength, Opened;
    CompleteOfClean(m.items);
  }

  lemma NoTailIffWholeNow(codec: Codec, m: Machine)
    requires Lawful(codec) && Inv(codec, m) && Clean(m.items)
    ensures CompleteLength(m.bytes) == |m.bytes| <==> AllWhole(m.items)
  {
    hide Lawful, CompleteLength, Layout, AllWhole, Clean, Reach, Picked;
    NoTailIffWhole(codec, m.items);
  }

  lemma StepKeepsCleanIff(codec: Codec, m: Machine, e: Event)
    requires Lawful(codec) && Inv(codec, m) && Clean(m.items)
    ensures Clean(Step(codec, m, e).items) <==> !Glues(m, e)
  {
    hide Lawful, Inv, CompleteLength, Clean, AllWhole, Cut, Reopened, Appended;
    match e
    case Append(r, at, fate) =>
      NoTailIffWholeNow(codec, m);
      if m.memory.Open? { AppendKeepsCleanIff(codec, m, r, at, fate); }
    case Kill =>
    case PowerCut(keep) => CutClean(codec, m.items, keep);
    case Reopen => ReopenIsClean(codec, m);
  }

  /** Over every run: the file opens at every moment exactly when no append that writes its whole line ever
      finds a partial tail. */
  lemma {:induction false} AlwaysOpensIff(codec: Codec, m: Machine, events: seq<Event>)
    requires Lawful(codec) && Inv(codec, m) && Clean(m.items)
    ensures AlwaysOpens(codec, m, events) <==> NeverGlues(codec, m, events)
    decreases |events|
  {
    hide Lawful, Inv, Clean, Step, Glues, Opened;
    CleanOrRefused(codec, m);
    if events != [] {
      var t := Step(codec, m, events[0]);
      StepKeepsInv(codec, m, events[0]);
      StepKeepsCleanIff(codec, m, events[0]);
      if Glues(m, events[0]) {
        CleanOrRefused(codec, t);
      } else {
        AlwaysOpensIff(codec, t, events[1..]);
      }
    }
  }

  lemma FirstOpening(codec: Codec)
    ensures Step(codec, NewFile, Reopen) == NewFile.(memory := Memory.Open([], 0))
  {
  }

  /** A write that stops after its first byte, on an empty file. */
  lemma FirstTear(codec: Codec, m: Machine, a: Record)
    requires m.memory.Open? && m.items == []
    ensures var t := Step(codec, m, Append(a, 0, WriteStops(1)));
      t.memory == m.memory && t.acked == m.acked && |t.items| <= 1
      && (codec.encode(Line(m.memory.nextSeq, 0, a)) != [] ==> |t.items| == 1 && t.items[0].Torn?)
  {
  }

  lemma WholeBehindTorn(codec: Codec, m: Machine, b: Record)
    requires m.memory.Open? && |m.items| == 1 && m.items[0].Torn?
    ensures var t := Step(codec, m, Append(b, 0, Synced));
      t.acked == m.acked + [b] && !Clean(t.items)
  {
    var t := Step(codec, m, Append(b, 0, Synced));
    assert t.items[0].Torn? && t.items[1].Whole?;
  }

  /** Such a run exists: an append is acknowledged and yet the file no longer opens. */
  lemma TornHandleLosesAcknowledgedRecord(codec: Codec, a: Record, b: Record)
    requires Lawful(codec)
    ensures var m := Run(codec, NewFile, [Reopen, Append(a, 0, WriteStops(1)), Append(b, 0, Synced)]);
      m.acked == [b] && Opened(codec, m.bytes).Refused?
  {
    hide Run, Step, Inv, Opened;
    var events := [Reopen, Append(a, 0, WriteStops(1)), Append(b, 0, Synced)];
    var m1 := NewFile.(memory := Memory.Open([], 0));
    var m2 := Step(codec, m1, events[1]);
    RunThree(codec, NewFile, events[0], events[1], events[2]);
    FirstOpening(codec);
    EncodedLine(codec, Line(0, 0, a));
    hide Lawful;
    FirstTear(codec, m1, a);
    WholeBehindTorn(codec, m2, b);
    NewFileInv(codec);
    RunKeepsInv(codec, NewFile, events);
    CleanOrRefused(codec, Run(codec, NewFile, events));
  }

  /** A refused opening has modified the file exactly when it ended in a partial line. */
  lemma RefusedOpeningModifiesIff(codec: Codec, m: Machine)
    requires Opened(codec, m.bytes).Refused?
    ensures Reopened(codec, m).memory.Closed?
    ensures Reopened(codec, m).bytes == m.bytes <==> CompleteLength(m.bytes) == |m.bytes|
  {
    hide ReplayLines;
    assert CompleteLength(m.bytes) == |m.bytes| ==> m.bytes[..CompleteLength(m.bytes)] == m.bytes;
  }

  lemma TornBehind(codec: Codec, m: Machine, c: Record)
    requires m.memory.Open? && !Clean(m.items)
    ensures var t := Step(codec, m, Append(c, 0, WriteStops(1)));
      && !Clean(t.items) && t.acked == m.acked
      && (codec.encode(Line(m.memory.nextSeq, 0, c)) != [] ==> |t.items| > 0 && t.items[|t.items| - 1].Torn?)
  {
    var t := Step(codec, m, Append(c, 0, WriteStops(1)));
    var j, k :| 0 <= j < k < |m.items| && m.items[k].Whole? && m.items[j].Torn?;
    assert t.items[j] == m.items[j] && t.items[k] == m.items[k];
  }

  lemma RunFour(codec: Codec, m: Machine, a: Event, b: Event, c: Event, d: Event)
    ensures Run(codec, m, [a, b, c, d]) == Step(codec, Run(codec, m, [a, b, c]), d)
  {
    hide Step;
    assert [a, b, c, d][1..] == [b, c, d];
    RunThree(codec, Step(codec, m, a), b, c, d);
    RunThree(codec, m, a, b, c);
  }

  /** Such a file exists: a complete line in it does not decode, and it ends in a partial line, which the
      refused opening cuts off. */
  lemma CorruptFileIsStillCut(codec: Codec, a: Record, b: Record, c: Record)
    requires Lawful(codec)
    ensures var m := Run(codec, NewFile,
        [Reopen, Append(a, 0, WriteStops(1)), Append(b, 0, Synced), Append(c, 0, WriteStops(1))]);
      && Opened(codec, m.bytes).Refused? && CompleteLength(m.bytes) < |m.bytes|
      && Reopened(codec, m).memory.Closed? && Reopened(codec, m).bytes != m.bytes
  {
    var events := [Reopen, Append(a, 0, WriteStops(1)), Append(b, 0, Synced), Append(c, 0, WriteStops(1))];
    var m1 := NewFile.(memory := Memory.Open([], 0));
    var m2 := Step(codec, m1, events[1]);
    var m3 := Step(codec, m2, events[2]);
    var m4 := Step(codec, m3, events[3]);
    FirstOpening(codec);
    EncodedLine(codec, Line(0, 0, a));
    FirstTear(codec, m1, a);
    WholeBehindTorn(codec, m2, b);
    OpenStays(codec, m2, b, 0, Synced);
    TornBehind(codec, m3, c);
    EncodedLine(codec, Line(m3.memory.nextSeq, 0, c));
    RunThree(codec, NewFile, events[0], events[1], events[2]);
    RunFour(codec, NewFile, events[0], events[1], events[2], events[3]);
    NewFileInv(codec);
    RunKeepsInv(codec, NewFile, events);
    hide Step, Run, Lawful, Opened, Clean, Reopened;
    assert Run(codec, NewFile, events) == m4;
    CleanOrRefused(codec, m4);
    TornEnd(codec, m4);
    RefusedOpeningModifiesIff(codec, m4);
  }

  lemma OpenStays(codec: Codec, m: Machine, r: Record, at: int, fate: Fate)
    requires m.memory.Open?
    ensures Step(codec, m, Append(r, at, fate)).memory.Open?
  {
  }

  /** A file whose last write stopped half way ends in a partial line. */
  lemma TornEnd(codec: Codec, m: Machine)
    requires Lawful(codec) && Inv(codec, m) && m.items != [] && m.items[|m.items| - 1].Torn?
    ensures CompleteLength(m.bytes) < |m.bytes|
  {
    var n := |m.items| - 1;
    hide Lawful, CompleteLength;
    assert m.items == m.items[..n] + [m.items[n]];
    SnocLayout(codec, m.items[..n], m.items[n]);
    FragmentHasNoNewline(codec, m.items[n].bytes);
    assert m.bytes[|m.bytes| - 1] == m.items[n].bytes[|m.items[n].bytes| - 1] != NEWLINE;
    LastNewline(m.bytes);
  }

  lemma LastNewline(s: seq<Byte>)
    requires s != [] && s[|s| - 1] != NEWLINE
    ensures CompleteLength(s) < |s|
  {
  }

  lemma CleanOrRefused(codec: Codec, m: Machine)
    requires Lawful(codec) && Inv(codec, m)
    ensures Opened(codec, m.bytes).Replayed? <==> Clean(m.items)
  {
    OpensIffClean(codec, m.items);
  }

  lemma RunThree(codec: Codec, m: Machine, a: Event, b: Event, c: Event)
    ensures Run(codec, m, [a, b, c]) == Step(codec, Step(codec, Step(codec, m, a), b), c)
  {
    hide Step;
    assert [a, b, c][1..] == [b, c] && [b, c][1..] == [c] && [c][1..] == [];
    assert Run(codec, Step(codec, Step(codec, m, a), b), [c]) == Step(codec, Step(codec, Step(codec, m, a), b), c);
  }

  /** Opening twice: the second time there is no partial tail, and nothing changes. */
  lemma ReopenIsIdempotent(codec: Codec, m: Machine)
    requires Lawful(codec) && Inv(codec, m) && Opened(codec, m.bytes).Replayed?
    ensures var t := Reopened(codec, m);
      && CompleteLength(t.bytes) == |t.bytes|
      && Reopened(codec, t).memory == t.memory && Reopened(codec, t).bytes == t.bytes
      && t.memory == Memory.Open(Records(m.items), |Records(m.items)|)
  {
    var t := Reopened(codec, m);
    ReopenKeepsInv(codec, m);
    hide Lawful, Opened, Fragment, Reach;
    OpensIffClean(codec, m.items);
    CompleteOfClean(m.items);
    LearnedRecords(m.items);
    hide Picked;
    assert AllWhole(t.items);
    hide Complete;
    OpensIffClean(codec, t.items);
    NoTailIffWhole(codec, t.items);
    hide Layout, CompleteLength, Inv, Clean;
    assert t.bytes[..|t.bytes|] == t.bytes;
  }

  /** After recovery an acknowledged append survives any crash: the next opening yields the recovered
      records and the new one, never a line joined to a half-written one. */
  lemma AppendAfterRecovery(codec: Codec, m: Machine, record: Record, atMs: int, crash: Event)
    requires Lawful(codec) && Inv(codec, m) && Opened(codec, m.bytes).Replayed?
    requires crash.Kill? || crash.PowerCut?
    ensures var t := Reopened(codec, m);
      var u := Step(codec, Step(codec, t, Append(record, atMs, Synced)), crash);
      t.memory.Open? && Opened(codec, u.bytes) == Replayed(t.memory.records + [record])
  {
    hide Lawful, Opened, Inv, Tidy, Step, Reopened;
    var t := Reopened(codec, m);
    ReopenKeepsInv(codec, m);
    ReopenIsTidy(codec, m);
    AckedSurvives(codec, t, record, atMs, crash);
  }

  lemma AckedSurvives(codec: Codec, t: Machine, record: Record, atMs: int, crash: Event)
    requires Lawful(codec) && Inv(codec, t) && Tidy(t) && t.memory.Open? && !t.failed
    requires crash.Kill? || crash.PowerCut?
    ensures var u := Step(codec, Step(codec, t, Append(record, atMs, Synced)), crash);
      Opened(codec, u.bytes) == Replayed(t.memory.records + [record])
  {
    var e := Append(record, atMs, Synced);
    var a := Step(codec, t, e);
    StepKeepsInv(codec, t, e);
    CarefulStepIsTidy(codec, t, e);
    hide Lawful, Opened, Inv, Tidy;
    MemoryIsDisk(codec, a);
    CrashKeepsDurable(codec, a, crash);
    hide Step;
  }

  lemma CrashKeepsDurable(codec: Codec, m: Machine, crash: Event)
    requires m.durable == |m.bytes| && (crash.Kill? || crash.PowerCut?)
    ensures Step(codec, m, crash).bytes == m.bytes
  {
    assert m.bytes[..|m.bytes|] == m.bytes;
  }

  lemma ReopenIsTidy(codec: Codec, m: Machine)
    requires Lawful(codec) && Inv(codec, m) && Opened(codec, m.bytes).Replayed?
    ensures Tidy(Reopened(codec, m)) && Reopened(codec, m).memory.Open? && !Reopened(codec, m).failed
  {
    hide Lawful, Opened, Fragment, Reach, Picked, CompleteLength;
    OpensIffClean(codec, m.items);
    CompleteOfClean(m.items);
  }

  /** Over any run: an acknowledged append raises the trial count of the handle by the trials of a completed,
      a failed or an abandoned sweep, and leaves it alone for every other record. */
  lemma AcknowledgedTrialsCount(codec: Codec, events: seq<Event>, r: Record, at: int)
    requires Run(codec, NewFile, events).memory.Open?
    ensures var m := Run(codec, NewFile, events);
      var t := Step(codec, m, Append(r, at, Synced));
      && t.memory.Open? && t.acked == m.acked + [r]
      && NSession(t.memory.records) == NSession(m.memory.records) + match r
        case SweepCompleted(_, trials) => trials
        case SweepFailed(_, trials) => trials
        case SweepAbandoned(_, trials) => trials
        case ShuffleControlCompleted(_, _) => 0
        case BestEverAdvanced(_) => 0
        case PosteriorRetracted(_) => 0
        case GarbageCollected(_) => 0
        case TruncatedTail(_) => 0
        case Other(_, _) => 0
  {
    var m := Run(codec, NewFile, events);
    NSessionNext(m.memory.records, r);
    hide Run, NSession;
  }

  /** The handle numbers its next line by what it holds, and the whole lines of the file are numbered by
      their places; so is the next one, as long as no append on the handle failed. */
  ghost predicate NumberedByPlace(m: Machine) {
    && (m.memory.Open? ==> m.memory.nextSeq == |m.memory.records|)
    && (m.memory.Open? && !m.failed ==> m.memory.nextSeq == |m.items|)
    && (forall k :: 0 <= k < |m.items| && m.items[k].Whole? ==> m.items[k].line.number == k)
  }

  lemma {:induction false} AllWholePicked(items: seq<Item>)
    requires AllWhole(items)
    ensures |Records(items)| == |items|
  {
    if items != [] { AllWholePicked(items[1..]); }
  }

  lemma ReopenNumbersByPlace(codec: Codec, m: Machine)
    requires Lawful(codec) && Inv(codec, m) && Clean(m.items) && NumberedByPlace(m)
    ensures NumberedByPlace(Reopened(codec, m))
  {
    hide Lawful, Opened, CompleteLength, Layout, Reach, Picked, Sound, Fragment;
    OpensIffClean(codec, m.items);
    CompleteOfClean(m.items);
    RecordsOfComplete(m.items);
    AllWholePicked(m.items[..Complete(m.items)]);
    hide Complete, Clean, AllWhole;
    var t := Reopened(codec, m);
    forall k | 0 <= k < |t.items| && t.items[k].Whole? ensures t.items[k].line.number == k {
      assert t.items[k] == Learn(m.items[..Complete(m.items)][k]) == Learn(m.items[k]);
    }
  }

  lemma CutNumbersByPlace(codec: Codec, m: Machine, keep: nat)
    requires Clean(m.items) && NumberedByPlace(m) && m.durable <= keep <= |m.bytes|
    ensures NumberedByPlace(Step(codec, m, PowerCut(keep)))
  {
    CutClean(codec, m.items, keep);
    hide Cut, Clean;
  }

  lemma StepNumbersByPlace(codec: Codec, m: Machine, e: Event)
    requires Lawful(codec) && Inv(codec, m) && Tidy(m) && NumberedByPlace(m) && (e.Append? ==> !m.failed)
    ensures NumberedByPlace(Step(codec, m, e))
  {
    hide Lawful, Inv;
    if Enabled(m, e) {
      match e
      case Append(r, at, fate) =>
      case Kill =>
      case PowerCut(keep) => CutNumbersByPlace(codec, m, keep);
      case Reopen => ReopenNumbersByPlace(codec, m);
    }
  }

  /** Over every careful run the lines of the file are numbered from nought in the order they stand in,
      across every crash and reopening, and the handle goes on with the next number. */
  lemma {:induction false} LinesAreNumberedByPlace(codec: Codec, m: Machine, events: seq<Event>)
    requires Lawful(codec) && Inv(codec, m) && Tidy(m) && NumberedByPlace(m) && Careful(codec, m, events)
    ensures NumberedByPlace(Run(codec, m, events))
    decreases |events|
  {
    hide Lawful, Step, Inv, Tidy, NumberedByPlace;
    if events != [] {
      StepKeepsInv(codec, m, events[0]);
      CarefulStepIsTidy(codec, m, events[0]);
      StepNumbersByPlace(codec, m, events[0]);
      LinesAreNumberedByPlace(codec, Step(codec, m, events[0]), events[1..]);
    }
  }

  /** A failed append on a fresh file leaves one whole line that nobody acknowledged or synced. */
  lemma UnsyncedLine(codec: Codec, r: Record)
    ensures var m := Step(codec, NewFile.(memory := Memory.Open([], 0)), Append(r, 0, SyncFails));
      m.items == [Whole(Line(0, 0, r), false, false, false)] && m.durable == 0 && Records(m.items) == [r]
  {
    var item := Whole(Line(0, 0, r), false, false, false);
    assert [] + [item] == [item];
    SnocPicked([], item, IsWhole);
  }

  /** An opening that finds no partial tail syncs nothing. */
  lemma ReopenSyncsNothing(codec: Codec, m: Machine)
    requires Lawful(codec) && Inv(codec, m) && AllWhole(m.items)
    ensures Reopened(codec, m).durable == m.durable
    ensures Reopened(codec, m).memory == Memory.Open(Records(m.items), |Records(m.items)|)
  {
    hide Lawful, Opened, CompleteLength, Layout, Picked, Reach;
    NoTailIffWhole(codec, m.items);
    OpensIffClean(codec, m.items);
  }

  lemma CutToNothing(codec: Codec, m: Machine)
    requires m.durable == 0
    ensures Step(codec, Step(codec, m, PowerCut(0)), Reopen).memory == Memory.Open([], 0)
  {
    var cut := Step(codec, m, PowerCut(0));
    assert cut.bytes == [] && cut.bytes[..CompleteLength(cut.bytes)] == [];
    assert Opened(codec, cut.bytes) == Replayed([]);
  }

  // ------------------------------------------------------------------------------------------
  // When the trial count can drop
  // ------------------------------------------------------------------------------------------

  /** The records of the whole lines that do not lie within the first `durable` bytes. */
  function Unsynced(codec: Codec, items: seq<Item>, durable: nat): seq<Record> {
    if items == [] then []
    else
      var n := |Bytes(codec, items[0])|;
      if n <= durable then Unsynced(codec, items[1..], durable - n) else Records(items)
  }

  /** A power cut keeps the records of the lines that survive whole. */
  lemma {:induction false} CutAndUnsynced(codec: Codec, items: seq<Item>, keep: nat)
    requires forall k :: 0 <= k < |items| ==> Bytes(codec, items[k]) != []
    ensures Records(items) == Records(Cut(codec, items, keep)) + Unsynced(codec, items, keep)
  {
    if items != [] {
      var b := Bytes(codec, items[0]);
      if |b| <= keep {
        var rest := Cut(codec, items[1..], keep - |b|);
        CutAndUnsynced(codec, items[1..], keep - |b|);
        assert Cut(codec, items, keep) == [items[0]] + rest && ([items[0]] + rest)[1..] == rest;
      } else {
        var cut := Cut(codec, items, keep);
        assert cut == [] || (cut == [Torn(b[..keep])] && cut[1..] == []);
        assert Picked(cut, IsWhole) == [];
      }
    }
  }

  /** The more survives, the fewer records are lost. */
  lemma {:induction false} UnsyncedShrinks(codec: Codec, items: seq<Item>, durable: nat, keep: nat)
    requires durable <= keep
    ensures NSession(Unsynced(codec, items, keep)) <= NSession(Unsynced(codec, items, durable))
  {
    if items != [] {
      var n := |Bytes(codec, items[0])|;
      if n <= durable {
        UnsyncedShrinks(codec, items[1..], durable - n, keep - n);
      } else if n <= keep {
        UnsyncedIsPart(codec, items[1..], keep - n);
        NSessionAdditive(Records(items[..1]), Records(items[1..]));
        PickedSplit(items[..1], items[1..], IsWhole);
        assert items == items[..1] + items[1..];
      }
    }
  }

  lemma {:induction false} UnsyncedIsPart(codec: Codec, items: seq<Item>, keep: nat)
    ensures NSession(Unsynced(codec, items, keep)) <= NSession(Records(items))
  {
    if items != [] && |Bytes(codec, items[0])| <= keep {
      UnsyncedIsPart(codec, items[1..], keep - |Bytes(codec, items[0])|);
      PickedSplit(items[..1], items[1..], IsWhole);
      NSessionAdditive(Records(items[..1]), Records(items[1..]));
      assert items == items[..1] + items[1..];
    }
  }

  lemma WritesHaveBytes(codec: Codec, items: seq<Item>)
    requires Lawful(codec) && Sound(codec, items)
    ensures forall k :: 0 <= k < |items| ==> Bytes(codec, items[k]) != []
  {
    hide Lawful;
  }

  /** The trial count an opening reads after a power cut that keeps the first `keep` bytes. */
  function CountAfterCut(codec: Codec, m: Machine, keep: nat): nat
    requires keep <= |m.bytes|
  {
    match Opened(codec, m.bytes[..keep])
    case Replayed(rs) => NSession(rs)
    case Refused(_) => 0
  }

  lemma CountAfterCutIs(codec: Codec, m: Machine, keep: nat)
    requires Lawful(codec) && Inv(codec, m) && Clean(m.items) && keep <= |m.bytes|
    ensures CountAfterCut(codec, m, keep) == NSession(Records(m.items)) - NSession(Unsynced(codec, m.items, keep))
  {
    hide Lawful, Opened, Reach, Picked, Unsynced, Clean, Layout, Sound, Cut;
    CutLayout(codec, m.items, keep);
    CutSound(codec, m.items, keep);
    CutClean(codec, m.items, keep);
    OpensIffClean(codec, Cut(codec, m.items, keep));
    WritesHaveBytes(codec, m.items);
    CutAndUnsynced(codec, m.items, keep);
    NSessionAdditive(Records(Cut(codec, m.items, keep)), Unsynced(codec, m.items, keep));
  }

  /** What is in memory survives every power cut, as far as the trial count goes, exactly when every trial
      read back is durable: no line beyond the durable part counts any. */
  lemma NoPowerCutLowersCountIff(codec: Codec, m: Machine)
    requires Lawful(codec) && Inv(codec, m) && Tidy(m) && m.memory.Open? && !m.failed
    ensures (forall keep :: m.durable <= keep <= |m.bytes| ==>
               CountAfterCut(codec, m, keep) >= NSession(m.memory.records))
      <==> NSession(Unsynced(codec, m.items, m.durable)) == 0
  {
    hide Lawful, Reach, Picked, Unsynced, CountAfterCut;
    assert Clean(m.items) && m.durable <= |m.bytes|;
    SamePicked(m.items, IsKnown, IsWhole);
    assert m.memory.records == Records(m.items);
    hide Tidy, Clean;
    forall keep | m.durable <= keep <= |m.bytes|
      ensures CountAfterCut(codec, m, keep) >= NSession(m.memory.records) <==>
          NSession(Unsynced(codec, m.items, keep)) == 0
      ensures NSession(Unsynced(codec, m.items, keep)) <= NSession(Unsynced(codec, m.items, m.durable))
    {
      CountAfterCutIs(codec, m, keep);
      UnsyncedShrinks(codec, m.items, m.durable, keep);
    }
  }

  /** The records of the appends that failed to sync since the file was last durable as a whole. */
  function ExposedBy(m: Machine, e: Event, exposed: seq<Record>): seq<Record> {
    if !Enabled(m, e) then exposed
    else match e
      case Append(r, _, Synced) => []
      case Append(r, _, SyncFails) => exposed + [r]
      case Append(_, _, WriteStops(_)) => exposed
      case Kill => exposed
      case PowerCut(_) => []
      case Reopen => if CompleteLength(m.bytes) < |m.bytes| then [] else exposed
  }

  function Exposed(codec: Codec, m: Machine, events: seq<Event>, exposed: seq<Record>): seq<Record>
    decreases |events|
  {
    if events == [] then exposed
    else Exposed(codec, Step(codec, m, events[0]), events[1..], ExposedBy(m, events[0], exposed))
  }

  /** Nothing is exposed when everything is durable. */
  lemma {:induction false} AllDurable(codec: Codec, items: seq<Item>, durable: nat)
    requires |Layout(codec, items)| <= durable
    ensures Unsynced(codec, items, durable) == []
  {
    if items != [] {
      AllDurable(codec, items[1..], durable - |Bytes(codec, items[0])|);
    }
  }

  lemma {:induction false} UnsyncedSnoc(codec: Codec, items: seq<Item>, item: Item, durable: nat)
    requires durable <= |Layout(codec, items)| && Bytes(codec, item) != []
    ensures Unsynced(codec, items + [item], durable)
      == Unsynced(codec, items, durable) + (if item.Whole? then [item.line.record] else [])
  {
    if items == [] {
      assert items + [item] == [item];
      assert Picked([item], IsWhole) == Picked([], IsWhole) + (if item.Whole? then [item.line.record] else []) by {
        SnocPicked([], item, IsWhole);
        assert [] + [item] == [item];
      }
    } else {
      assert (items + [item])[1..] == items[1..] + [item];
      var n := |Bytes(codec, items[0])|;
      if n <= durable {
        UnsyncedSnoc(codec, items[1..], item, durable - n);
      } else {
        SnocPicked(items, item, IsWhole);
      }
    }
  }

  lemma {:induction false} UnsyncedIgnoresFlags(codec: Codec, items: seq<Item>, durable: nat)
    ensures Unsynced(codec, MapItems(items, Learn), durable) == Unsynced(codec, items, durable)
  {
    if items != [] {
      assert MapItems(items, Learn)[1..] == MapItems(items[1..], Learn);
      UnsyncedIgnoresFlags(codec, items[1..],
        if |Bytes(codec, items[0])| <= durable then durable - |Bytes(codec, items[0])| else 0);
      MapPicked(items, Learn, IsWhole, IsWhole);
    }
  }

  lemma AppendExposes(codec: Codec, m: Machine, e: Event, exposed: seq<Record>)
    requires Inv(codec, m) && e.Append? && m.memory.Open? && exposed == Unsynced(codec, m.items, m.durable)
    ensures var t := Step(codec, m, e); Unsynced(codec, t.items, t.durable) == ExposedBy(m, e, exposed)
  {
    hide Picked, Reach, Unsynced;
    var t, line := Step(codec, m, e), Line(m.memory.nextSeq, e.atMs, e.record);
    match e.fate
    case Synced =>
      MapLayout(codec, m.items, Keep);
      SnocLayout(codec, MapItems(m.items, Keep), Whole(line, true, true, true));
      AllDurable(codec, t.items, t.durable);
    case SyncFails => UnsyncedSnoc(codec, m.items, Whole(line, false, false, false), m.durable);
    case WriteStops(n) =>
      var text := codec.encode(line) + [NEWLINE];
      var written := text[..if n < |text| then n else |text| - 1];
      if written == [] {
        assert m.items + [] == m.items;
      } else {
        UnsyncedSnoc(codec, m.items, Torn(written), m.durable);
        assert exposed + [] == exposed;
      }
  }

  lemma ReopenExposes(codec: Codec, m: Machine, exposed: seq<Record>)
    requires Lawful(codec) && Inv(codec, m) && Clean(m.items) && exposed == Unsynced(codec, m.items, m.durable)
    ensures var t := Reopened(codec, m); Unsynced(codec, t.items, t.durable) == ExposedBy(m, Reopen, exposed)
  {
    hide Lawful, Reach, Unsynced, Layout, Clean, Opened, CompleteLength, Complete, Sound, Learn, MapItems, AllWhole;
    LearnedLayout(codec, m.items);
    var t := Reopened(codec, m);
    if CompleteLength(m.bytes) < |m.bytes| {
      AllDurable(codec, t.items, t.durable);
    } else {
      NoTailIffWhole(codec, m.items);
      CompleteOfWhole(m.items);
      UnsyncedIgnoresFlags(codec, m.items, m.durable);
    }
  }

  lemma CompleteOfWhole(items: seq<Item>)
    requires AllWhole(items)
    ensures items[..Complete(items)] == items
  {
  }

  lemma StepExposes(codec: Codec, m: Machine, e: Event, exposed: seq<Record>)
    requires Lawful(codec) && Inv(codec, m) && Tidy(m) && exposed == Unsynced(codec, m.items, m.durable)
    ensures var t := Step(codec, m, e); Unsynced(codec, t.items, t.durable) == ExposedBy(m, e, exposed)
  {
    hide Lawful, Unsynced, Reach, Sound, Fragment;
    if Enabled(m, e) {
      match e
      case Append(_, _, _) => AppendExposes(codec, m, e, exposed);
      case Kill =>
      case PowerCut(keep) =>
        CutLayout(codec, m.items, keep);
        AllDurable(codec, Cut(codec, m.items, keep), keep);
      case Reopen => ReopenExposes(codec, m, exposed);
    }
  }

  lemma {:induction false} RunExposes(codec: Codec, m: Machine, events: seq<Event>, exposed: seq<Record>)
    requires Lawful(codec) && Inv(codec, m) && Tidy(m) && Careful(codec, m, events)
    requires exposed == Unsynced(codec, m.items, m.durable)
    ensures var t := Run(codec, m, events);
      && Inv(codec, t) && Tidy(t) && Unsynced(codec, t.items, t.durable) == Exposed(codec, m, events, exposed)
    decreases |events|
  {
    hide Lawful, Step, Unsynced, Inv, Tidy, ExposedBy;
    if events != [] {
      StepKeepsInv(codec, m, events[0]);
      CarefulStepIsTidy(codec, m, events[0]);
      StepExposes(codec, m, events[0], exposed);
      RunExposes(codec, Step(codec, m, events[0]), events[1..], ExposedBy(m, events[0], exposed));
    }
  }

  /** Read off a run: when every append is issued on a handle without an earlier failure, the trial count of
      an open handle can be lost to a power cut exactly when some terminal record with trials belongs to an
      append that failed to sync, and nothing has made the file durable since: no append that succeeded, no
      power cut, no opening that cut a partial line. */
  lemma CountIsSafeIffNothingExposed(codec: Codec, events: seq<Event>)
    requires Lawful(codec) && Careful(codec, NewFile, events)
    requires var m := Run(codec, NewFile, events); m.memory.Open? && !m.failed
    ensures var m := Run(codec, NewFile, events);
      && m.durable <= |m.bytes|
      && ((forall keep :: m.durable <= keep <= |m.bytes| ==>
             CountAfterCut(codec, m, keep) >= NSession(m.memory.records))
          <==> NSession(Exposed(codec, NewFile, events, [])) == 0)
  {
    NewFileInv(codec);
    assert Tidy(NewFile) && Unsynced(codec, NewFile.items, NewFile.durable) == [];
    hide Lawful, Run, Exposed, Careful, CountAfterCut, Unsynced, Tidy, Layout, Picked, Reach, Sound;
    RunExposes(codec, NewFile, events, []);
    NoPowerCutLowersCountIff(codec, Run(codec, NewFile, events));
  }

  /** The trial count seen by two successive openings can drop, when the record of an append that
      failed was read back before it was durable and a power cut took it. */
  lemma TrialCountCanDrop(codec: Codec, trials: nat)
    requires Lawful(codec) && trials > 0
    ensures var m := Run(codec, NewFile, [Reopen, Append(SweepCompleted(1, trials), 0, SyncFails), Reopen]);
      var u := Step(codec, Step(codec, m, PowerCut(0)), Reopen);
      && m.memory == Memory.Open([SweepCompleted(1, trials)], 1) && u.memory == Memory.Open([], 0)
      && NSession(m.memory.records) == trials && NSession(u.memory.records) == 0
  {
    var r := SweepCompleted(1, trials);
    var e1 := Append(r, 0, SyncFails);
    var m1 := NewFile.(memory := Memory.Open([], 0));
    var m2 := Step(codec, m1, e1);
    var m3 := Step(codec, m2, Reopen);
    RunThree(codec, NewFile, Reopen, e1, Reopen);
    FirstOpening(codec);
    UnsyncedLine(codec, r);
    UnsyncedInv(codec, r);
    ReopenIs(codec, m2);
    hide Run, Step, Inv, Reopened, Lawful, Picked;
    ReopenSyncsNothing(codec, m2);
    CutToNothing(codec, m3);
    assert [r][1..] == [];
  }

  lemma UnsyncedInv(codec: Codec, r: Record)
    requires Lawful(codec)
    ensures Inv(codec, Step(codec, NewFile.(memory := Memory.Open([], 0)), Append(r, 0, SyncFails)))
  {
    FirstOpening(codec);
    NewFileInv(codec);
    hide Lawful, Inv, Step;
    StepKeepsInv(codec, NewFile, Reopen);
    StepKeepsInv(codec, Step(codec, NewFile, Reopen), Append(r, 0, SyncFails));
  }

  lemma ReopenIs(codec: Codec, m: Machine)
    ensures Step(codec, m, Reopen) == Reopened(codec, m)
  {
  }

  /** An opening, by where it cuts and what the rest replays to. */
  lemma ReopenedIs(codec: Codec, m: Machine, n: nat, replay: Replay)
    requires n == CompleteLength(m.bytes) && replay == ReplayLines(codec, m.bytes[..n], 1)
    ensures Opened(codec, m.bytes) == replay
    ensures Reopened(codec, m) == Machine(
      m.bytes[..n], if n < |m.bytes| then n else m.durable,
      if replay.Replayed? then Memory.Open(replay.records, |replay.records|) else Closed, false,
      MapItems(m.items[..Complete(m.items)], Learn), m.acked, m.kept, m.failures)
    ensures m.bytes[..n] == m.bytes <==> n == |m.bytes|
  {
    hide CompleteLength, ReplayLines, MapItems, Complete, Learn;
  }

  function Behind(found: seq<Record>, r: Replay): Replay {
    match r
    case Replayed(rs) => Replayed(found + rs)
    case Refused(n) => Refused(n)
  }

  lemma ReplayEnds(codec: Codec, line: nat, found: seq<Record>)
    ensures Behind(found, ReplayLines(codec, [], line)) == Replayed(found)
  {
    assert found + [] == found;
  }

  lemma ReplayStarts(r: Replay)
    ensures Behind([], r) == r
  {
    assert r.Replayed? ==> [] + r.records == r.records;
  }

  /** A replay, by its first line. */
  lemma ReplayFirst(codec: Codec, s: seq<Byte>, line: nat)
    requires s != []
    ensures var i := IndexOf(NEWLINE, s);
      var text, rest := StripReturn(s[..i]), if i < |s| then s[i + 1..] else [];
      var after := ReplayLines(codec, rest, line + 1);
      ReplayLines(codec, s, line) ==
        if codec.blank(text) then after
        else match codec.decode(text)
          case Parsed(r) => Behind([r], after)
          case _ => Refused(line)
  {
    hide IndexOf, StripReturn;
  }

  lemma BehindBoth(a: seq<Record>, b: seq<Record>, r: Replay)
    ensures Behind(a, Behind(b, r)) == Behind(a + b, r)
  {
    assert r.Replayed? ==> a + (b + r.records) == a + b + r.records;
  }

  /** One line of a replay behind what was found before it. */
  lemma ReplayOnce(codec: Codec, s: seq<Byte>, line: nat, found: seq<Record>)
    requires s != []
    ensures var i := IndexOf(NEWLINE, s);
      var text, rest := StripReturn(s[..i]), if i < |s| then s[i + 1..] else [];
      var after := ReplayLines(codec, rest, line + 1);
      && (codec.blank(text) ==> Behind(found, ReplayLines(codec, s, line)) == Behind(found, after))
      && (!codec.blank(text) && codec.decode(text).Parsed? ==>
            Behind(found, ReplayLines(codec, s, line)) == Behind(found + [codec.decode(text).record], after))
      && (!codec.blank(text) && !codec.decode(text).Parsed? ==>
            Behind(found, ReplayLines(codec, s, line)) == Refused(line))
  {
    hide IndexOf, StripReturn, ReplayLines;
    ReplayFirst(codec, s, line);
    var i := IndexOf(NEWLINE, s);
    var text, rest := StripReturn(s[..i]), if i < |s| then s[i + 1..] else [];
    if codec.decode(text).Parsed? {
      BehindBoth(found, [codec.decode(text).record], ReplayLines(codec, rest, line + 1));
    }
  }

  // ------------------------------------------------------------------------------------------
  // The journal itself
  // ------------------------------------------------------------------------------------------

  datatype OpenResult = Ready(linesRead: nat, truncatedTailBytes: nat) | Corrupt(line: nat)

  /** What the disk and the callers know beside the file and the handle. */
  datatype History =
      History(durable: nat, failed: bool, items: seq<Item>, acked: seq<Record>, kept: seq<Record>, failures: nat)

  /** One journal file and the handle on it. `file` is what a reader of the file would see. */
  class Journal {
    const codec: Codec
    var file: seq<Byte>
    var isOpen: bool
    var records: seq<Record>
    var nextSeq: nat
    ghost var history: History

    ghost function Now(): Machine
      reads this
    {
      Machine(file, history.durable, if isOpen then Memory.Open(records, nextSeq) else Closed,
              history.failed, history.items, history.acked, history.kept, history.failures)
    }

    ghost predicate Valid()
      reads this
    {
      Inv(codec, Now())
    }

    constructor (codec: Codec)
      ensures this.codec == codec && Now() == NewFile && Valid()
    {
      this.codec := codec;
      file, isOpen, records, nextSeq := [], false, [], 0;
      history := History(0, false, [], [], [], 0);
    }

    /** The end of the last complete line. */
    method CompleteLen() returns (n: nat)
      ensures n == CompleteLength(file)
    {
      n := |file|;
      while n > 0 && file[n - 1] != NEWLINE
        invariant n <= |file| && CompleteLength(file[..n]) == CompleteLength(file)
      {
        assert file[..n][..n - 1] == file[..n - 1];
        n := n - 1;
      }
    }

    /** Decode every complete line, in order, until one is bad. */
    method ReplayComplete(text: seq<Byte>) returns (r: Replay)
      ensures r == ReplayLines(codec, text, 1)
    {
      hide ReplayLines;
      var rest, line, found := text, 1, [];
      ReplayStarts(ReplayLines(codec, text, 1));
      while rest != []
        invariant ReplayLines(codec, text, 1) == Behind(found, ReplayLines(codec, rest, line))
        decreases |rest|
      {
        ReplayOnce(codec, rest, line, found);
        var i := IndexOf(NEWLINE, rest);
        var one := StripReturn(rest[..i]);
        if !codec.blank(one) {
          match codec.decode(one)
          case Parsed(r1) => found := found + [r1];
          case _ => return Refused(line);
        }
        rest, line := if i < |rest| then rest[i + 1..] else [], line + 1;
      }
      ReplayEnds(codec, line, found);
      return Replayed(found);
    }

    /** Cut a partial last line off the file, then replay the rest into memory. */
    method OpenFile() returns (r: OpenResult)
      requires Lawful(codec) && Valid()
      modifies this
      ensures Valid() && Now() == Reopened(codec, old(Now()))
      ensures r.Ready? <==> Opened(codec, old(file)).Replayed?
      ensures r.Ready? ==>
          isOpen && r.linesRead == |records| && r.truncatedTailBytes == |old(file)| - CompleteLength(old(file))
      ensures r.Corrupt? ==> Opened(codec, old(file)) == Refused(r.line)
      ensures file == old(file) <==> CompleteLength(old(file)) == |old(file)|
    {
      hide Lawful, Inv, CompleteLength, ReplayLines, Complete, MapItems, Learn, Opened, Reopened;
      ghost var before := Now();
      ReopenKeepsInv(codec, before);
      var n := CompleteLen();
      var tail, text := |file| - n, file[..n];
      ghost var learned := MapItems(history.items[..Complete(history.items)], Learn);
      history := history.(durable := if tail > 0 then n else history.durable, failed := false, items := learned);
      if tail > 0 {
        file := text;
      }
      var replay := ReplayComplete(text);
      ReopenedIs(codec, before, n, replay);
      match replay
      case Replayed(rs) =>
        isOpen, records, nextSeq := true, rs, |rs|;
        r := Ready(|rs|, tail);
      case Refused(line) =>
        isOpen := false;
        r := Corrupt(line);
    }

    /** Append one record and sync it; `fate` is how the input and output went. */
    method AppendRecord(record: Record, atMs: int, fate: Fate) returns (ok: bool)
      requires Lawful(codec) && Valid() && isOpen
      modifies this
      ensures Valid() && isOpen && Now() == Appended(codec, old(Now()), record, atMs, fate)
      ensures ok <==> fate == Synced
      ensures records == if ok then old(records) + [record] else old(records)
      ensures ok && (record.SweepCompleted? || record.SweepFailed? || record.SweepAbandoned?) ==>
          NSession(records) == old(NSession(records)) + record.trialsOffered
      ensures (!ok || record.ShuffleControlCompleted? || record.BestEverAdvanced? || record.PosteriorRetracted?
               || record.GarbageCollected? || record.TruncatedTail? || record.Other?) ==>
          NSession(records) == old(NSession(records))
    {
      NSessionNext(records, record);
      hide Lawful, Inv, MapItems, NSession;
      AppendKeepsInv(codec, Now(), record, atMs, fate);
      var line := Line(nextSeq, atMs, record);
      var encoded := codec.encode(line) + [NEWLINE];
      ghost var h := history;
      match fate
      case WriteStops(n) =>
        var written := encoded[..if n < |encoded| then n else |encoded| - 1];
        file := file + written;
        history := h.(items := h.items + (if written == [] then [] else [Torn(written)]),
            failed := true, failures := h.failures + 1);
        return false;
      case SyncFails =>
        file := file + encoded;
        history := h.(items := h.items + [Whole(line, false, false, false)],
            failed := true, failures := h.failures + 1);
        return false;
      case Synced =>
        file := file + encoded;
        history := h.(durable := |file|, items := MapItems(h.items, Keep) + [Whole(line, true, true, true)],
                      acked := h.acked + [record], kept := records + [record]);
        nextSeq := nextSeq + 1;
        records := records + [record];
        return true;
    }
  }
}
