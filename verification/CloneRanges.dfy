/** Clones that are only paired anew: both of their sides are lines the baseline had before. */
module CloneRanges {
  import opened Common

  type Line = string

  /** Equal runs: `size` lines at `a` in the baseline and at `b` in the current file, from zero. */
  datatype Block = Block(a: nat, b: nat, size: nat)

  /** A file in the baseline and now, with the runs the differ matched; a file the baseline does not
      have has no runs. */
  datatype Diff = Diff(baseline: seq<Line>, current: seq<Line>, blocks: seq<Block>)

  /** What the differ guarantees about its runs. */
  ghost predicate Matching(d: Diff) {
    && (forall i :: 0 <= i < |d.blocks| ==> SameLines(d, d.blocks[i]))
    && (forall i, j :: 0 <= i < j < |d.blocks| ==> Before(d.blocks[i], d.blocks[j]))
  }

  predicate SameLines(d: Diff, m: Block) {
    && m.a + m.size <= |d.baseline| && m.b + m.size <= |d.current|
    && d.baseline[m.a..m.a + m.size] == d.current[m.b..m.b + m.size]
  }

  predicate Before(m: Block, n: Block) {
    m.a + m.size <= n.a && m.b + m.size <= n.b
  }

  /** The baseline line a current line was matched to. */
  ghost predicate Origin(d: Diff, line: nat, old_: nat) {
    exists i :: 0 <= i < |d.blocks| && InBlock(d.blocks[i], line, old_)
  }

  predicate InBlock(m: Block, line: nat, old_: nat) {
    m.b <= line < m.b + m.size && old_ == m.a + (line - m.b)
  }

  ghost predicate Unchanged(d: Diff, line: nat) {
    exists i :: 0 <= i < |d.blocks| && Contains(d.blocks[i], line)
  }

  predicate Contains(m: Block, line: nat) {
    m.b <= line < m.b + m.size
  }

  // ------------------------------------------------------------------------------------------
  // Matched lines keep their text and their order
  // ------------------------------------------------------------------------------------------

  lemma SameLineOfBlock(d: Diff, m: Block, line: nat, old_: nat)
    requires SameLines(d, m) && InBlock(m, line, old_)
    ensures line < |d.current| && old_ < |d.baseline| && d.baseline[old_] == d.current[line]
  {
    assert d.baseline[m.a..m.a + m.size][line - m.b] == d.current[m.b..m.b + m.size][line - m.b];
  }

  lemma OriginKeepsText(d: Diff, line: nat, old_: nat)
    requires Matching(d) && Origin(d, line, old_)
    ensures line < |d.current| && old_ < |d.baseline| && d.baseline[old_] == d.current[line]
  {
    hide SameLines, InBlock, Before;
    var i :| 0 <= i < |d.blocks| && InBlock(d.blocks[i], line, old_);
    SameLineOfBlock(d, d.blocks[i], line, old_);
  }

  lemma OriginKeepsOrder(d: Diff, x: nat, p: nat, y: nat, q: nat)
    requires Matching(d) && Origin(d, x, p) && Origin(d, y, q)
    ensures x < y ==> p < q
  {
    var i :| 0 <= i < |d.blocks| && InBlock(d.blocks[i], x, p);
    var j :| 0 <= j < |d.blocks| && InBlock(d.blocks[j], y, q);
    hide SameLines;
    if i < j {
      assert Before(d.blocks[i], d.blocks[j]);
    } else if j < i {
      assert Before(d.blocks[j], d.blocks[i]);
    }
  }

  // ------------------------------------------------------------------------------------------
  // One side of a clone
  // ------------------------------------------------------------------------------------------

  /** A range of lines, counted from one, both ends included. */
  datatype Range = Range(first: int, last: int)

  /** The lines of ranges in order, counted from zero. */
  function Lines(rs: seq<Range>): seq<int>
  {
    if rs == [] then [] else Lines(rs[..|rs| - 1]) + LinesOf(rs[|rs| - 1])
  }

  function LinesOf(r: Range): (s: seq<int>)
    ensures |s| == if r.first <= r.last then r.last - r.first + 1 else 0
    ensures forall k :: 0 <= k < |s| ==> s[k] == r.first - 1 + k
  {
    seq(if r.first <= r.last then r.last - r.first + 1 else 0, k => r.first - 1 + k)
  }

  /** Baseline ranges that spell the current lines from..to: nonempty, in order and apart, and each of
      their lines is where the current line was matched. */
  ghost predicate Spells(d: Diff, from_: nat, to: nat, rs: seq<Range>) {
    && |Lines(rs)| == to - from_
    && (forall k :: 0 <= k < |Lines(rs)| ==> Lines(rs)[k] >= 0 && Origin(d, from_ + k, Lines(rs)[k]))
    && (forall i :: 0 <= i < |rs| ==> 1 <= rs[i].first <= rs[i].last)
    && (forall i, j :: 0 <= i < j < |rs| ==> rs[i].last < rs[j].first)
  }

  lemma LinesSnoc(rs: seq<Range>, r: Range)
    ensures Lines(rs + [r]) == Lines(rs) + LinesOf(r)
  {
    assert (rs + [r])[..|rs|] == rs;
  }

  /** The baseline lines of what was spelled so far lie before the run that continues it. */
  lemma SpelledIsBefore(d: Diff, from_: nat, cursor: nat, rs: seq<Range>, i: nat)
    requires Matching(d) && from_ < cursor && Spells(d, from_, cursor, rs) && rs != []
    requires i < |d.blocks| && Contains(d.blocks[i], cursor)
    ensures rs[|rs| - 1].last <= d.blocks[i].a + (cursor - d.blocks[i].b)
  {
    var n, m := |Lines(rs)| - 1, d.blocks[i];
    hide Matching;
    assert Origin(d, from_ + n, Lines(rs)[n]);
    assert InBlock(m, cursor, m.a + (cursor - m.b));
    OriginKeepsOrder(d, from_ + n, Lines(rs)[n], cursor, m.a + (cursor - m.b));
    assert Lines(rs)[n] == rs[|rs| - 1].last - 1;
  }

  lemma OriginInBlock(d: Diff, i: nat, line: nat)
    requires i < |d.blocks| && Contains(d.blocks[i], line)
    ensures Origin(d, line, d.blocks[i].a + (line - d.blocks[i].b))
  {
    assert InBlock(d.blocks[i], line, d.blocks[i].a + (line - d.blocks[i].b));
  }

  lemma SpellsNext(d: Diff, from_: nat, cursor: nat, rs: seq<Range>, i: nat, hi: nat)
    requires Matching(d) && from_ <= cursor < hi && Spells(d, from_, cursor, rs) && (cursor == from_ ==> rs == [])
    requires i < |d.blocks| && d.blocks[i].b <= cursor && hi <= d.blocks[i].b + d.blocks[i].size
    ensures var m := d.blocks[i];
      Spells(d, from_, hi, rs + [Range(m.a + cursor - m.b + 1, m.a + hi - m.b)])
  {
    var m := d.blocks[i];
    var r := Range(m.a + cursor - m.b + 1, m.a + hi - m.b);
    if rs != [] { SpelledIsBefore(d, from_, cursor, rs, i); }
    hide Matching, Lines, Origin, InBlock;
    LinesSnoc(rs, r);
    assert forall k :: 0 <= k < hi - cursor ==> LinesOf(r)[k] == m.a + (cursor + k - m.b);
    hide LinesOf;
    forall k | 0 <= k < |Lines(rs + [r])| ensures Lines(rs + [r])[k] >= 0 && Origin(d, from_ + k, Lines(rs + [r])[k]) {
      if k >= |Lines(rs)| {
        OriginInBlock(d, i, from_ + k);
      }
    }
  }

  /** Nothing of the first k runs reaches into cursor..to. */
  ghost predicate Passed(d: Diff, k: nat, cursor: nat, to: nat) {
    forall j :: 0 <= j < k && j < |d.blocks| ==>
      d.blocks[j].b + d.blocks[j].size <= cursor || d.blocks[j].b >= to || d.blocks[j].size == 0
  }

  lemma GapIsChanged(d: Diff, k: nat, cursor: nat, to: nat)
    requires Matching(d) && cursor < to && Passed(d, k, cursor, to)
    requires k >= |d.blocks| || (d.blocks[k].b > cursor && d.blocks[k].size > 0)
    ensures !Unchanged(d, cursor)
  {
    hide SameLines;
    forall j | 0 <= j < |d.blocks| ensures !Contains(d.blocks[j], cursor) {
      if j > k { assert Before(d.blocks[k], d.blocks[j]); }
    }
  }

  lemma SpelledIsUnchanged(d: Diff, from_: nat, to: nat, rs: seq<Range>, line: nat)
    requires Spells(d, from_, to, rs) && from_ <= line < to
    ensures Unchanged(d, line)
  {
    hide Lines;
    assert Origin(d, from_ + (line - from_), Lines(rs)[line - from_]);
    var i :| 0 <= i < |d.blocks| && InBlock(d.blocks[i], line, Lines(rs)[line - from_]);
    assert Contains(d.blocks[i], line);
  }

  /** The baseline ranges of a current range, if and only if every line of it is unchanged. */
  method VerifySide(d: Diff, start: nat, end: nat) returns (found: Option<seq<Range>>)
    requires Matching(d) && 1 <= start <= end
    ensures found != None <==> forall line :: start - 1 <= line < end ==> Unchanged(d, line)
    ensures found != None ==> Spells(d, start - 1, end, found.value)
  {
    hide Matching, Unchanged, Spells, Passed;
    var cursor: nat, ranges: seq<Range> := start - 1, [];
    NothingSpelled(d, cursor, end);
    for k := 0 to |d.blocks|
      invariant start - 1 <= cursor < end && (cursor == start - 1 ==> ranges == [])
      invariant Spells(d, start - 1, cursor, ranges) && Passed(d, k, cursor, end)
    {
      var block := d.blocks[k];
      var lo := if cursor > block.b then cursor else block.b;
      var hi := if end < block.b + block.size then end else block.b + block.size;
      if hi <= lo {
        PassedNext(d, k, cursor, cursor, end);
        continue;
      }
      if lo != cursor {
        GapIsChanged(d, k, cursor, end);
        return None;
      }
      SpellsNext(d, start - 1, cursor, ranges, k, hi);
      ranges := ranges + [Range(block.a + lo - block.b + 1, block.a + hi - block.b)];
      if hi == end {
        forall line | start - 1 <= line < end ensures Unchanged(d, line) {
          SpelledIsUnchanged(d, start - 1, end, ranges, line);
        }
        return Some(ranges);
      }
      PassedNext(d, k, cursor, hi, end);
      cursor := hi;
    }
    GapIsChanged(d, |d.blocks|, cursor, end);
    return None;
  }

  lemma NothingSpelled(d: Diff, cursor: nat, end: nat)
    ensures Spells(d, cursor, cursor, []) && Passed(d, 0, cursor, end)
  {
  }

  lemma PassedNext(d: Diff, k: nat, cursor: nat, next: nat, end: nat)
    requires Passed(d, k, cursor, end) && cursor <= next && k < |d.blocks|
    requires var m := d.blocks[k]; m.b + m.size <= next || m.b >= end || m.size == 0
    ensures Passed(d, k + 1, next, end)
  {
  }

  /** Ranges that spell a current range hold its text. */
  lemma SpelledTextIsCurrent(d: Diff, from_: nat, to: nat, rs: seq<Range>, k: nat)
    requires Matching(d) && Spells(d, from_, to, rs) && k < to - from_
    ensures 0 <= Lines(rs)[k] < |d.baseline| && from_ + k < |d.current|
    ensures d.baseline[Lines(rs)[k]] == d.current[from_ + k]
  {
    hide Matching, Lines;
    OriginKeepsText(d, from_ + k, Lines(rs)[k]);
  }

  /** Two apart ranges of one file are spelled by apart baseline lines: a line of the baseline cannot
      stand for two copies, so a copy inserted into the same file is never waived. */
  lemma CopiesWereThereBefore(d: Diff, from1: nat, to1: nat, rs1: seq<Range>, from2: nat, to2: nat, rs2: seq<Range>)
    requires Matching(d) && Spells(d, from1, to1, rs1) && Spells(d, from2, to2, rs2)
    requires to1 <= from2 || to2 <= from1
    ensures forall p :: p in Lines(rs1) ==> p !in Lines(rs2)
  {
    hide Matching, Lines;
    forall i, j | 0 <= i < |Lines(rs1)| && 0 <= j < |Lines(rs2)| ensures Lines(rs1)[i] != Lines(rs2)[j] {
      OriginKeepsOrder(d, from1 + i, Lines(rs1)[i], from2 + j, Lines(rs2)[j]);
      OriginKeepsOrder(d, from2 + j, Lines(rs2)[j], from1 + i, Lines(rs1)[i]);
    }
  }

  // ------------------------------------------------------------------------------------------
  // The verdict
  // ------------------------------------------------------------------------------------------

  datatype Location = Location(path: string, start: int, end: int)

  datatype Clone = Clone(first: Location, second: Location)

  datatype Side = Side(location: Location, ranges: seq<Range>)

  datatype Verdict = InvalidRange | Verified(pairs: seq<(Side, Side)>, introduced: nat)

  predicate ValidRange(l: Location) {
    1 <= l.start <= l.end
  }

  ghost predicate Old(files: string -> Diff, l: Location) {
    ValidRange(l) && forall line :: l.start - 1 <= line < l.end ==> Unchanged(files(l.path), line)
  }

  ghost predicate Waived(files: string -> Diff, c: Clone) {
    Old(files, c.first) && Old(files, c.second)
  }

  ghost function WaivedOf(files: string -> Diff, clones: seq<Clone>): seq<Clone> {
    if clones == [] then []
    else
      var before, last := WaivedOf(files, clones[..|clones| - 1]), clones[|clones| - 1];
      if Waived(files, last) then before + [last] else before
  }

  ghost predicate SpellsSide(files: string -> Diff, s: Side) {
    ValidRange(s.location) && Spells(files(s.location.path), s.location.start - 1, s.location.end, s.ranges)
  }

  ghost predicate PairsOf(files: string -> Diff, pairs: seq<(Side, Side)>, waived: seq<Clone>) {
    |pairs| == |waived| && forall i :: 0 <= i < |pairs| ==>
      && pairs[i].0.location == waived[i].first && pairs[i].1.location == waived[i].second
      && SpellsSide(files, pairs[i].0) && SpellsSide(files, pairs[i].1)
  }

  /** An invalid range is an error. Otherwise the pairs with two old sides are listed in order with the
      baseline lines that spell them, and all the others count as introduced. */
  method VerifyExistingCloneRanges(files: string -> Diff, clones: seq<Clone>) returns (v: Verdict)
    requires forall path :: Matching(files(path))
    ensures v.InvalidRange? <==>
      exists c :: c in clones && !(1 <= c.first.start <= c.first.end && 1 <= c.second.start <= c.second.end)
    ensures v.Verified? ==>
      && PairsOf(files, v.pairs, WaivedOf(files, clones)) && v.introduced + |v.pairs| == |clones|
  {
    hide Matching, Unchanged, Spells;
    var pairs: seq<(Side, Side)> := [];
    for i := 0 to |clones|
      invariant forall k :: 0 <= k < i ==> ValidRange(clones[k].first) && ValidRange(clones[k].second)
      invariant PairsOf(files, pairs, WaivedOf(files, clones[..i])) && |pairs| <= i
    {
      assert clones[..i + 1][..i] == clones[..i];
      var c := clones[i];
      assert c in clones;
      if !ValidRange(c.first) { return InvalidRange; }
      var first := VerifySide(files(c.first.path), c.first.start, c.first.end);
      if !ValidRange(c.second) { return InvalidRange; }
      var second := VerifySide(files(c.second.path), c.second.start, c.second.end);
      if first != None && second != None {
        pairs := pairs + [(Side(c.first, first.value), Side(c.second, second.value))];
      }
    }
    assert clones[..|clones|] == clones;
    return Verified(pairs, |clones| - |pairs|);
  }
}
