/** The search seed of the n-th replicate of a cell, in 64-bit words. */
module ReplicateSeed {
  // An FNV-style fold over the session seed, the levels of the cell and the replicate number, with wrap-around.

  const WORD := 0x1_0000_0000_0000_0000

  type U64 = x: int | 0 <= x < WORD
  type Level = x: int | 0 <= x < 256

  /** Everything that identifies a cell, level by level. */
  datatype Cell = Cell(axisA: seq<Level>, variant: Level, param: Level, refusals: seq<Level>)

  /** Bitwise exclusive or, bit by bit from the lowest. */
  function XorBits(a: nat, b: nat): nat
    decreases a + b
  {
    if a == 0 && b == 0 then 0 else (a + b) % 2 + 2 * XorBits(a / 2, b / 2)
  }

  lemma XorHalves(a: nat, b: nat)
    ensures XorBits(a, b) / 2 == XorBits(a / 2, b / 2) && XorBits(a, b) % 2 == (a + b) % 2
  {
  }

  lemma LowBit(a: nat, b: nat, x: nat)
    requires x % 2 == (a + b) % 2
    ensures (x + b) % 2 == a % 2
  {
  }

  lemma HalvesDecide(x: nat, y: nat)
    requires x / 2 == y / 2 && x % 2 == y % 2
    ensures x == y
  {
  }

  lemma {:induction false} XorCanBeUndone(a: nat, b: nat)
    ensures XorBits(XorBits(a, b), b) == a
    decreases a + b
  {
    if a != 0 || b != 0 {
      hide XorBits;
      var x := XorBits(a, b);
      XorHalves(a, b);
      XorHalves(x, b);
      XorCanBeUndone(a / 2, b / 2);
      LowBit(a, b, x);
      HalvesDecide(XorBits(x, b), a);
    }
  }

  lemma {:induction false} XorSymmetric(a: nat, b: nat)
    ensures XorBits(a, b) == XorBits(b, a)
    decreases a + b
  {
    if a != 0 || b != 0 {
      XorSymmetric(a / 2, b / 2);
    }
  }

  /** The exclusive or of two numbers below a power of two is below it. */
  lemma {:induction false} XorBounded(a: nat, b: nat, bits: nat)
    requires a < Power(bits) && b < Power(bits)
    ensures XorBits(a, b) < Power(bits)
  {
    if bits > 0 && (a != 0 || b != 0) {
      XorBounded(a / 2, b / 2, bits - 1);
    }
  }

  function Power(bits: nat): nat {
    if bits == 0 then 1 else 2 * Power(bits - 1)
  }

  lemma Doubled(x: nat, y: nat)
    ensures 2 * (x * y) == (2 * x) * y
  {
  }

  lemma {:induction false} PowerSum(a: nat, b: nat)
    ensures Power(a + b) == Power(a) * Power(b)
  {
    if a > 0 {
      PowerSum(a - 1, b);
      Doubled(Power(a - 1), Power(b));
    }
  }

  lemma PowerOfWord()
    ensures Power(64) == WORD
  {
    assert Power(4) == 16 by { PowerSum(2, 2); }
    assert Power(8) == 0x100 by { PowerSum(4, 4); }
    assert Power(16) == 0x1_0000 by { PowerSum(8, 8); }
    assert Power(32) == 0x1_0000_0000 by { PowerSum(16, 16); }
    PowerSum(32, 32);
  }

  function Xor(h: U64, b: U64): U64 {
    PowerOfWord();
    XorBounded(h, b, 64);
    XorBits(h, b)
  }

  /** Wrapping multiplication by the hash's odd constant. */
  function Times(x: U64): U64 {
    (x * 0x1000_0000_01b3) % WORD
  }

  /** One step of the hash. */
  function Eat(h: U64, b: U64): U64 {
    Times(Xor(h, b))
  }

  lemma Remainder(a: int, k: int, x: U64)
    requires a == x + WORD * k
    ensures a % WORD == x
  {
  }

  /** The multiplier is odd; multiplying by its inverse modulo 2^64 undoes it. */
  lemma MultiplyCanBeUndone(x: U64)
    ensures (Times(x) * 0xb46dd957aff6957b) % WORD == x
  {
    var q := (x * 0x1000_0000_01b3) / WORD;
    Remainder(Times(x) * 0xb46dd957aff6957b, 0xb46dd957c32 * x - q * 0xb46dd957aff6957b, x);
  }

  lemma MultiplyIsInjective(x: U64, y: U64)
    requires Times(x) == Times(y)
    ensures x == y
  {
    MultiplyCanBeUndone(x);
    MultiplyCanBeUndone(y);
  }

  lemma XorIsInjective(h: U64, a: U64, b: U64)
    requires Xor(h, a) == Xor(h, b) || Xor(a, h) == Xor(b, h)
    ensures a == b
  {
    XorSymmetric(h, a);
    XorSymmetric(h, b);
    XorCanBeUndone(a, h);
    XorCanBeUndone(b, h);
  }

  /** A step loses nothing of either argument. */
  lemma EatKeepsInput(h: U64, a: U64, b: U64)
    requires Eat(h, a) == Eat(h, b)
    ensures a == b
  {
    hide Xor, Times;
    MultiplyIsInjective(Xor(h, a), Xor(h, b));
    XorIsInjective(h, a, b);
  }

  lemma EatKeepsState(h: U64, k: U64, b: U64)
    requires Eat(h, b) == Eat(k, b)
    ensures h == k
  {
    hide Xor, Times;
    MultiplyIsInjective(Xor(h, b), Xor(k, b));
    XorIsInjective(b, h, k);
  }

  function Fold(h: U64, bs: seq<U64>): U64
    decreases |bs|
  {
    if bs == [] then h else Fold(Eat(h, bs[0]), bs[1..])
  }

  lemma {:induction false} FoldIsInjectiveInStart(h: U64, k: U64, bs: seq<U64>)
    requires Fold(h, bs) == Fold(k, bs)
    ensures h == k
    decreases |bs|
  {
    if bs != [] {
      FoldIsInjectiveInStart(Eat(h, bs[0]), Eat(k, bs[0]), bs[1..]);
      EatKeepsState(h, k, bs[0]);
    }
  }

  /** Two inputs that differ in exactly one place have different hashes. */
  lemma {:induction false} FoldSeparatesOnePlace(h: U64, as_: seq<U64>, bs: seq<U64>, i: nat)
    requires |as_| == |bs| && i < |bs| && as_[i] != bs[i]
    requires forall j :: 0 <= j < |bs| && j != i ==> as_[j] == bs[j]
    ensures Fold(h, as_) != Fold(h, bs)
    decreases |bs|
  {
    if i == 0 {
      assert as_[1..] == bs[1..];
      if Fold(h, as_) == Fold(h, bs) {
        FoldIsInjectiveInStart(Eat(h, as_[0]), Eat(h, bs[0]), bs[1..]);
        EatKeepsInput(h, as_[0], bs[0]);
      }
    } else {
      FoldSeparatesOnePlace(Eat(h, bs[0]), as_[1..], bs[1..], i - 1);
    }
  }

  /** What the hash eats, in order. */
  function Input(session: U64, cell: Cell, replicate: Level): seq<U64> {
    [session] + cell.axisA + [cell.variant, cell.param] + cell.refusals + [replicate]
  }

  function SeedOf(session: U64, cell: Cell, replicate: Level): U64 {
    Fold(0xcbf2_9ce4_8422_2325, Input(session, cell, replicate))
  }

  lemma {:induction false} FoldSnoc(h: U64, bs: seq<U64>, b: U64)
    ensures Fold(h, bs + [b]) == Eat(Fold(h, bs), b)
    decreases |bs|
  {
    if bs == [] {
      assert bs + [b] == [b] && [b][1..] == [];
    } else {
      assert (bs + [b])[1..] == bs[1..] + [b];
      FoldSnoc(Eat(h, bs[0]), bs[1..], b);
    }
  }

  /** The hash as it is computed, one value at a time. */
  method ReplicateSeed(session: U64, cell: Cell, replicate: Level) returns (h: U64)
    ensures h == SeedOf(session, cell, replicate)
  {
    hide Fold, Eat;
    h := 0xcbf2_9ce4_8422_2325;
    ghost var eaten: seq<U64> := [];
    FoldNothing(h);
    ghost var start := h;
    FoldSnoc(start, eaten, session);
    h, eaten := Eat(h, session), eaten + [session];
    for i := 0 to |cell.axisA|
      invariant h == Fold(start, eaten) && eaten == [session] + cell.axisA[..i]
    {
      FoldSnoc(start, eaten, cell.axisA[i]);
      h, eaten := Eat(h, cell.axisA[i]), eaten + [cell.axisA[i]];
    }
    FoldSnoc(start, eaten, cell.variant);
    h, eaten := Eat(h, cell.variant), eaten + [cell.variant];
    FoldSnoc(start, eaten, cell.param);
    h, eaten := Eat(h, cell.param), eaten + [cell.param];
    for i := 0 to |cell.refusals|
      invariant h == Fold(start, eaten)
          && eaten == [session] + cell.axisA + [cell.variant, cell.param] + cell.refusals[..i]
    {
      FoldSnoc(start, eaten, cell.refusals[i]);
      h, eaten := Eat(h, cell.refusals[i]), eaten + [cell.refusals[i]];
    }
    FoldSnoc(start, eaten, replicate);
    h, eaten := Eat(h, replicate), eaten + [replicate];
    assert eaten == Input(session, cell, replicate);
  }

  lemma FoldNothing(h: U64)
    ensures Fold(h, []) == h
  {
  }

  /** The replicates of a cell have pairwise different seeds, for every session seed. */
  lemma SeedsOfReplicatesDiffer(session: U64, cell: Cell, a: Level, b: Level)
    requires SeedOf(session, cell, a) == SeedOf(session, cell, b)
    ensures a == b
  {
    hide Fold;
    var bs, cs := Input(session, cell, a), Input(session, cell, b);
    var last := |bs| - 1;
    if a != b {
      FoldSeparatesOnePlace(0xcbf2_9ce4_8422_2325, bs, cs, last);
    }
  }

  /** So do the same replicate of the same cell in two sessions, and two cells one level apart. */
  lemma SeedsOfSessionsDiffer(s: U64, t: U64, cell: Cell, replicate: Level)
    requires SeedOf(s, cell, replicate) == SeedOf(t, cell, replicate)
    ensures s == t
  {
    hide Fold;
    if s != t {
      FoldSeparatesOnePlace(0xcbf2_9ce4_8422_2325, Input(s, cell, replicate), Input(t, cell, replicate), 0);
    }
  }

  /** What the hash eats first, and in which order: the session, the levels of axis A, the objective and its
      parameter, the refusal levels, the replicate. */
  lemma InputIsInOrder(s: U64, c: Cell, a: Level)
    ensures var x, n := Input(s, c, a), |c.axisA|;
      && |x| == n + |c.refusals| + 4 && x[0] == s && (forall i :: 0 <= i < n ==> x[1 + i] == c.axisA[i])
      && x[n + 1] == c.variant && x[n + 2] == c.param
      && (forall i :: 0 <= i < |c.refusals| ==> x[n + 3 + i] == c.refusals[i]) && x[|x| - 1] == a
  {
  }

  /** It holds everything that identifies a replicate. */
  lemma InputIsInjective(s: U64, c: Cell, a: Level, t: U64, d: Cell, b: Level)
    requires |c.axisA| == |d.axisA| && |c.refusals| == |d.refusals| && Input(s, c, a) == Input(t, d, b)
    ensures s == t && c == d && a == b
  {
    InputIsInOrder(s, c, a);
    InputIsInOrder(t, d, b);
    hide Input;
    var x, y, n := Input(s, c, a), Input(t, d, b), |c.axisA|;
    forall i | 0 <= i < n ensures c.axisA[i] == d.axisA[i] {
      assert x[1 + i] == c.axisA[i] && y[1 + i] == d.axisA[i];
    }
    forall i | 0 <= i < |c.refusals| ensures c.refusals[i] == d.refusals[i] {
      assert x[n + 3 + i] == c.refusals[i] && y[n + 3 + i] == d.refusals[i];
    }
    assert c.axisA == d.axisA && c.refusals == d.refusals;
  }

  /** Nor do cells that differ in the objective, in its parameter or in one refusal level share a seed. */
  lemma SeedsOfObjectivesDiffer(session: U64, c: Cell, d: Cell, replicate: Level)
    requires c != d
    requires d == c.(variant := d.variant) || d == c.(param := d.param)
        || exists i :: 0 <= i < |c.refusals| && |d.refusals| == |c.refusals|
            && d == c.(refusals := c.refusals[i := d.refusals[i]])
    ensures SeedOf(session, c, replicate) != SeedOf(session, d, replicate)
  {
    hide Fold;
    var x, y, n := Input(session, c, replicate), Input(session, d, replicate), |c.axisA|;
    if c.variant != d.variant {
      FoldSeparatesOnePlace(0xcbf2_9ce4_8422_2325, x, y, n + 1);
    } else if c.param != d.param {
      FoldSeparatesOnePlace(0xcbf2_9ce4_8422_2325, x, y, n + 2);
    } else {
      var i :| 0 <= i < |c.refusals| && |d.refusals| == |c.refusals|
          && d == c.(refusals := c.refusals[i := d.refusals[i]]);
      FoldSeparatesOnePlace(0xcbf2_9ce4_8422_2325, x, y, n + 3 + i);
    }
  }

  lemma SeedsOfNeighboursDiffer(session: U64, c: Cell, i: nat, level: Level, replicate: Level)
    requires i < |c.axisA| && level != c.axisA[i]
    ensures SeedOf(session, c, replicate) != SeedOf(session, c.(axisA := c.axisA[i := level]), replicate)
  {
    hide Fold;
    FoldSeparatesOnePlace(0xcbf2_9ce4_8422_2325, Input(session, c, replicate),
                          Input(session, c.(axisA := c.axisA[i := level]), replicate), i + 1);
  }
}
