/** One flip of the split-flap board as a value, and the step machine that
    spins it: the specification that the in-place board methods are proved
    against. */
module Flip {
  import opened Alphabet

  /** The state of one flip: its `dataset.value` (empty or a symbol), its
      `dataset.top` (the pixel offset of the spinning list) and the text of
      its overlay. */
  datatype Cell = Cell(value: string, top: int, overlay: string)

  /** Height in pixels of one row of the spinning list. */
  const RowHeight: int := 35

  /** A freshly built flip: no value, list at the top, overlay showing the dash. */
  const Initial: Cell := Cell("", 0, [Dash])

  /** The states a flip can be in. Before its first step it is the initial
      flip; afterwards the overlay shows the value, and the list sits either
      one row per symbol below the top (after a wrap) or one row further
      (no wrap yet: the first step from the empty value already moves it). */
  predicate CellInv(c: Cell) {
    if c.value == "" then c.top == 0 && c.overlay == [Dash]
    else
      IsSymbol(c.value) && c.overlay == c.value &&
      (c.top == -RowHeight * IndexOf(c.value) || c.top == -RowHeight * (IndexOf(c.value) + 1))
  }

  /** One advance of `step`: the value moves to the next symbol, wrapping
      after the dash; on a wrap the list is reset to the top, otherwise it
      moves down one row; the overlay shows the new value. */
  function StepCell(c: Cell): Cell {
    var i := IndexOf(c.value) + 1;
    if i >= Size then Cell(SymbolAt(0), 0, SymbolAt(0))
    else Cell(SymbolAt(i), c.top - RowHeight, SymbolAt(i))
  }

  /** The flip after `n` advances. */
  function Iterate(c: Cell, n: nat): Cell {
    if n == 0 then c else StepCell(Iterate(c, n - 1))
  }

  /** The forward distance from alphabet position `from` to position `to`,
      where position -1 (the empty value) sits just before `0`. */
  function Forward(from: int, to: int): (d: nat)
    requires -1 <= from < Size && 0 <= to < Size
    ensures from == -1 ==> 1 <= d <= Size
    ensures from != -1 ==> d < Size
  {
    if from == -1 then to + 1 else (to - from) % Size
  }

  /** The number of advances from value `v` to target `t`. */
  function Distance(v: string, t: char): nat
    requires IsValue(v) && InAlphabet(t)
  {
    Forward(IndexOf(v), IndexOf([t]))
  }

  /** The advances `switchChar` performs: none when the flip already shows the
      target or the target is not a symbol, else the distance. */
  function StepCount(v: string, t: char): nat
    requires IsValue(v)
  {
    if v == [t] then 0
    else if !InAlphabet(t) then 0
    else Distance(v, t)
  }

  /** The flip after `switchChar` has run its chain to the end. */
  function Settle(c: Cell, t: char): Cell
    requires IsValue(c.value)
  {
    Iterate(c, StepCount(c.value, t))
  }

  /** Each advance sets the value to the next alphabet entry (the empty value
      counting as index -1), shows it in the overlay, resets the list to the
      top when it wraps past the dash and otherwise lowers it by one row. */
  lemma StepMoves(c: Cell)
    requires CellInv(c)
    ensures IndexOf(StepCell(c).value) == (IndexOf(c.value) + 1) % Size
    ensures StepCell(c).overlay == StepCell(c).value
    ensures IndexOf(c.value) == Size - 1 ==> StepCell(c).top == 0 && StepCell(c).value == "0"
    ensures IndexOf(c.value) != Size - 1 ==> StepCell(c).top == c.top - RowHeight
    ensures c.value == "" ==> StepCell(c).value == "0"
  {
    var i := IndexOf(c.value) + 1;
    if i >= Size {
      IndexOfSymbolAt(0);
    } else {
      IndexOfSymbolAt(i);
    }
  }

  /** An advance keeps a flip in one of its possible states. */
  lemma StepPreservesInv(c: Cell)
    requires CellInv(c)
    ensures CellInv(StepCell(c))
  {
    StepMoves(c);
    var i := IndexOf(c.value) + 1;
    if i < Size {
      IndexOfSymbolAt(i);
    } else {
      IndexOfSymbolAt(0);
    }
  }

  /** Any number of advances keeps a flip in one of its possible states. */
  lemma {:induction false} IterateInv(c: Cell, n: nat)
    requires CellInv(c)
    ensures CellInv(Iterate(c, n))
  {
    if n > 0 {
      IterateInv(c, n - 1);
      StepPreservesInv(Iterate(c, n - 1));
    }
  }

  /** The forward distance is zero exactly at the target position. */
  lemma ForwardZero(from: int, to: int)
    requires -1 <= from < Size && 0 <= to < Size
    ensures Forward(from, to) == 0 <==> from == to
  {
  }

  /** One position forward, with the wrap after the last symbol, is one
      position closer to any other target position. */
  lemma ForwardStep(from: int, to: int)
    requires -1 <= from < Size && 0 <= to < Size && from != to
    ensures Forward((from + 1) % Size, to) == Forward(from, to) - 1
  {
    var n := Size;
    if from == -1 {
      assert (from + 1) % n == 0;
    } else if from == n - 1 {
      assert (from + 1) % n == 0;
      assert (to - from) % n == to - from + n;
    } else if from < to {
      assert (from + 1) % n == from + 1;
      assert (to - from) % n == to - from;
      assert (to - from - 1) % n == to - from - 1;
    } else {
      assert (from + 1) % n == from + 1;
      assert (to - from) % n == to - from + n;
      assert (to - from - 1) % n == to - from - 1 + n;
    }
  }

  /** The distance is zero exactly when the flip already shows the target. */
  lemma DistanceZero(v: string, t: char)
    requires IsValue(v) && InAlphabet(t)
    ensures Distance(v, t) == 0 <==> v == [t]
  {
    ForwardZero(IndexOf(v), IndexOf([t]));
    if v != "" {
      IndexOfInjective(v, [t]);
    }
  }

  /** Each advance away from the target brings the flip exactly one position
      closer to it. */
  lemma DistanceStep(c: Cell, t: char)
    requires CellInv(c) && InAlphabet(t) && c.value != [t]
    ensures Distance(c.value, t) >= 1
    ensures Distance(StepCell(c).value, t) == Distance(c.value, t) - 1
  {
    DistanceZero(c.value, t);
    StepPreservesInv(c);
    StepMoves(c);
    var i, k := IndexOf(c.value), IndexOf([t]);
    assert i != k by {
      if c.value != "" {
        IndexOfInjective(c.value, [t]);
      }
    }
    ForwardStep(i, k);
  }

  /** Each of the first `Distance` advances brings the flip one position
      closer to the target and keeps it in one of its possible states. */
  lemma {:induction false} DistanceAfter(c: Cell, t: char, j: nat)
    requires CellInv(c) && InAlphabet(t) && j <= Distance(c.value, t)
    ensures CellInv(Iterate(c, j))
    ensures Distance(Iterate(c, j).value, t) == Distance(c.value, t) - j
  {
    if j > 0 {
      DistanceAfter(c, t, j - 1);
      var p := Iterate(c, j - 1);
      DistanceZero(p.value, t);
      DistanceStep(p, t);
      StepPreservesInv(p);
    }
  }

  /** An advance of a chain that has not reached its target stays within the
      distance and keeps the flip in one of its possible states. */
  lemma ChainAdvances(c: Cell, t: char, n: nat)
    requires CellInv(c) && InAlphabet(t) && n <= Distance(c.value, t)
    requires Iterate(c, n).value != [t]
    ensures n + 1 <= Distance(c.value, t)
    ensures CellInv(Iterate(c, n + 1))
  {
    DistanceAfter(c, t, n);
    DistanceZero(Iterate(c, n).value, t);
    StepPreservesInv(Iterate(c, n));
  }

  /** A chain stops, on reaching its target, after exactly the distance. */
  lemma ChainStops(c: Cell, t: char, n: nat)
    requires CellInv(c) && InAlphabet(t) && n <= Distance(c.value, t)
    requires Iterate(c, n).value == [t]
    ensures n == Distance(c.value, t)
  {
    DistanceAfter(c, t, n);
    DistanceZero(Iterate(c, n).value, t);
  }

  /** Stepping lands exactly on the target: after `Distance` advances the flip
      shows it, value and overlay, and at no earlier advance. */
  lemma LandsOnTarget(c: Cell, t: char)
    requires CellInv(c) && InAlphabet(t)
    ensures Iterate(c, Distance(c.value, t)).value == [t]
    ensures Iterate(c, Distance(c.value, t)).overlay == [t]
    ensures forall j :: 0 <= j < Distance(c.value, t) ==> Iterate(c, j).value != [t]
  {
    var d := Distance(c.value, t);
    DistanceAfter(c, t, d);
    DistanceZero(Iterate(c, d).value, t);
    forall j | 0 <= j < d
      ensures Iterate(c, j).value != [t]
    {
      DistanceAfter(c, t, j);
      DistanceZero(Iterate(c, j).value, t);
    }
  }

  /** `switchChar` leaves the flip untouched exactly when it already shows the
      target or the target is not a symbol. */
  lemma StepCountZero(v: string, t: char)
    requires IsValue(v)
    ensures StepCount(v, t) == 0 <==> (v == [t] || !InAlphabet(t))
  {
    if InAlphabet(t) {
      DistanceZero(v, t);
    }
  }

  /** After `switchChar` runs to the end the flip shows the target, in value
      and overlay, when the target is a symbol, and is unchanged otherwise. */
  lemma SettleShowsTarget(c: Cell, t: char)
    requires CellInv(c)
    ensures CellInv(Settle(c, t))
    ensures InAlphabet(t) ==> Settle(c, t).value == [t] && Settle(c, t).overlay == [t]
    ensures !InAlphabet(t) ==> Settle(c, t) == c
  {
    IterateInv(c, StepCount(c.value, t));
    if InAlphabet(t) {
      LandsOnTarget(c, t);
      if c.value == [t] {
        DistanceZero(c.value, t);
      }
    }
  }

  /** A second `switchChar` to the same target performs no step and changes
      nothing. */
  lemma SettleIdempotent(c: Cell, t: char)
    requires CellInv(c)
    ensures StepCount(Settle(c, t).value, t) == 0
    ensures Settle(Settle(c, t), t) == Settle(c, t)
  {
    SettleShowsTarget(c, t);
    StepCountZero(Settle(c, t).value, t);
  }

  /** The position and list offset after one more advance from the initial
      flip, in the arithmetic of positions modulo the alphabet length. */
  lemma WindingStep(n: nat)
    requires n >= 2
    ensures (n - 2) % Size + 1 >= Size ==>
              (n - 1) % Size == 0 && n > Size
    ensures (n - 2) % Size + 1 < Size ==>
              (n - 1) % Size == (n - 2) % Size + 1
    ensures (n - 2) % Size + 1 < Size && n - 1 > Size ==> n > Size
    ensures n <= Size ==> (n - 2) % Size + 1 < Size
    ensures n - 1 <= Size < n ==> (n - 2) % Size + 1 >= Size
  {
  }

  /** The symbol and list offset of a flip advanced `n - 1` times from the
      initial flip: `(n - 2) mod 17`, and `35` pixels per advance since the
      start or since the last wrap. */
  predicate WoundAfter(p: Cell, n: nat)
    requires n >= 1
  {
    p.value == SymbolAt((n - 1) % Size) &&
    p.overlay == p.value &&
    p.top == if n <= Size then -RowHeight * n else -RowHeight * ((n - 1) % Size)
  }

  /** One advance from the flip wound `n - 1` times gives the flip wound `n`
      times. */
  lemma WoundStep(p: Cell, n: nat)
    requires n >= 2 && WoundAfter(p, n - 1)
    ensures WoundAfter(StepCell(p), n)
  {
    var m := (n - 2) % Size;
    IndexOfSymbolAt(m);
    WindingStep(n);
    var q := StepCell(p);
    var k := (n - 1) % Size;
    if m + 1 >= Size {
      assert q == Cell(SymbolAt(0), 0, SymbolAt(0));
      assert k == 0;
    } else {
      assert q == Cell(SymbolAt(m + 1), p.top - RowHeight, SymbolAt(m + 1));
      assert k == m + 1;
      if n - 1 <= Size {
        assert n <= Size;
        assert q.top == -RowHeight * n;
      } else {
        assert q.top == -RowHeight * k;
      }
    }
  }

  /** Advancing `a` times and then `b` times is advancing `a + b` times. */
  lemma {:induction false} IterateAdd(c: Cell, a: nat, b: nat)
    ensures Iterate(Iterate(c, a), b) == Iterate(c, a + b)
  {
    if b > 0 {
      IterateAdd(c, a, b - 1);
    }
  }

  /** A flip that has only ever been advanced from its built state stays so
      through `switchChar`: the advances of successive switches add up. */
  lemma SettleFromInitial(n: nat, t: char)
    ensures CellInv(Iterate(Initial, n))
    ensures Settle(Iterate(Initial, n), t) ==
              Iterate(Initial, n + StepCount(Iterate(Initial, n).value, t))
  {
    IterateInv(Initial, n);
    IterateAdd(Initial, n, StepCount(Iterate(Initial, n).value, t));
  }

  /** The list offset after a `switchChar` on a flip advanced `n` times since
      it was built: 35 pixels per advance since the build or since the last
      wrap, counting the advances of every switch so far. */
  lemma SettledTop(n: nat, t: char)
    ensures CellInv(Iterate(Initial, n))
    ensures var m := n + StepCount(Iterate(Initial, n).value, t);
            m >= 1 ==>
              Settle(Iterate(Initial, n), t).top ==
                if m <= Size then -RowHeight * m else -RowHeight * ((m - 1) % Size)
  {
    SettleFromInitial(n, t);
    var m := n + StepCount(Iterate(Initial, n).value, t);
    if m >= 1 {
      FromInitial(m);
    }
  }

  /** From a freshly built flip, `n` advances show symbol `(n - 1) mod 17` with
      the list `35 * n` pixels down until the first wrap (n <= 17), and `35`
      pixels per advance since the last wrap afterwards. */
  lemma {:induction false} FromInitial(n: nat)
    requires n >= 1
    ensures Iterate(Initial, n).value == SymbolAt((n - 1) % Size)
    ensures Iterate(Initial, n).overlay == SymbolAt((n - 1) % Size)
    ensures Iterate(Initial, n).top ==
              if n <= Size then -RowHeight * n else -RowHeight * ((n - 1) % Size)
  {
    if n == 1 {
      assert Iterate(Initial, 1) == StepCell(Initial);
    } else {
      FromInitial(n - 1);
      WoundStep(Iterate(Initial, n - 1), n);
    }
  }
}
