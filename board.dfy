/** The 36-flip board: its state held in place in three parallel arrays, the
    step chain of one flip as a loop, the staggered switch of the whole
    board to a new identifier, and the read-back of what the overlays show. */
module FlipBoard {
  import opened Alphabet
  import opened Flip

  /** The flips of three parallel columns, position by position. */
  function Zip(vs: seq<string>, ts: seq<int>, os: seq<string>): seq<Cell>
    requires |vs| == |ts| == |os|
  {
    seq(|vs|, k requires 0 <= k < |vs| => Cell(vs[k], ts[k], os[k]))
  }

  /** Updating one position of each column updates that flip alone. */
  lemma ZipUpdate(vs: seq<string>, ts: seq<int>, os: seq<string>, k: nat, v: string, t: int, o: string)
    requires |vs| == |ts| == |os| && k < |vs|
    ensures Zip(vs[k := v], ts[k := t], os[k := o]) == Zip(vs, ts, os)[k := Cell(v, t, o)]
  {
  }

  /** The overlay texts of a row of flips. */
  function Overlays(cs: seq<Cell>): seq<string> {
    seq(|cs|, k requires 0 <= k < |cs| => cs[k].overlay)
  }

  /** Every flip of a row is in one of its possible states. */
  predicate AllInv(cs: seq<Cell>) {
    forall k :: 0 <= k < |cs| ==> CellInv(cs[k])
  }

  /** The board as the build loop leaves it. */
  function InitialCells(): seq<Cell> {
    seq(FlipCount, _ => Initial)
  }

  /** `n` filler symbols. */
  function Dashes(n: nat): string {
    seq(n, _ => Dash)
  }

  /** The target of flip `i`: `guidStr[i] || "-"`, the character at that
      position, or the filler past the end of the string. */
  function TargetAt(guid: string, i: nat): char {
    if i < |guid| then guid[i] else Dash
  }

  /** The 36 targets of a switch: the string cut to 36 characters or padded
      with the filler up to 36. */
  function Normalize(guid: string): (r: string)
    ensures |r| == FlipCount
    ensures forall i :: 0 <= i < FlipCount ==> r[i] == TargetAt(guid, i)
    ensures |guid| >= FlipCount ==> r == guid[..FlipCount]
  {
    if |guid| >= FlipCount then guid[..FlipCount] else guid + Dashes(FlipCount - |guid|)
  }

  /** The board after every flip's chain toward its target has run to the end. */
  function SwitchAll(cs: seq<Cell>, targets: string): seq<Cell>
    requires |cs| == |targets| && AllInv(cs)
  {
    seq(|cs|, k requires 0 <= k < |cs| => Settle(cs[k], targets[k]))
  }

  /** The number of advances each flip's chain performs. */
  function StepCounts(cs: seq<Cell>, targets: string): seq<nat>
    requires |cs| == |targets| && AllInv(cs)
  {
    seq(|cs|, k requires 0 <= k < |cs| => StepCount(cs[k].value, targets[k]))
  }

  /** What the copy handler shows for one overlay: its text, or the filler
      when the text is empty. */
  function Shown(o: string): string {
    if o == "" then [Dash] else o
  }

  /** The copy handler's `finalStr`: the shown overlays concatenated in board
      order. */
  function ReadBackOf(os: seq<string>): string {
    if os == [] then "" else ReadBackOf(os[..|os| - 1]) + Shown(os[|os| - 1])
  }

  /** When each overlay holds at most one character, the read-back has one
      character per flip: that flip's overlay, or the filler for an empty one. */
  lemma {:induction false} ReadBackAt(os: seq<string>)
    requires forall k :: 0 <= k < |os| ==> |os[k]| <= 1
    ensures |ReadBackOf(os)| == |os|
    ensures forall k :: 0 <= k < |os| ==> ReadBackOf(os)[k] == Shown(os[k])[0]
  {
    if os != [] {
      var init := os[..|os| - 1];
      ReadBackAt(init);
      assert forall k :: 0 <= k < |init| ==> ReadBackOf(os)[k] == ReadBackOf(init)[k];
    }
  }

  /** The initial board reads back as 36 fillers. */
  lemma InitialReadBack()
    ensures AllInv(InitialCells())
    ensures ReadBackOf(Overlays(InitialCells())) == Dashes(FlipCount)
  {
    var os := Overlays(InitialCells());
    ReadBackAt(os);
  }

  /** After a switch runs to the end, each flip whose target is a symbol shows
      it, and each flip whose target is not a symbol is unchanged. */
  lemma SwitchAllShows(cs: seq<Cell>, targets: string)
    requires |cs| == |targets| && AllInv(cs)
    ensures AllInv(SwitchAll(cs, targets))
    ensures forall k :: 0 <= k < |cs| && InAlphabet(targets[k]) ==>
              SwitchAll(cs, targets)[k].value == [targets[k]] &&
              SwitchAll(cs, targets)[k].overlay == [targets[k]]
    ensures forall k :: 0 <= k < |cs| && !InAlphabet(targets[k]) ==>
              SwitchAll(cs, targets)[k] == cs[k]
  {
    forall k | 0 <= k < |cs|
      ensures CellInv(SwitchAll(cs, targets)[k])
      ensures InAlphabet(targets[k]) ==>
                SwitchAll(cs, targets)[k].value == [targets[k]] &&
                SwitchAll(cs, targets)[k].overlay == [targets[k]]
      ensures !InAlphabet(targets[k]) ==> SwitchAll(cs, targets)[k] == cs[k]
    {
      SettleShowsTarget(cs[k], targets[k]);
    }
  }

  /** Read back after a switch has run to the end: the normalised target at
      every position whose target is a symbol, the previous reading elsewhere. */
  lemma SwitchReadBack(cs: seq<Cell>, guid: string)
    requires |cs| == FlipCount && AllInv(cs)
    ensures |ReadBackOf(Overlays(cs))| == FlipCount
    ensures |ReadBackOf(Overlays(SwitchAll(cs, Normalize(guid))))| == FlipCount
    ensures forall k :: 0 <= k < FlipCount ==>
              ReadBackOf(Overlays(SwitchAll(cs, Normalize(guid))))[k] ==
              if InAlphabet(TargetAt(guid, k)) then TargetAt(guid, k)
              else ReadBackOf(Overlays(cs))[k]
  {
    var ts := Normalize(guid);
    var after := SwitchAll(cs, ts);
    SwitchAllShows(cs, ts);
    ReadBackAt(Overlays(cs));
    ReadBackAt(Overlays(after));
  }

  /** A second switch to the same string, once the first has run to the end,
      performs no step and leaves the board as it is. */
  lemma SwitchIdempotent(cs: seq<Cell>, targets: string)
    requires |cs| == |targets| && AllInv(cs)
    ensures AllInv(SwitchAll(cs, targets))
    ensures forall k :: 0 <= k < |cs| ==> StepCounts(SwitchAll(cs, targets), targets)[k] == 0
    ensures SwitchAll(SwitchAll(cs, targets), targets) == SwitchAll(cs, targets)
  {
    SwitchAllShows(cs, targets);
    forall k | 0 <= k < |cs|
      ensures StepCount(SwitchAll(cs, targets)[k].value, targets[k]) == 0
      ensures Settle(SwitchAll(cs, targets)[k], targets[k]) == SwitchAll(cs, targets)[k]
    {
      SettleIdempotent(cs[k], targets[k]);
    }
  }

  /** A row whose every flip has only been advanced from its built state (flip
      `k` by `a[k]` advances) stays so through a switch, flip `k` gaining the
      advances of its chain; with `Flip.FromInitial` this gives every list
      offset after any sequence of completed switches. */
  lemma SwitchAllFromInitial(cs: seq<Cell>, targets: string, a: seq<nat>)
    requires |cs| == |targets| == |a|
    requires forall k :: 0 <= k < |cs| ==> cs[k] == Iterate(Initial, a[k])
    ensures AllInv(cs)
    ensures forall k :: 0 <= k < |cs| ==>
              SwitchAll(cs, targets)[k] == Iterate(Initial, a[k] + StepCounts(cs, targets)[k])
  {
    forall k | 0 <= k < |cs|
      ensures CellInv(cs[k])
    {
      IterateInv(Initial, a[k]);
    }
    forall k | 0 <= k < |cs|
      ensures SwitchAll(cs, targets)[k] == Iterate(Initial, a[k] + StepCounts(cs, targets)[k])
    {
      SettleFromInitial(a[k], targets[k]);
    }
  }

  /** The zero identifier the page starts with and the reset button sends. */
  const ZeroGuid: string := "00000000-0000-0000-0000-000000000000"

  /** From the freshly built board, switching to the zero identifier takes one
      step on each `0` flip and seventeen on each dash flip (a full turn from
      the empty value round to the dash). */
  lemma ZeroGuidFromInitial(k: nat)
    requires k < FlipCount
    ensures AllInv(InitialCells())
    ensures StepCounts(InitialCells(), Normalize(ZeroGuid))[k] ==
              if ZeroGuid[k] == Dash then Size else 1
  {
    ZeroGuidAt(k);
  }

  /** The zero identifier holds dashes at positions 8, 13, 18 and 23 and `0`
      everywhere else. */
  lemma ZeroGuidAt(k: nat)
    requires k < FlipCount
    ensures |ZeroGuid| == FlipCount
    ensures ZeroGuid[k] == if k == 8 || k == 13 || k == 18 || k == 23 then Dash else '0'
  {
  }

  /** From a board settled on the zero identifier, switching to the same
      identifier with a last `1` steps only the last flip, once. */
  lemma LastDigitFromZero(k: nat)
    requires k < FlipCount
    ensures AllInv(InitialCells())
    ensures AllInv(SwitchAll(InitialCells(), Normalize(ZeroGuid)))
    ensures StepCounts(SwitchAll(InitialCells(), Normalize(ZeroGuid)),
                       Normalize(ZeroGuid[..FlipCount - 1] + "1"))[k] ==
            if k == FlipCount - 1 then 1 else 0
  {
    var z := Normalize(ZeroGuid);
    var z1 := Normalize(ZeroGuid[..FlipCount - 1] + "1");
    ZeroGuidAt(k);
    SwitchAllShows(InitialCells(), z);
    var settled := SwitchAll(InitialCells(), z);
    assert InAlphabet(z[k]);
    if k == FlipCount - 1 {
      assert settled[k].value == "0";
      assert z1[k] == '1';
      IndexOfSymbolAt(0);
    } else {
      assert z1[k] == z[k];
    }
  }

  /** The stagger between the starts of neighbouring flips (`i * 50`). */
  const StaggerDelay: nat := 50

  /** The interval between two advances of one flip (`setTimeout(step, 80)`). */
  const StepInterval: nat := 80

  /** When flip `i`'s chain starts after the switch is called. */
  function StartDelay(i: nat): nat {
    i * StaggerDelay
  }

  /** The logical times of a chain of `n` advances starting at `start`: the
      first advance runs at once, each later one an interval after the
      previous one. */
  function StepTimes(start: nat, n: nat): (ts: seq<nat>)
    ensures |ts| == n
    ensures forall j :: 0 <= j < n ==> ts[j] == start + StepInterval * j
    decreases n
  {
    if n == 0 then [] else [start] + StepTimes(start + StepInterval, n - 1)
  }

  /** When a chain of `n > 0` advances of flip `i` takes its last advance. */
  function SettleTime(i: nat, n: nat): nat
    requires n > 0
  {
    StepTimes(StartDelay(i), n)[n - 1]
  }

  /** Across one switch, flip `i` settles `(n - 1)` intervals after its start,
      where `n` is the count the switch reports for it; a flip further along
      the board starts later, and settles later unless its chain is shorter. */
  lemma ScheduleOrder(cs: seq<Cell>, targets: string, i: nat, j: nat)
    requires |cs| == |targets| && AllInv(cs) && i < j < |cs|
    requires StepCounts(cs, targets)[i] > 0 && StepCounts(cs, targets)[j] > 0
    ensures StartDelay(i) < StartDelay(j)
    ensures SettleTime(i, StepCounts(cs, targets)[i]) ==
              StartDelay(i) + StepInterval * (StepCounts(cs, targets)[i] - 1)
    ensures StepCounts(cs, targets)[i] <= StepCounts(cs, targets)[j] ==>
              SettleTime(i, StepCounts(cs, targets)[i]) < SettleTime(j, StepCounts(cs, targets)[j])
  {
  }

  /** The board: per flip, `dataset.value`, `dataset.top` and the overlay text. */
  class Board {
    var value: array<string>
    var top: array<int>
    var overlay: array<string>

    /** The three columns have one entry per flip and are distinct arrays. */
    ghost predicate WellFormed()
      reads this
    {
      value.Length == FlipCount && top.Length == FlipCount && overlay.Length == FlipCount &&
      value != overlay
    }

    /** The board, flip by flip. */
    ghost function Cells(): seq<Cell>
      reads this, value, top, overlay
      requires WellFormed()
    {
      Zip(value[..], top[..], overlay[..])
    }

    /** Every flip is in one of its possible states. */
    ghost predicate Valid()
      reads this, value, top, overlay
    {
      WellFormed() && AllInv(Cells())
    }

    /** The build loop: 36 flips with no value, the list at the top and the
        overlay showing the filler. */
    constructor ()
      ensures Valid() && Cells() == InitialCells()
      ensures fresh(value) && fresh(top) && fresh(overlay)
    {
      var vs := new string[FlipCount];
      var ts := new int[FlipCount];
      var os := new string[FlipCount];
      for i := 0 to FlipCount
        invariant forall j :: 0 <= j < i ==> vs[j] == "" && ts[j] == 0 && os[j] == [Dash]
      {
        vs[i] := "";
        ts[i] := 0;
        os[i] := [Dash];
      }
      value, top, overlay := vs, ts, os;
      new;
      assert Cells() == InitialCells();
    }

    /** `moveFlipDown`: the list of flip `k` moves down one row. */
    method MoveFlipDown(k: nat)
      requires WellFormed() && k < FlipCount
      modifies top
      ensures top[..] == old(top[..])[k := old(top[k]) - RowHeight]
    {
      top[k] := top[k] - RowHeight;
    }

    /** `resetFlip`: the list of flip `k` goes back to the top. */
    method ResetFlip(k: nat)
      requires WellFormed() && k < FlipCount
      modifies top
      ensures top[..] == old(top[..])[k := 0]
    {
      top[k] := 0;
    }

    /** One advance of `step` on flip `k`; no other flip changes. */
    method Step(k: nat)
      requires WellFormed() && k < FlipCount
      modifies value, top, overlay
      ensures WellFormed()
      ensures Cells() == old(Cells())[k := StepCell(old(Cells())[k])]
    {
      ghost var vs, ts, os := value[..], top[..], overlay[..];
      ghost var c := Cell(value[k], top[k], overlay[k]);
      assert old(Cells())[k] == c;
      var i := IndexOf(value[k]) + 1;
      CharListAt(0);
      if i >= |CharList| {
        i := 0;
        ResetFlip(k);
      } else {
        MoveFlipDown(k);
      }
      CharListAt(i);
      var nextC := [CharList[i]];
      assert nextC == SymbolAt(i);
      value[k] := nextC;
      overlay[k] := nextC;
      assert value[..] == vs[k := nextC];
      assert overlay[..] == os[k := nextC];
      assert StepCell(c) == Cell(nextC, top[k], nextC);
      ZipUpdate(vs, ts, os, k, nextC, top[k], nextC);
    }

    /** `switchChar`: spin flip `k` forward until it shows `t`. Nothing
        happens when it already shows `t` or `t` is not a symbol; otherwise
        the chain advances once per step and stops on `t`. Only flip `k`
        changes, and it ends as `Settle` describes, after `StepCount` steps. */
    method SwitchChar(k: nat, t: char) returns (steps: nat)
      requires Valid() && k < FlipCount
      modifies value, top, overlay
      ensures Valid()
      ensures steps == StepCount(old(Cells())[k].value, t)
      ensures Cells() == old(Cells())[k := Settle(old(Cells())[k], t)]
    {
      steps := 0;
      var currentVal := value[k];
      if currentVal == [t] {
        return;
      }
      var targetIdx := IndexOf([t]);
      if targetIdx < 0 {
        return;
      }
      ghost var before := Cells();
      ghost var c0 := before[k];
      assert c0 == Cell(value[k], top[k], overlay[k]);
      while value[k] != [t]
        invariant WellFormed()
        invariant steps <= Distance(c0.value, t)
        invariant Cells() == before[k := Iterate(c0, steps)]
        invariant Valid()
        decreases Distance(c0.value, t) - steps
      {
        assert Cells()[k] == Cell(value[k], top[k], overlay[k]);
        ChainAdvances(c0, t, steps);
        Step(k);
        steps := steps + 1;
      }
      assert Cells()[k] == Cell(value[k], top[k], overlay[k]);
      ChainStops(c0, t, steps);
    }

    /** `switchToGuid`: flip `i` is sent to `guidStr[i] || "-"`. The chains of
        different flips touch different flips, so running each to the end in
        board order reaches the state the staggered timers reach. Answers the
        number of advances of each flip. */
    method SwitchToGuid(guid: string) returns (steps: seq<nat>)
      requires Valid()
      modifies value, top, overlay
      ensures Valid()
      ensures Cells() == SwitchAll(old(Cells()), Normalize(guid))
      ensures steps == StepCounts(old(Cells()), Normalize(guid))
    {
      ghost var before := Cells();
      ghost var targets := Normalize(guid);
      steps := [];
      for i := 0 to FlipCount
        invariant Valid()
        invariant |steps| == i
        invariant forall j :: 0 <= j < i ==>
                    Cells()[j] == Settle(before[j], targets[j]) &&
                    steps[j] == StepCount(before[j].value, targets[j])
        invariant forall j :: i <= j < FlipCount ==> Cells()[j] == before[j]
      {
        var c := TargetAt(guid, i);
        var n := SwitchChar(i, c);
        steps := steps + [n];
      }
    }

    /** The copy handler's read-back: each flip's overlay text (the filler for
        an empty one) in board order. On a valid board it has one character
        per flip, whatever the chains are doing, since every advance updates
        the overlay. */
    method ReadBack() returns (finalStr: string)
      requires WellFormed()
      ensures finalStr == ReadBackOf(overlay[..])
      ensures Valid() ==>
                |finalStr| == FlipCount &&
                forall k :: 0 <= k < FlipCount ==> finalStr[k] == Shown(overlay[k])[0]
    {
      finalStr := "";
      for i := 0 to FlipCount
        invariant finalStr == ReadBackOf(overlay[..i])
      {
        assert overlay[..i + 1][..i] == overlay[..i];
        finalStr := finalStr + Shown(overlay[i]);
      }
      assert overlay[..FlipCount] == overlay[..];
      if Valid() {
        forall k | 0 <= k < FlipCount
          ensures |overlay[..][k]| <= 1
        {
          assert Cells()[k] == Cell(value[k], top[k], overlay[k]);
        }
        ReadBackAt(overlay[..]);
      }
    }
  }
}
