/** The Python stand-in for the LED controller: a 10 x 10 grid of LEDs that
    can be switched on and off by index, and the list of lit grid points
    handed to the plot. */
module FakeLeds {

  const GRID_SIZE := 100

  /** One LED of the grid: its column, its row, and whether it is lit. */
  datatype FakeLed = FakeLed(x: int, y: int, isOn: bool)

  /** The LED with grid index `index`: row-major on a 10-wide grid, lit. */
  function NewFakeLed(index: nat): (led: FakeLed)
    ensures 0 <= led.x < 10 && led.y * 10 + led.x == index && led.isOn
  {
    FakeLed(index % 10, index / 10, true)
  }

  /** The grid a new controller starts with: LED `i` built from index `i`. */
  function InitialLeds(): (leds: seq<FakeLed>)
    ensures |leds| == GRID_SIZE
    ensures forall i :: 0 <= i < GRID_SIZE ==> leds[i] == NewFakeLed(i)
  {
    seq(GRID_SIZE, i requires 0 <= i < GRID_SIZE => NewFakeLed(i))
  }

  /** The list position a Python index `k` refers to in a list of 100 items:
      negative indices count from the end. */
  function Slot(k: int): (i: nat)
    requires -GRID_SIZE <= k < GRID_SIZE
    ensures i < GRID_SIZE && (i == k || i == k + GRID_SIZE)
  {
    if k < 0 then k + GRID_SIZE else k
  }

  /** All keys of the update items are valid Python indices into the grid. */
  predicate ValidUpdate(data: seq<(int, bool)>)
  {
    forall j :: 0 <= j < |data| ==> -GRID_SIZE <= data[j].0 < GRID_SIZE
  }

  /** The grid after applying the update items in order. */
  function Updated(leds: seq<FakeLed>, data: seq<(int, bool)>): (r: seq<FakeLed>)
    requires |leds| == GRID_SIZE && ValidUpdate(data)
    ensures |r| == GRID_SIZE
  {
    if |data| == 0 then leds
    else
      var prev := Updated(leds, data[..|data| - 1]);
      var (k, on) := data[|data| - 1];
      prev[Slot(k) := prev[Slot(k)].(isOn := on)]
  }

  datatype Option<T> = Nothing | Some(value: T)

  /** The value of the last update item that targets list position `i`, if any. */
  function LastWrite(data: seq<(int, bool)>, i: nat): Option<bool>
    requires ValidUpdate(data)
  {
    if |data| == 0 then Nothing
    else if Slot(data[|data| - 1].0) == i then Some(data[|data| - 1].1)
    else LastWrite(data[..|data| - 1], i)
  }

  /** Each LED ends up with the last value written to it and is otherwise
      unchanged; no LED moves. */
  lemma {:induction false} UpdatedLastWriteWins(leds: seq<FakeLed>, data: seq<(int, bool)>, i: nat)
    requires |leds| == GRID_SIZE && ValidUpdate(data) && i < GRID_SIZE
    ensures Updated(leds, data)[i] == match LastWrite(data, i)
      case Nothing => leds[i]
      case Some(on) => leds[i].(isOn := on)
  {
    if |data| > 0 {
      var front := data[..|data| - 1];
      assert ValidUpdate(front);
      UpdatedLastWriteWins(leds, front, i);
    }
  }

  class FakeLedControl {
    var leds: seq<FakeLed>

    /** A controller whose 100 LEDs are all lit. Starting the plot process
        and the first redraw are outside the model. */
    constructor ()
      ensures leds == InitialLeds()
    {
      leds := InitialLeds();
    }

    /** Switches the listed LEDs on or off, item by item. */
    method Update(data: seq<(int, bool)>)
      requires |leds| == GRID_SIZE && ValidUpdate(data)
      modifies this
      ensures leds == Updated(old(leds), data)
    {
      for j := 0 to |data|
        invariant |leds| == GRID_SIZE
        invariant leds == Updated(old(leds), data[..j])
      {
        assert data[..j + 1][..j] == data[..j];
        var (index, on) := data[j];
        var i := Slot(index);
        leds := leds[i := leds[i].(isOn := on)];
      }
      assert data[..|data|] == data;
    }

    /** The points handed to the plot: `[x, y]` of every lit LED, in list
        order. Sending them to the plot process is outside the model. */
    method Redraw() returns (activePoints: seq<(int, int)>)
      ensures activePoints == ActivePoints(leds)
    {
      activePoints := [];
      for i := 0 to |leds|
        invariant activePoints == ActivePoints(leds[..i])
      {
        assert leds[..i + 1][..i] == leds[..i];
        if leds[i].isOn {
          activePoints := activePoints + [(leds[i].x, leds[i].y)];
        }
      }
      assert leds[..|leds|] == leds;
    }
  }

  /** `[x, y]` of every lit LED, in list order. */
  function ActivePoints(leds: seq<FakeLed>): (points: seq<(int, int)>)
    ensures |points| <= |leds|
  {
    if |leds| == 0 then []
    else
      var last := leds[|leds| - 1];
      ActivePoints(leds[..|leds| - 1]) + (if last.isOn then [(last.x, last.y)] else [])
  }

  /** A point is active exactly when some lit LED sits there. */
  lemma {:induction false} ActivePointsExactlyLit(leds: seq<FakeLed>, p: (int, int))
    ensures p in ActivePoints(leds) <==> exists i :: 0 <= i < |leds| && leds[i].isOn && (leds[i].x, leds[i].y) == p
  {
    if |leds| > 0 {
      var front := leds[..|leds| - 1];
      ActivePointsExactlyLit(front, p);
      if exists i :: 0 <= i < |front| && front[i].isOn && (front[i].x, front[i].y) == p {
        var i :| 0 <= i < |front| && front[i].isOn && (front[i].x, front[i].y) == p;
        assert leds[i] == front[i];
      }
      if exists i :: 0 <= i < |leds| && leds[i].isOn && (leds[i].x, leds[i].y) == p {
        var i :| 0 <= i < |leds| && leds[i].isOn && (leds[i].x, leds[i].y) == p;
        if i < |front| {
          assert front[i] == leds[i];
        }
      }
    }
  }

  /** When every LED is lit, the active points are all positions, in order. */
  lemma {:induction false} AllLitGivesAllPoints(leds: seq<FakeLed>)
    requires forall i :: 0 <= i < |leds| ==> leds[i].isOn
    ensures |ActivePoints(leds)| == |leds|
    ensures forall i :: 0 <= i < |leds| ==> ActivePoints(leds)[i] == (leds[i].x, leds[i].y)
  {
    if |leds| > 0 {
      AllLitGivesAllPoints(leds[..|leds| - 1]);
    }
  }

  /** Right after construction the plot shows all 100 grid points, row by row. */
  lemma InitialActivePoints()
    ensures |ActivePoints(InitialLeds())| == GRID_SIZE
    ensures forall i :: 0 <= i < GRID_SIZE ==> ActivePoints(InitialLeds())[i] == (i % 10, i / 10)
  {
    AllLitGivesAllPoints(InitialLeds());
  }
}
