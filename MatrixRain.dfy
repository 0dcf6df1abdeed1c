/**
 * The matrix rain background: one drop counter per 14-pixel column, all starting at row 1;
 * every draw moves each drop down a row, and a drop below the bottom edge restarts from
 * the top when a random draw says so. The glyphs, colours and brightness are drawing; the
 * random restart decision is a parameter, one flag per column.
 */
module MatrixRain {

  /** The font size in pixels, which is also the column width and the row height. */
  const FontSize: nat := 14

  /** Number of columns for a canvas `width` pixels wide: `Math.floor(width / fontSize)`. */
  function Columns(width: nat): (n: nat)
    ensures n * FontSize <= width < (n + 1) * FontSize
  {
    width / FontSize
  }

  /**
   * One column's update: reset to 0 when the drop is below the canvas (`y > height`) and
   * the random draw fired, then move down one row. A drop either moves down one row or
   * restarts at row 1, and it restarts only from below the bottom edge.
   */
  function DropStep(drop: int, height: int, restart: bool): (d: int)
    ensures d == drop + 1 || d == 1
    ensures d != drop + 1 ==> drop * FontSize > height
    ensures drop >= 1 ==> d >= 1
    ensures !restart ==> d == drop + 1
  {
    (if drop * FontSize > height && restart then 0 else drop) + 1
  }

  /**
   * Every column's update in one draw: the number of columns is kept, and each column on
   * its own moves down one row or restarts at row 1, restarting only from below the bottom edge.
   */
  function Fallen(drops: seq<int>, height: int, restarts: seq<bool>): (r: seq<int>)
    requires |restarts| == |drops|
    ensures |r| == |drops|
    ensures forall i :: 0 <= i < |drops| ==> r[i] == drops[i] + 1 || r[i] == 1
    ensures forall i :: 0 <= i < |drops| ==> r[i] != drops[i] + 1 ==> drops[i] * FontSize > height
    ensures forall i :: 0 <= i < |drops| ==> drops[i] >= 1 ==> r[i] >= 1
  {
    seq(|drops|, i requires 0 <= i < |drops| => DropStep(drops[i], height, restarts[i]))
  }

  class MatrixRain {
    var drops: array<int>

    /** Every drop is at row 1 or below. */
    ghost predicate Valid()
      reads this, drops
    {
      forall i :: 0 <= i < drops.Length ==> drops[i] >= 1
    }

    /** `Array(columns).fill(1)` for a canvas `width` pixels wide. */
    constructor (width: nat)
      ensures Valid() && fresh(drops)
      ensures drops.Length == Columns(width)
      ensures forall i :: 0 <= i < drops.Length ==> drops[i] == 1
    {
      drops := new int[Columns(width)](_ => 1);
    }

    /** One `draw` on a canvas `height` pixels high, in place, column by column. */
    method Draw(height: int, restarts: seq<bool>)
      requires Valid() && |restarts| == drops.Length
      modifies drops
      ensures Valid()
      ensures drops[..] == Fallen(old(drops[..]), height, restarts)
    {
      for i := 0 to drops.Length
        invariant forall j :: 0 <= j < i ==> drops[j] == DropStep(old(drops[j]), height, restarts[j])
        invariant forall j :: i <= j < drops.Length ==> drops[j] == old(drops[j])
      {
        var y := drops[i] * FontSize;
        if y > height && restarts[i] {
          drops[i] := 0;
        }
        drops[i] := drops[i] + 1;
      }
    }
  }
}
