/** `Sprite`: a sprite sheet cut into an `h_frame` by `v_frame` grid of
    equal frames, numbered column by column. */
module SpriteSheet {
  import opened Base
  import opened Arith

  /** Python's `a // b`: the quotient rounded towards minus infinity. */
  function FloorDiv(a: int, b: int): (q: int)
    requires b != 0
    ensures b > 0 ==> q * b <= a < q * b + b
    ensures b < 0 ==> q * b >= a > q * b + b
  {
    if b > 0 then a / b else (-a) / (-b)
  }

  /** A source rectangle `(x, y, width, height)` on the sheet. */
  datatype FrameRect = FrameRect(x: int, y: int, width: int, height: int)

  datatype Sprite = Sprite(rect: Rect, frame: int, frameWidth: int, frameHeight: int,
                           frameData: map<int, FrameRect>)

  /** The keys `0 .. n-1`. */
  function KeysBelow(n: nat): (keys: set<int>)
    ensures forall k :: k in keys <==> 0 <= k < n
    ensures |keys| == n
  {
    if n == 0 then {} else KeysBelow(n - 1) + {n - 1}
  }

  /** The frame numbered `k` in a grid with `vFrame` rows: column `k / vFrame`,
      row `k % vFrame`. */
  function FrameOf(k: int, vFrame: int, frameWidth: int, frameHeight: int): FrameRect
    requires vFrame > 0
  {
    FrameRect((k / vFrame) * frameWidth, (k % vFrame) * frameHeight, frameWidth, frameHeight)
  }

  /** Number of frames the constructor creates: `range` of a non-positive
      count is empty. */
  function FrameCount(hFrame: int, vFrame: int): nat
  {
    if hFrame > 0 && vFrame > 0 then hFrame * vFrame else 0
  }

  /** The frame table is exactly the grid: keys `0 .. count-1`, each frame
      at its column and row. */
  ghost predicate IsGrid(data: map<int, FrameRect>, count: nat, vFrame: int, frameWidth: int, frameHeight: int)
    requires vFrame > 0
  {
    && data.Keys == KeysBelow(count)
    && forall k :: k in data ==> data[k] == FrameOf(k, vFrame, frameWidth, frameHeight)
  }

  /** Storing the frame at column `col`, row `row` under the next free key
      `len(frame_data)` extends the grid by one. */
  lemma GridGrows(data: map<int, FrameRect>, key: nat, col: nat, row: nat,
                  vFrame: int, frameWidth: int, frameHeight: int)
    requires 0 <= row < vFrame && key == col * vFrame + row
    requires IsGrid(data, key, vFrame, frameWidth, frameHeight)
    ensures |data| == key
    ensures IsGrid(data[key := FrameRect(col * frameWidth, row * frameHeight, frameWidth, frameHeight)],
                   key + 1, vFrame, frameWidth, frameHeight)
  {
    assert |data| == |data.Keys|;
    DivModUnique(key, vFrame, col, row);
    var data' := data[key := FrameRect(col * frameWidth, row * frameHeight, frameWidth, frameHeight)];
    assert data'.Keys == KeysBelow(key + 1);
  }

  /** The inner loop of the constructor: the frames of column `col`, top to
      bottom; `first` is the number of frames already stored. */
  method AddColumn(data: map<int, FrameRect>, first: nat, col: nat, vFrame: int, frameWidth: int, frameHeight: int)
    returns (data': map<int, FrameRect>)
    requires vFrame > 0 && first == col * vFrame
    requires IsGrid(data, first, vFrame, frameWidth, frameHeight)
    ensures IsGrid(data', first + vFrame, vFrame, frameWidth, frameHeight)
  {
    data' := data;
    var row := 0;
    while row < vFrame
      invariant 0 <= row <= vFrame
      invariant IsGrid(data', first + row, vFrame, frameWidth, frameHeight)
    {
      var x := col * frameWidth;
      var y := row * frameHeight;
      GridGrows(data', first + row, col, row, vFrame, frameWidth, frameHeight);
      data' := data'[|data'| := FrameRect(x, y, frameWidth, frameHeight)];
      row := row + 1;
    }
  }

  /** The two nested loops of the constructor: columns left to right, and
      within a column rows top to bottom, each frame stored under the number
      of frames stored before it. */
  method BuildFrameData(hFrame: int, vFrame: int, frameWidth: int, frameHeight: int)
    returns (data: map<int, FrameRect>)
    ensures |data| == FrameCount(hFrame, vFrame)
    ensures vFrame > 0 ==> IsGrid(data, FrameCount(hFrame, vFrame), vFrame, frameWidth, frameHeight)
    ensures FrameCount(hFrame, vFrame) == 0 ==> data == map[]
  {
    data := map[];
    if hFrame <= 0 || vFrame <= 0 {
      // one of the two `range`s is empty: nothing is stored
      return;
    }
    var col := 0;
    var stored: nat := 0;
    while col < hFrame
      invariant 0 <= col <= hFrame
      invariant stored == col * vFrame
      invariant IsGrid(data, stored, vFrame, frameWidth, frameHeight)
    {
      data := AddColumn(data, stored, col, vFrame, frameWidth, frameHeight);
      MulSucc(col, vFrame);
      stored := stored + vFrame;
      col := col + 1;
    }
    assert col == hFrame;
    assert stored == FrameCount(hFrame, vFrame);
    assert |data| == |data.Keys| == stored;
  }

  /** `Sprite.__init__` on a `width` by `height` sheet. A zero frame count
      makes the source divide by zero, so it is excluded. */
  method NewSprite(width: nat, height: nat, hFrame: int, vFrame: int) returns (s: Sprite)
    requires hFrame != 0 && vFrame != 0
    ensures s.rect == Rect(0, 0, width, height) && s.frame == 0
    ensures s.frameWidth == FloorDiv(width, hFrame) && s.frameHeight == FloorDiv(height, vFrame)
    ensures |s.frameData| == FrameCount(hFrame, vFrame)
    ensures vFrame > 0 ==> IsGrid(s.frameData, FrameCount(hFrame, vFrame), vFrame, s.frameWidth, s.frameHeight)
    ensures FrameCount(hFrame, vFrame) == 0 ==> s.frameData == map[]
  {
    var frameWidth := FloorDiv(width, hFrame);
    var frameHeight := FloorDiv(height, vFrame);
    var data := BuildFrameData(hFrame, vFrame, frameWidth, frameHeight);
    s := Sprite(Rect(0, 0, width, height), 0, frameWidth, frameHeight, data);
  }

  /** Cell `i` of `count` equal cells of size `size // count` lies inside
      `size`. */
  lemma CellInside(size: nat, count: int, i: int)
    requires 0 <= i < count
    ensures var cell := FloorDiv(size, count);
            0 <= i * cell && i * cell + cell <= size
  {
    var cell := FloorDiv(size, count);
    assert cell * count <= size;
    assert cell >= 0;
    MulMonotone(0, i, cell);
    MulMonotone(i + 1, count, cell);
    MulSucc(i, cell);
  }

  /** Every frame of a positive grid lies inside the sheet. */
  lemma FramesInsideSheet(width: nat, height: nat, hFrame: int, vFrame: int, k: int)
    requires hFrame > 0 && vFrame > 0
    requires 0 <= k < hFrame * vFrame
    ensures var f := FrameOf(k, vFrame, FloorDiv(width, hFrame), FloorDiv(height, vFrame));
            && 0 <= f.x && f.x + f.width <= width
            && 0 <= f.y && f.y + f.height <= height
  {
    var col := k / vFrame;
    var row := k % vFrame;
    assert k == col * vFrame + row;
    if col >= hFrame {
      MulMonotone(hFrame, col, vFrame);
      assert false;
    }
    CellInside(width, hFrame, col);
    CellInside(height, vFrame, row);
  }
}
