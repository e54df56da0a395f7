/** The observation the agent sees (src/observation.py).

    An observation is a 128 x 40 x 3 image stacked from top to bottom:
    an 8-row "exploration memory" of three progress bars, 2 rows of
    padding, an 8-row "recent memory", 2 more rows of padding, and the
    three most recent screens of the emulator, each resized to 36 x 40.

    A progress bar (`make_reward_channel`) draws a number into an 8 x 40
    grid: it fills whole columns of 8 pixels (128 units each), then whole
    pixels of the next column from the top (16 units each), then writes
    the remainder, scaled by 15, into the next pixel.  The bar is proved
    to stay inside the grid and to lose nothing: `ReadBar` gives back the
    number that was drawn, once it is clamped to what the grid can hold. */
module Observation {
  import opened VisualUtil
  import opened Wrappers
  import GbEmulator

  /** `frame_stacks`, `output_shape`, `mem_padding`, `memory_height` and `col_steps`. */
  const FrameStacks := 3
  const OutputShape := Shape(36, 40, 3)
  const MemPadding := 2
  const MemoryHeight := 8
  const ColSteps := 16

  /** `output_full`: the shape of an observation. */
  const OutputFull := Shape(OutputShape.height * FrameStacks + 2 * (MemPadding + MemoryHeight), OutputShape.width, OutputShape.channels)

  /** The grid of a progress bar: `h` rows and `w` columns. */
  const BarHeight := MemoryHeight
  const BarWidth := OutputShape.width

  /** `max_r_val`: the largest number a bar can show. */
  const MaxRVal := (BarWidth - 1) * BarHeight * ColSteps

  /** `min(r_val, max_r_val)` */
  function Clamp(rVal: nat): nat {
    if rVal < MaxRVal then rVal else MaxRVal
  }

  /** Where the bar of `r_val` ends: `row` full columns, then `col` full
      pixels of column `row`, then the partial pixel `last`. */
  datatype BarEnd = BarEnd(row: int, col: int, last: int)

  /** The mixed-radix digits `make_reward_channel` computes.  They index
      inside the grid, and they add back up to the clamped value. */
  function BarDigits(rVal: nat): (d: BarEnd)
    ensures 0 <= d.row < BarWidth && 0 <= d.col < BarHeight && 0 <= d.last < ColSteps
    ensures Clamp(rVal) == d.row * (BarHeight * ColSteps) + d.col * ColSteps + d.last
  {
    var r := Clamp(rVal);
    var row := r / (BarHeight * ColSteps);
    var rowCovered := row * BarHeight * ColSteps;
    var col := (r - rowCovered) / ColSteps;
    var colCovered := col * ColSteps;
    BarEnd(row, col, r - rowCovered - colCovered)
  }

  /** The pixel in row `y`, column `x` of the bar `make_reward_channel(r_val)` returns. */
  function ChannelPixel(rVal: nat, y: int, x: int): (p: int)
    ensures 0 <= p <= 255
    ensures p != 255 ==> p % (255 / ColSteps) == 0 && p <= (ColSteps - 1) * (255 / ColSteps)
  {
    var d := BarDigits(rVal);
    if y == d.col && x == d.row then d.last * (255 / ColSteps)
    else if x < d.row || (x == d.row && y < d.col) then 255
    else 0
  }

  /** `make_reward_channel(r_val)`: an 8 x 40 zero grid, the first `row`
      columns set to 255, the first `col` pixels of column `row` set to 255,
      and the pixel below them set to `last_pixel * (255 // col_steps)`. */
  method MakeRewardChannel(rVal: nat) returns (memory: array2<int>)
    ensures fresh(memory) && memory.Length0 == BarHeight && memory.Length1 == BarWidth
    ensures forall y, x :: 0 <= y < BarHeight && 0 <= x < BarWidth ==> memory[y, x] == ChannelPixel(rVal, y, x)
  {
    var w, h := BarWidth, BarHeight;
    var maxRVal := (w - 1) * h * ColSteps;
    var r := if rVal < maxRVal then rVal else maxRVal;
    var row := r / (h * ColSteps);
    memory := new int[h, w]((_, _) => 0);
    for y := 0 to h
      invariant forall y', x' :: 0 <= y' < h && 0 <= x' < w ==> memory[y', x'] == if x' < row && y' < y then 255 else 0
    {
      for x := 0 to row
        invariant forall y', x' :: 0 <= y' < h && 0 <= x' < w ==>
          memory[y', x'] == if x' < row && (y' < y || (y' == y && x' < x)) then 255 else 0
      {
        memory[y, x] := 255;
      }
    }
    var rowCovered := row * h * ColSteps;
    var col := (r - rowCovered) / ColSteps;
    for y := 0 to col
      invariant forall y', x' :: 0 <= y' < h && 0 <= x' < w ==>
        memory[y', x'] == if x' < row || (x' == row && y' < y) then 255 else 0
    {
      memory[y, row] := 255;
    }
    var colCovered := col * ColSteps;
    var lastPixel := r - rowCovered - colCovered;
    memory[col, row] := lastPixel * (255 / ColSteps);
    assert BarDigits(rVal) == BarEnd(row, col, lastPixel);
  }

  /** A bar as a grid of rows. */
  type Grid = seq<seq<int>>

  predicate IsBarGrid(g: Grid) {
    |g| == BarHeight && forall y :: 0 <= y < |g| ==> |g[y]| == BarWidth
  }

  function ChannelGrid(rVal: nat): (g: Grid)
    ensures IsBarGrid(g)
    ensures forall y, x :: 0 <= y < |g| && 0 <= x < |g[y]| ==> 0 <= g[y][x] <= 255
  {
    seq(BarHeight, y => seq(BarWidth, x => ChannelPixel(rVal, y, x)))
  }

  /** Each pixel is worth 16 units when full and `pixel / 15` otherwise. */
  function PixelUnits(p: int): int {
    if p == 255 then ColSteps else p / (255 / ColSteps)
  }

  /** The units of the top `n` pixels of column `x`. */
  function ColumnUnits(g: Grid, x: nat, n: nat): int
    requires IsBarGrid(g) && x < BarWidth && n <= BarHeight
  {
    if n == 0 then 0 else ColumnUnits(g, x, n - 1) + PixelUnits(g[n - 1][x])
  }

  /** The units of the first `n` columns. */
  function ColumnsUnits(g: Grid, n: nat): int
    requires IsBarGrid(g) && n <= BarWidth
  {
    if n == 0 then 0 else ColumnsUnits(g, n - 1) + ColumnUnits(g, n - 1, BarHeight)
  }

  /** Reading a bar back: 16 per full pixel plus the partial pixel over 15. */
  function ReadBar(g: Grid): int
    requires IsBarGrid(g)
  {
    ColumnsUnits(g, BarWidth)
  }

  lemma {:induction false} ColumnUnitsOfChannel(rVal: nat, x: nat, n: nat)
    requires x < BarWidth && n <= BarHeight
    ensures var d := BarDigits(rVal);
      ColumnUnits(ChannelGrid(rVal), x, n) ==
        if x < d.row then ColSteps * n
        else if x > d.row then 0
        else if n <= d.col then ColSteps * n
        else ColSteps * d.col + d.last
  {
    if n > 0 {
      ColumnUnitsOfChannel(rVal, x, n - 1);
      var d := BarDigits(rVal);
      var p := ChannelGrid(rVal)[n - 1][x];
      assert p == ChannelPixel(rVal, n - 1, x);
      if x == d.row && n - 1 == d.col {
        assert p == d.last * 15;
        assert PixelUnits(p) == d.last;
      }
    }
  }

  lemma {:induction false} ColumnsUnitsOfChannel(rVal: nat, n: nat)
    requires n <= BarWidth
    ensures var d := BarDigits(rVal);
      ColumnsUnits(ChannelGrid(rVal), n) ==
        if n <= d.row then BarHeight * ColSteps * n
        else BarHeight * ColSteps * d.row + ColSteps * d.col + d.last
  {
    if n > 0 {
      ColumnsUnitsOfChannel(rVal, n - 1);
      ColumnUnitsOfChannel(rVal, n - 1, BarHeight);
    }
  }

  /** The bar loses nothing: reading it gives back the clamped number. */
  lemma ReadBarRoundTrip(rVal: nat)
    ensures ReadBar(ChannelGrid(rVal)) == Clamp(rVal)
  {
    ColumnsUnitsOfChannel(rVal, BarWidth);
  }

  /** Pixel `y` of column `x` is the bar's cell number `8x + y`: a cell is
      full once the clamped value passes its 16 units, holds 15 per unit
      while the value is inside it, and is empty before. */
  function CellLevel(r: int, cell: int): int {
    if ColSteps * (cell + 1) <= r then 255
    else if ColSteps * cell <= r then (r - ColSteps * cell) * (255 / ColSteps)
    else 0
  }

  lemma ChannelPixelIsCell(rVal: nat, y: int, x: int)
    requires 0 <= y < BarHeight && 0 <= x < BarWidth
    ensures ChannelPixel(rVal, y, x) == CellLevel(Clamp(rVal), BarHeight * x + y)
  {
    var d := BarDigits(rVal);
    var r := Clamp(rVal);
    var q := BarHeight * x + y;
    if x < d.row {
      assert ColSteps * (q + 1) <= BarHeight * ColSteps * d.row;
    } else if x > d.row {
      assert ColSteps * q >= BarHeight * ColSteps * (d.row + 1);
    } else {
      assert ColSteps * q == BarHeight * ColSteps * d.row + ColSteps * y;
    }
  }

  /** A larger number never darkens a pixel. */
  lemma ChannelMonotone(r1: nat, r2: nat, y: int, x: int)
    requires r1 <= r2 && 0 <= y < BarHeight && 0 <= x < BarWidth
    ensures ChannelPixel(r1, y, x) <= ChannelPixel(r2, y, x)
  {
    ChannelPixelIsCell(r1, y, x);
    ChannelPixelIsCell(r2, y, x);
    var q := BarHeight * x + y;
    var c1, c2 := Clamp(r1), Clamp(r2);
    if ColSteps * q <= c1 < ColSteps * (q + 1) && c2 < ColSteps * (q + 1) {
      assert (c1 - ColSteps * q) * 15 <= (c2 - ColSteps * q) * 15;
    }
  }

  /** Zero draws nothing; the largest value fills every column but the last,
      which stays empty. */
  lemma ChannelExtremes(y: int, x: int)
    requires 0 <= y < BarHeight && 0 <= x < BarWidth
    ensures ChannelPixel(0, y, x) == 0
    ensures ChannelPixel(MaxRVal, y, x) == if x < BarWidth - 1 then 255 else 0
  {
    ChannelPixelIsCell(0, y, x);
    ChannelPixelIsCell(MaxRVal, y, x);
  }

  /** The numbers drawn into the three channels: `level, hp, explore = 1, 2, 3`. */
  const LevelValue := 1
  const HpValue := 2
  const ExploreValue := 3

  /** `create_exploration_memory()`: the three bars stacked as channels;
      channel `c` holds the bar of the number `c + 1`. */
  function ExplorationMemory(): (img: Image)
    ensures HasShape(img, Shape(MemoryHeight, OutputShape.width, 3)) && IsUint8(img)
  {
    seq(BarHeight, y => seq(BarWidth, x => seq(3, c requires 0 <= c < 3 => ChannelPixel(c + 1, y, x))))
  }

  /** Channel `c` of an image of bar shape. */
  function ChannelOf(img: Image, c: nat): (g: Grid)
    requires HasShape(img, Shape(BarHeight, BarWidth, 3)) && c < 3
    ensures IsBarGrid(g)
  {
    seq(BarHeight, y requires 0 <= y < BarHeight => seq(BarWidth, x requires 0 <= x < BarWidth => img[y][x][c]))
  }

  lemma ExplorationMemoryChannel(c: nat)
    requires c < 3
    ensures ChannelOf(ExplorationMemory(), c) == ChannelGrid(c + 1)
  {
    var img := ExplorationMemory();
    forall y | 0 <= y < BarHeight
      ensures ChannelOf(img, c)[y] == ChannelGrid(c + 1)[y]
    {
      assert forall x :: 0 <= x < BarWidth ==> ChannelOf(img, c)[y][x] == ChannelGrid(c + 1)[y][x];
    }
  }

  /** Each channel of the exploration memory reads back as the number
      drawn into it: 1 (level), 2 (hp) and 3 (explore). */
  lemma ExplorationMemoryReadsBack(c: nat)
    requires c < 3
    ensures ReadBar(ChannelOf(ExplorationMemory(), c)) == c + 1
  {
    ExplorationMemoryChannel(c);
    ReadBarRoundTrip(c + 1);
  }

  /** `create_exploration_memory` as the source computes it: three bars
      rendered into arrays, then stacked along a new last axis. */
  method CreateExplorationMemory() returns (img: Image)
    ensures img == ExplorationMemory()
  {
    var level := MakeRewardChannel(LevelValue);
    var hp := MakeRewardChannel(HpValue);
    var explore := MakeRewardChannel(ExploreValue);
    img := seq(BarHeight, y requires 0 <= y < BarHeight reads level, hp, explore =>
      seq(BarWidth, x requires 0 <= x < BarWidth reads level, hp, explore => [level[y, x], hp[y, x], explore[y, x]]));
    forall y, x | 0 <= y < BarHeight && 0 <= x < BarWidth
      ensures img[y][x] == ExplorationMemory()[y][x]
    {
      assert img[y][x] == [level[y, x], hp[y, x], explore[y, x]];
      assert level[y, x] == ChannelPixel(1, y, x) && hp[y, x] == ChannelPixel(2, y, x) && explore[y, x] == ChannelPixel(3, y, x);
      assert ExplorationMemory()[y][x] == [ChannelPixel(1, y, x), ChannelPixel(2, y, x), ChannelPixel(3, y, x)];
    }
    forall y | 0 <= y < BarHeight
      ensures img[y] == ExplorationMemory()[y]
    {
    }
  }

  /** `create_recent_memory`: `einops.rearrange(recent, "(w h) c -> h w c", h=8)`
      reads the flat buffer column by column. */
  function RecentMemoryImage(recent: seq<seq<int>>): (img: Image)
    requires |recent| == BarWidth * MemoryHeight
    ensures |img| == MemoryHeight && forall y :: 0 <= y < |img| ==> |img[y]| == BarWidth
  {
    seq(MemoryHeight, y requires 0 <= y < MemoryHeight =>
      seq(BarWidth, x requires 0 <= x < BarWidth => recent[x * MemoryHeight + y]))
  }

  /** The inverse rearrangement `"h w c -> (w h) c"`. */
  function FlattenRecent(img: Image): (recent: seq<seq<int>>)
    requires |img| == MemoryHeight && forall y :: 0 <= y < |img| ==> |img[y]| == BarWidth
    ensures |recent| == BarWidth * MemoryHeight
  {
    seq(BarWidth * MemoryHeight, i requires 0 <= i < BarWidth * MemoryHeight => img[i % MemoryHeight][i / MemoryHeight])
  }

  lemma SplitIndex(i: int)
    requires 0 <= i < BarWidth * MemoryHeight
    ensures 0 <= i / MemoryHeight < BarWidth && i == (i / MemoryHeight) * MemoryHeight + i % MemoryHeight
  {
  }

  lemma JoinIndex(x: int, y: int)
    requires 0 <= x < BarWidth && 0 <= y < MemoryHeight
    ensures 0 <= x * MemoryHeight + y < BarWidth * MemoryHeight
    ensures (x * MemoryHeight + y) % MemoryHeight == y && (x * MemoryHeight + y) / MemoryHeight == x
  {
  }

  /** The rearrangement loses nothing in either direction. */
  lemma RecentMemoryRoundTrip(recent: seq<seq<int>>, img: Image)
    requires |recent| == BarWidth * MemoryHeight
    requires |img| == MemoryHeight && forall y :: 0 <= y < |img| ==> |img[y]| == BarWidth
    ensures FlattenRecent(RecentMemoryImage(recent)) == recent
    ensures RecentMemoryImage(FlattenRecent(img)) == img
  {
    forall i | 0 <= i < BarWidth * MemoryHeight
      ensures FlattenRecent(RecentMemoryImage(recent))[i] == recent[i]
    {
      SplitIndex(i);
    }
    forall y | 0 <= y < MemoryHeight
      ensures RecentMemoryImage(FlattenRecent(img))[y] == img[y]
    {
      forall x | 0 <= x < BarWidth
        ensures RecentMemoryImage(FlattenRecent(img))[y][x] == img[y][x]
      {
        JoinIndex(x, y);
      }
    }
  }

  /** `np.zeros((output_shape[1] * memory_height, 3))`: the recent memory is never written. */
  function InitialRecentMemory(): (recent: seq<seq<int>>)
    ensures |recent| == BarWidth * MemoryHeight
  {
    seq(BarWidth * MemoryHeight, _ => [0, 0, 0])
  }

  /** The recent-memory rows of every observation are black. */
  lemma InitialRecentMemoryImage()
    ensures RecentMemoryImage(InitialRecentMemory()) == Zeros(Shape(MemoryHeight, BarWidth, 3))
  {
    var img := RecentMemoryImage(InitialRecentMemory());
    var zeros := Zeros(Shape(MemoryHeight, BarWidth, 3));
    forall y | 0 <= y < MemoryHeight
      ensures img[y] == zeros[y]
    {
      forall x | 0 <= x < BarWidth
        ensures img[y][x] == zeros[y][x]
      {
        JoinIndex(x, y);
      }
    }
  }

  /** `einops.rearrange(frames, "f h w c -> (f h) w c")`: the frames' rows, one frame after another. */
  function StackFrames(frames: seq<Image>): Image {
    if frames == [] then [] else frames[0] + StackFrames(frames[1..])
  }

  predicate FramesHigh(frames: seq<Image>) {
    forall i :: 0 <= i < |frames| ==> |frames[i]| == OutputShape.height
  }

  lemma {:induction false} StackFramesLength(frames: seq<Image>)
    requires FramesHigh(frames)
    ensures |StackFrames(frames)| == OutputShape.height * |frames|
  {
    if frames != [] {
      assert FramesHigh(frames[1..]);
      StackFramesLength(frames[1..]);
    }
  }

  lemma DivModStep(r: int)
    requires r >= OutputShape.height
    ensures (r - OutputShape.height) / OutputShape.height == r / OutputShape.height - 1
    ensures (r - OutputShape.height) % OutputShape.height == r % OutputShape.height
  {
  }

  /** Row `r` of the stack is row `r mod 36` of frame `r div 36`. */
  lemma {:induction false} StackFramesRows(frames: seq<Image>, r: nat)
    requires FramesHigh(frames) && r < OutputShape.height * |frames|
    ensures |StackFrames(frames)| == OutputShape.height * |frames|
    ensures StackFrames(frames)[r] == frames[r / OutputShape.height][r % OutputShape.height]
  {
    StackFramesLength(frames);
    var rest := frames[1..];
    assert FramesHigh(rest);
    StackFramesLength(rest);
    if r >= OutputShape.height {
      StackFramesRows(rest, r - OutputShape.height);
      DivModStep(r);
      assert StackFrames(frames)[r] == StackFrames(rest)[r - OutputShape.height];
    } else {
      assert StackFrames(frames)[r] == frames[0][r];
    }
  }

  /** `compress(f, output_shape)` for every frame, in order. */
  function CompressAll(compress: Compressor, frames: seq<Image>): (r: seq<Image>)
    ensures |r| == |frames|
  {
    seq(|frames|, i requires 0 <= i < |frames| => compress(frames[i], OutputShape))
  }

  /** Rows of padding between the blocks. */
  function Pad(): Image {
    Zeros(Shape(MemPadding, OutputShape.width, 3))
  }

  /** The `np.concatenate` of `create_obs_mem`, along the rows. */
  function ObsLayout(explore: Image, recent: Image, compressed: seq<Image>): Image {
    explore + Pad() + recent + Pad() + StackFrames(compressed)
  }

  /** The observation `create_obs_mem` builds from the buffered frames. */
  function ObservationOf(compress: Compressor, frames: seq<Image>): Image {
    ObsLayout(ExplorationMemory(), RecentMemoryImage(InitialRecentMemory()), CompressAll(compress, frames))
  }

  /** Offset of the first frame row in an observation. */
  const FramesTop := 2 * (MemoryHeight + MemPadding)

  /** An observation built from three frames has exactly the shape
      `output_full`, and its row `20 + r` is row `r mod 36` of frame `r div 36`. */
  lemma ObsLayoutShape(compress: Compressor, frames: seq<Image>)
    requires Resizes(compress) && |frames| == FrameStacks
    ensures var obs := ObservationOf(compress, frames);
      && HasShape(obs, OutputFull)
      && forall r :: 0 <= r < FrameStacks * OutputShape.height ==>
           obs[FramesTop + r] == compress(frames[r / OutputShape.height], OutputShape)[r % OutputShape.height]
  {
    var compressed := CompressAll(compress, frames);
    var recent := RecentMemoryImage(InitialRecentMemory());
    var obs := ObsLayout(ExplorationMemory(), recent, compressed);
    InitialRecentMemoryImage();
    assert forall i :: 0 <= i < |compressed| ==> HasShape(compressed[i], OutputShape);
    assert FramesHigh(compressed);
    StackFramesLength(compressed);
    var top := ExplorationMemory() + Pad() + recent + Pad();
    assert |top| == FramesTop;
    forall r | 0 <= r < FrameStacks * OutputShape.height
      ensures obs[FramesTop + r] == compress(frames[r / OutputShape.height], OutputShape)[r % OutputShape.height]
    {
      StackFramesRows(compressed, r);
    }
    forall y | 0 <= y < |obs|
      ensures RowHasShape(obs[y], OutputShape.width, OutputShape.channels)
    {
      if y >= FramesTop {
        var r := y - FramesTop;
        StackFramesRows(compressed, r);
        assert HasShape(compressed[r / OutputShape.height], OutputShape);
      }
    }
  }

  /** `Observation`: builds observations from the emulator's frame buffer. */
  class Observation {
    const emulator: GbEmulator.GBEmulator
    const compress: Compressor
    /** `recent_memory`, the (320, 3) buffer of zeros. */
    const recentMemory: seq<seq<int>> := InitialRecentMemory()

    constructor (emulator: GbEmulator.GBEmulator, compress: Compressor)
      ensures this.emulator == emulator && this.compress == compress
    {
      this.emulator, this.compress := emulator, compress;
    }

    /** `get_obs_space`: pixels are bytes and an observation has shape `output_full`. */
    function ObsSpaceShape(): (s: Shape)
      ensures s.height == FramesTop + FrameStacks * OutputShape.height && s.width == BarWidth && s.channels == 3
    {
      OutputFull
    }

    /** `create_obs_mem`: the current screen is read into the emulator's
        cache (its compressed copy is not used), then the observation is
        stacked from the bars, the recent memory and the three buffered
        frames, most recent first. */
    method CreateObsMem(screen: Image) returns (obs: Image)
      requires emulator.Valid()
      modifies emulator
      ensures emulator.currentFrameCache == if old(emulator.currentFrameCache).Some? then old(emulator.currentFrameCache) else Some(screen)
      ensures emulator.calls == old(emulator.calls)
      ensures obs == ObservationOf(compress, emulator.lastNFrames[..])
    {
      var curFrame := emulator.CurrentFrame(screen);
      var recentFrames := emulator.GetLastNFrames(FrameStacks);
      assert recentFrames == emulator.lastNFrames[..];
      var compressed := seq(|recentFrames|, i requires 0 <= i < |recentFrames| => compress(recentFrames[i], OutputShape));
      assert compressed == CompressAll(compress, emulator.lastNFrames[..]);
      var explore := CreateExplorationMemory();
      obs := explore + Pad() + RecentMemoryImage(recentMemory) + Pad() + StackFrames(compressed);
    }
  }
}
