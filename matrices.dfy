/** adafruit_max7219/matrices.py: the single 8x8 matrix, and the coordinate remap of
    a custom arrangement of daisy-chained 8x8 matrices. */
module Matrices {
  import opened Bits
  import opened Failures
  import Registers
  import FrameBuffer
  import Driver

  /** `Matrix8x8`: one chip driving an 8x8 matrix, no digit decoding. */
  class Matrix8x8 {
    const dev: Driver.Max7219

    ghost predicate Valid()
      reads this, dev
    {
      dev.Valid() && dev.width == 8 && dev.height == 8
    }

    constructor ()
      ensures Valid() && fresh(dev) && fresh(dev.buffer) && dev.sent == []
      ensures dev.buffer[..] == FrameBuffer.Filled(8, false)
    {
      dev := new Driver.Max7219(8, 8);
    }

    /** `init_display`: the power-on sequence with decode mode 0, then a cleared
        buffer shown, so all eight rows are written as 0. */
    method InitDisplay()
      requires Valid()
      modifies dev, dev.buffer
      ensures Valid()
      ensures dev.buffer[..] == FrameBuffer.Filled(8, false)
      ensures dev.sent == old(dev.sent) + Registers.Frames(Registers.InitCommands(0))
                          + Registers.Frames(Registers.RowCommands(FrameBuffer.Filled(8, false)))
    {
      var cs := Registers.InitCommands(0);
      var _ := dev.WriteCommands(cs);
      assert Registers.Accepted(cs) == cs;
      dev.Fill(0);
      var _ := dev.Show();
    }

    /** `clear_all`: every pixel off. */
    method ClearAll()
      requires Valid()
      modifies dev.buffer
      ensures forall x, y :: FrameBuffer.InBounds(8, 8, x, y) ==> !dev.Lit(x, y)
    {
      dev.Fill(0);
      forall x, y | FrameBuffer.InBounds(8, 8, x, y) ensures !dev.Lit(x, y) {
        FrameBuffer.FilledPixel(8, 8, false, x, y);
      }
    }
  }

  /** The chunk chain position `i` is dealt to: positions go out in runs of `run`,
      one run per chunk, wrapping back to chunk 0 after the last chunk. */
  function Deal(i: nat, run: nat, chunks: nat): nat
    requires run >= 1 && chunks >= 1
  {
    (i / run) % chunks
  }

  /** The positions below `n` dealt to chunk `k`, in the order they were dealt. */
  function Chunk(k: nat, run: nat, chunks: nat, n: nat): seq<int>
    requires run >= 1 && chunks >= 1
  {
    if n == 0 then [] else Chunk(k, run, chunks, n - 1) + (if Deal(n - 1, run, chunks) == k then [n - 1] else [])
  }

  function Concat(ss: seq<seq<int>>): seq<int>
  {
    if ss == [] then [] else Concat(ss[..|ss| - 1]) + ss[|ss| - 1]
  }

  /** The chunks of `chainLength * 8` positions dealt in runs of `run` to
      `chainLength / run` chunks. */
  function Chunks(chainLength: nat, run: nat): (ss: seq<seq<int>>)
    requires run >= 1
    ensures |ss| == chainLength / run
  {
    var chunks := chainLength / run;
    seq(chunks, k requires 0 <= k < chunks => Chunk(k, run, chunks, chainLength * 8))
  }

  /** `y_index`: the chunks laid end to end in chunk order. */
  function YIndex(chainLength: nat, run: nat): seq<int>
    requires run >= 1
  {
    Concat(Chunks(chainLength, run))
  }

  /** One step of the dealing loop: the count within the run and the chunk number
      advance as the loop's counters do. */
  lemma DealStep(i: nat, run: nat, chunks: nat)
    requires run >= 1 && chunks >= 1
    ensures i % run + 1 >= run ==>
      (i + 1) % run == 0 && Deal(i + 1, run, chunks) == (if Deal(i, run, chunks) + 1 >= chunks then 0 else Deal(i, run, chunks) + 1)
    ensures i % run + 1 < run ==> (i + 1) % run == i % run + 1 && Deal(i + 1, run, chunks) == Deal(i, run, chunks)
  {
    var q, s := i / run, i % run;
    if s + 1 >= run {
      DivModUnique(i + 1, run, q + 1, 0);
      var c := q % chunks;
      if c + 1 >= chunks {
        DivModUnique(q + 1, chunks, q / chunks + 1, 0);
      } else {
        DivModUnique(q + 1, chunks, q / chunks, c + 1);
      }
    } else {
      DivModUnique(i + 1, run, q, s + 1);
    }
  }

  /** `0, 1, ..., n - 1`. */
  function Range(n: nat): seq<int>
  {
    seq(n, i => i)
  }

  lemma {:induction false} RangeCounts(n: nat, v: int)
    ensures multiset(Range(n))[v] == if 0 <= v < n then 1 else 0
  {
    if n > 0 {
      RangeCounts(n - 1, v);
      assert Range(n) == Range(n - 1) + [n - 1];
    }
  }

  /** A chunk holds each position below `n` that was dealt to it exactly once, and
      nothing else. */
  lemma {:induction false} ChunkCounts(k: nat, run: nat, chunks: nat, n: nat, v: int)
    requires run >= 1 && chunks >= 1
    ensures multiset(Chunk(k, run, chunks, n))[v] == if 0 <= v < n && Deal(v, run, chunks) == k then 1 else 0
  {
    if n > 0 {
      ChunkCounts(k, run, chunks, n - 1, v);
      var before := Chunk(k, run, chunks, n - 1);
      var added := if Deal(n - 1, run, chunks) == k then [n - 1] else [];
      assert multiset(Chunk(k, run, chunks, n)) == multiset(before) + multiset(added);
      var owned := Deal(n - 1, run, chunks) == k;
      if v == n - 1 {
        assert multiset(before)[v] == 0;
        assert multiset(added)[v] == if owned then 1 else 0;
      } else {
        assert multiset(added)[v] == 0;
      }
    }
  }

  /** A chunk is strictly ascending, and holds only positions below `n`. */
  lemma {:induction false} ChunkAscending(k: nat, run: nat, chunks: nat, n: nat)
    requires run >= 1 && chunks >= 1
    ensures forall i :: 0 <= i < |Chunk(k, run, chunks, n)| ==> 0 <= Chunk(k, run, chunks, n)[i] < n
    ensures forall i, j :: 0 <= i < j < |Chunk(k, run, chunks, n)| ==> Chunk(k, run, chunks, n)[i] < Chunk(k, run, chunks, n)[j]
  {
    if n > 0 {
      ChunkAscending(k, run, chunks, n - 1);
    }
  }

  lemma {:induction false} ConcatCounts(chainLength: nat, run: nat, count: nat, v: int)
    requires run >= 1 && count <= chainLength / run
    ensures multiset(Concat(Chunks(chainLength, run)[..count]))[v]
         == if count >= 1 && 0 <= v < chainLength * 8 && Deal(v, run, chainLength / run) < count then 1 else 0
  {
    var ss := Chunks(chainLength, run);
    if count > 0 {
      ConcatCounts(chainLength, run, count - 1, v);
      assert ss[..count][..count - 1] == ss[..count - 1];
      ChunkCounts(count - 1, run, chainLength / run, chainLength * 8, v);
    }
  }

  /** `y_index` holds every position of the chain exactly once and nothing else: it
      is a permutation of 0 .. chainLength * 8 - 1, and so has chainLength * 8 entries. */
  lemma YIndexIsPermutation(chainLength: nat, run: nat)
    requires run >= 1 && (chainLength / run >= 1 || chainLength == 0)
    ensures multiset(YIndex(chainLength, run)) == multiset(Range(chainLength * 8))
    ensures |YIndex(chainLength, run)| == chainLength * 8
  {
    var ss, n := Chunks(chainLength, run), chainLength * 8;
    var ys, all := multiset(YIndex(chainLength, run)), multiset(Range(n));
    assert ss[..|ss|] == ss;
    forall v: int
      ensures ys[v] == all[v]
    {
      ConcatCounts(chainLength, run, |ss|, v);
      RangeCounts(n, v);
      if 0 <= v < n {
        assert |ss| >= 1;
        assert Deal(v, run, |ss|) < |ss|;
      }
    }
    assert ys == all;
    assert |YIndex(chainLength, run)| == |ys| == |all| == |Range(n)|;
  }

  lemma DivBelow(t: nat, run: nat, chunks: nat)
    requires run >= 1 && t < run * chunks
    ensures t / run < chunks
  {
  }

  /** Inside one round of `run * chunks` positions, position `t` of the round goes to
      chunk `t / run`. */
  lemma RoundDeal(run: nat, chunks: nat, m: nat, t: nat)
    requires run >= 1 && chunks >= 1 && t < run * chunks
    ensures Deal(run * chunks * m + t, run, chunks) == t / run
  {
    DivBelow(t, run, chunks);
    var n := run * chunks * m + t;
    assert n == (chunks * m + t / run) * run + t % run;
    DivModUnique(n, run, chunks * m + t / run, t % run);
    DivModUnique(chunks * m + t / run, chunks, m, t / run);
  }

  function Clamp(z: int, hi: nat): nat
  {
    if z < 0 then 0 else if z > hi then hi else z
  }

  /** During round `m`, chunk `k` receives the run `k * run .. k * run + run - 1` of
      the round, in order. */
  lemma {:induction false} WithinRound(k: nat, run: nat, chunks: nat, m: nat, t: nat)
    requires run >= 1 && k < chunks && t <= run * chunks
    ensures Chunk(k, run, chunks, run * chunks * m + t)
         == Chunk(k, run, chunks, run * chunks * m)
            + seq(Clamp(t - k * run, run), j => run * chunks * m + k * run + j)
  {
    var base, lo := run * chunks * m, k * run;
    var f := j => base + lo + j;
    if t > 0 {
      WithinRound(k, run, chunks, m, t - 1);
      RoundDeal(run, chunks, m, t - 1);
      DivRange(t - 1, run, k);
      var before := Clamp(t - 1 - lo, run);
      if lo <= t - 1 < lo + run {
        assert seq(before + 1, f) == seq(before, f) + [f(before)];
      }
    } else {
      assert seq(Clamp(t - lo, run), f) == [];
    }
  }

  /** A whole round gives every chunk a full run. */
  lemma RoundClamp(k: nat, run: nat, chunks: nat)
    requires run >= 1 && k < chunks
    ensures Clamp(run * chunks - k * run, run) == run
  {
    assert run * chunks - k * run == (chunks - k) * run;
    MulAtLeast(chunks - k, run);
  }

  /** After `m` whole rounds chunk `k` holds `run * m` positions. */
  lemma {:induction false} ChunkLength(k: nat, run: nat, chunks: nat, m: nat)
    requires run >= 1 && k < chunks
    ensures |Chunk(k, run, chunks, run * chunks * m)| == run * m
  {
    var whole := run * chunks;
    if m == 0 {
      assert whole * m == 0;
    } else {
      ChunkLength(k, run, chunks, m - 1);
      assert whole * m == whole * (m - 1) + whole;
      WithinRound(k, run, chunks, m - 1, whole);
      RoundClamp(k, run, chunks);
      assert run * m == run * (m - 1) + run;
    }
  }

  /** The first `m` runs chunk `k` receives, one per round, laid end to end. */
  function Runs(k: nat, run: nat, chunks: nat, m: nat): seq<int>
  {
    if m == 0 then [] else Runs(k, run, chunks, m - 1) + seq(run, j => run * chunks * (m - 1) + k * run + j)
  }

  /** After `m` whole rounds chunk `k` holds exactly its runs of those rounds. */
  lemma {:induction false} ChunkRuns(k: nat, run: nat, chunks: nat, m: nat)
    requires run >= 1 && k < chunks
    ensures Chunk(k, run, chunks, run * chunks * m) == Runs(k, run, chunks, m)
  {
    if m == 0 {
      assert run * chunks * m == 0;
    } else {
      ChunkRuns(k, run, chunks, m - 1);
      RoundArith(run * chunks, m);
      RoundAppend(k, run, chunks, m - 1);
    }
  }

  /** Entry `r * run + j` of the runs is position `j` of the run of round `r`. */
  lemma {:induction false} RunsAt(k: nat, run: nat, chunks: nat, m: nat, r: nat, j: nat)
    requires r < m && j < run
    ensures |Runs(k, run, chunks, m)| == run * m
    ensures r * run + j < run * m
    ensures Runs(k, run, chunks, m)[r * run + j] == run * chunks * r + k * run + j
  {
    var prev := Runs(k, run, chunks, m - 1);
    if m > 1 && r < m - 1 {
      RunsAt(k, run, chunks, m - 1, r, j);
    } else if m > 1 {
      RunsAt(k, run, chunks, m - 1, 0, 0);
    }
    assert run * m == run * (m - 1) + run;
    RunIndex(run, m - 1, r, j);
  }

  /** After `m` whole rounds, entry `r * run + j` of chunk `k` is position `j` of its
      run in round `r`. */
  lemma ChunkAt(k: nat, run: nat, chunks: nat, m: nat, r: nat, j: nat)
    requires run >= 1 && k < chunks && r < m && j < run
    ensures r * run + j < |Chunk(k, run, chunks, run * chunks * m)|
    ensures Chunk(k, run, chunks, run * chunks * m)[r * run + j] == run * chunks * r + k * run + j
  {
    ChunkRuns(k, run, chunks, m);
    RunsAt(k, run, chunks, m, r, j);
  }

  lemma RoundArith(whole: int, m: int)
    ensures whole * m == whole * (m - 1) + whole
  {
  }

  /** Round `p` appends to chunk `k` its own run of that round. */
  lemma RoundAppend(k: nat, run: nat, chunks: nat, p: nat)
    requires run >= 1 && k < chunks
    ensures Chunk(k, run, chunks, run * chunks * p + run * chunks)
         == Chunk(k, run, chunks, run * chunks * p) + seq(run, j => run * chunks * p + k * run + j)
  {
    WithinRound(k, run, chunks, p, run * chunks);
    RoundClamp(k, run, chunks);
  }

  /** Entry `j` of run `r` lies before the first `p` runs end, or is entry `j` after
      them when `r == p`. */
  lemma RunIndex(run: nat, p: nat, r: nat, j: nat)
    requires r <= p && j < run
    ensures r < p ==> r * run + j < run * p
    ensures r == p ==> r * run + j == run * p + j
  {
    if r < p {
      assert run * p - r * run == (p - r) * run;
      MulAtLeast(p - r, run);
    }
  }

  lemma {:induction false} ConcatAt(ss: seq<seq<int>>, width: nat, k: nat, q: nat)
    requires forall i :: 0 <= i < |ss| ==> |ss[i]| == width
    requires k < |ss| && q < width
    ensures |Concat(ss)| == |ss| * width
    ensures k * width + q < |Concat(ss)| && Concat(ss)[k * width + q] == ss[k][q]
  {
    var init := ss[..|ss| - 1];
    if k < |ss| - 1 {
      ConcatAt(init, width, k, q);
      assert k * width + q < |init| * width;
    } else if |ss| > 1 {
      ConcatAt(init, width, 0, 0);
    }
    assert |ss| * width == (|ss| - 1) * width + width;
    assert k * width <= (|ss| - 1) * width by {
      assert (|ss| - 1) * width - k * width == (|ss| - 1 - k) * width;
    }
  }

  /** For a rectangular arrangement, `chainLength == run * chunks`: entry
      `k * 8 * run + m * run + j` of `y_index` is `m * chainLength + k * run + j`. */
  lemma YIndexAt(chainLength: nat, run: nat, chunks: nat, k: nat, m: nat, j: nat)
    requires run >= 1 && chainLength == run * chunks && k < chunks && m < 8 && j < run
    ensures k * (8 * run) + m * run + j < |YIndex(chainLength, run)|
    ensures YIndex(chainLength, run)[k * (8 * run) + m * run + j] == m * chainLength + k * run + j
  {
    var rs := seq(chunks, c requires 0 <= c < chunks => Runs(c, run, chunks, 8));
    ChunksAreRuns(chainLength, run, chunks);
    var ys := YIndex(chainLength, run);
    assert ys == Concat(rs);
    forall c | 0 <= c < |rs| ensures |rs[c]| == 8 * run {
      RunsAt(c, run, chunks, 8, 0, 0);
    }
    RunsAt(k, run, chunks, 8, m, j);
    assert run * chunks * m == m * chainLength;
    ConcatAt(rs, 8 * run, k, m * run + j);
  }

  /** In a rectangular arrangement chunk `k` is its eight runs. */
  lemma ChunksAreRuns(chainLength: nat, run: nat, chunks: nat)
    requires run >= 1 && chainLength == run * chunks
    ensures Chunks(chainLength, run) == seq(chunks, c requires 0 <= c < chunks => Runs(c, run, chunks, 8))
  {
    var ss, n := Chunks(chainLength, run), chainLength * 8;
    DivModUnique(chainLength, run, chunks, 0);
    assert n == run * chunks * 8;
    forall c | 0 <= c < chunks ensures ss[c] == Runs(c, run, chunks, 8) {
      assert ss[c] == Chunk(c, run, chunks, n);
      ChunkRuns(c, run, chunks, 8);
    }
  }

  /** `pixel`'s remap of logical (x, y) to the pair it hands to the base class's
      `pixel`: (`xpos mod 8`, `xpos // 8 + y_index[ypos * y_offset]`). A negative list index
      counts from the end, as in Python; one out of range raises IndexError. */
  function Remap(yIndex: seq<int>, yOffset: int, x: int, y: int): (r: Result<(int, int)>)
    ensures r.Ok? <==> -|yIndex| <= y * yOffset < |yIndex|
    ensures r.Ok? ==> 0 <= r.value.0 < 8 && r.value.0 == x % 8
  {
    var j := y * yOffset;
    if 0 <= j < |yIndex| then
      Ok(((x - (x / 8) * 8) % 8, x / 8 + yIndex[j]))
    else if -|yIndex| <= j < 0 then
      Ok(((x - (x / 8) * 8) % 8, x / 8 + yIndex[|yIndex| + j]))
    else
      Err(IndexError)
  }

  /** For a rectangular arrangement of `chainLength / run` rows of `run` matrices,
      the pair `pixel` hands to the chained base class for logical pixel (x, y) is
      `(x % 8, (y % 8) * chainLength + (y / 8) * run + x / 8)`. Where that pair lands
      in the frame buffer (and the rotation applied first) belongs to the base class. */
  lemma RemapRectangular(chainLength: nat, run: nat, x: int, y: int)
    requires run >= 1 && chainLength % run == 0
    requires 0 <= x < 8 * run && 0 <= y < 8 * (chainLength / run)
    ensures Remap(YIndex(chainLength, run), run, x, y)
         == Ok((x % 8, (y % 8) * chainLength + (y / 8) * run + x / 8))
  {
    var chunks := chainLength / run;
    assert chainLength == run * chunks;
    var k, m := y / 8, y % 8;
    assert k < chunks;
    assert y * run == k * (8 * run) + m * run + 0;
    YIndexAt(chainLength, run, chunks, k, m, 0);
    assert x / 8 < run;
  }

  /** In a rectangular arrangement no two pixels of the picture are handed to the
      base class as the same pair. */
  lemma RemapSeparates(chainLength: nat, run: nat, x: int, y: int, x': int, y': int)
    requires run >= 1 && chainLength % run == 0
    requires 0 <= x < 8 * run && 0 <= y < 8 * (chainLength / run)
    requires 0 <= x' < 8 * run && 0 <= y' < 8 * (chainLength / run)
    requires Remap(YIndex(chainLength, run), run, x, y) == Remap(YIndex(chainLength, run), run, x', y')
    ensures x == x' && y == y'
  {
    RemapRectangular(chainLength, run, x, y);
    RemapRectangular(chainLength, run, x', y');
    var c, c' := (y / 8) * run + x / 8, (y' / 8) * run + x' / 8;
    LocalCell(chainLength, run, x, y);
    LocalCell(chainLength, run, x', y');
    DivModUnique((y % 8) * chainLength + c, chainLength, y % 8, c);
    DivModUnique((y' % 8) * chainLength + c', chainLength, y' % 8, c');
    DivModUnique(c, run, y / 8, x / 8);
    DivModUnique(c', run, y' / 8, x' / 8);
  }

  /** The matrix a picture pixel lands on is one of the chain's. */
  lemma LocalCell(chainLength: nat, run: nat, x: int, y: int)
    requires run >= 1 && chainLength % run == 0
    requires 0 <= x < 8 * run && 0 <= y < 8 * (chainLength / run)
    ensures 0 <= (y / 8) * run + x / 8 < chainLength
  {
    var chunks := chainLength / run;
    assert chainLength == chunks * run + chainLength % run;
    DivBelow(y, 8, chunks);
    DivBelow(x, 8, run);
    LocalBelow(run, chunks, y / 8, x / 8);
  }

  lemma LocalBelow(run: nat, chunks: nat, k: nat, c: nat)
    requires k < chunks && c < run
    ensures k * run + c < run * chunks
  {
    assert run * chunks - k * run == (chunks - k) * run;
    MulAtLeast(chunks - k, run);
  }

  /** `CustomMatrix`: a width × height picture spread over `chainLength` chained
      8x8 matrices, `width / 8` of them side by side. */
  class CustomMatrix {
    const width: nat
    const height: nat
    const chainLength: nat
    /** `y_offset`: matrices per row of the picture. */
    const yOffset: nat
    /** `y_index`: computed once by the constructor; nothing assigns it afterwards. */
    const yIndex: seq<int>

    /** The Python constructor raises when `_calculate_y_coordinate_offsets` does;
        this one is for the arrangements it accepts. */
    constructor (width: nat, height: nat, chainLength: nat)
      requires width / 8 >= 1 && (chainLength / (width / 8) >= 1 || chainLength == 0)
      ensures this.width == width && this.height == height && this.chainLength == chainLength
      ensures yOffset == width / 8 && yIndex == YIndex(chainLength, width / 8)
    {
      var r := CalculateYCoordinateOffsets(width, chainLength);
      this.width, this.height, this.chainLength := width, height, chainLength;
      yOffset := width / 8;
      yIndex := r.value;
    }

    /** `_calculate_y_coordinate_offsets`: deals the `chainLength * 8` positions in
        runs of `width // 8` round robin into `chainLength // (width // 8)` chunks and
        concatenates the chunks. A width below 8 divides by zero; no chunk at all for
        a non-empty chain makes `y_chunks[0]` raise IndexError. */
    static method CalculateYCoordinateOffsets(width: nat, chainLength: nat) returns (r: Result<seq<int>>)
      ensures r == if width / 8 == 0 then Err(ZeroDivisionError)
                   else if chainLength / (width / 8) == 0 && chainLength > 0 then Err(IndexError)
                   else Ok(YIndex(chainLength, width / 8))
    {
      if width / 8 == 0 {
        return Err(ZeroDivisionError);
      }
      var run := width / 8;
      var chunks := chainLength / run;
      var yChunks: seq<seq<int>> := [];
      for k := 0 to chunks
        invariant |yChunks| == k && forall j :: 0 <= j < k ==> yChunks[j] == []
      {
        yChunks := yChunks + [[]];
      }
      var chunk, chunkSize := 0, 0;
      for index := 0 to chainLength * 8
        invariant |yChunks| == chunks
        invariant chunks == 0 ==> index == 0
        invariant chunks >= 1 ==> chunk == Deal(index, run, chunks) && chunkSize == index % run
        invariant forall k :: 0 <= k < chunks ==> yChunks[k] == Chunk(k, run, chunks, index)
      {
        if chunk >= |yChunks| {
          return Err(IndexError);
        }
        DealStep(index, run, chunks);
        yChunks := yChunks[chunk := yChunks[chunk] + [index]];
        chunkSize := chunkSize + 1;
        if chunkSize >= run {
          chunkSize := 0;
          chunk := chunk + 1;
          if chunk >= |yChunks| {
            chunk := 0;
          }
        }
      }
      var yIndex: seq<int> := [];
      for j := 0 to |yChunks|
        invariant yIndex == Concat(yChunks[..j])
      {
        assert yChunks[..j + 1][..j] == yChunks[..j];
        yIndex := yIndex + yChunks[j];
      }
      assert yChunks[..|yChunks|] == yChunks == Chunks(chainLength, run);
      r := Ok(yIndex);
    }
  }
}
