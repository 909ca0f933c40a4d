/**
 * The dashboard's plot helpers: building a scatter trace from a 1D array or from an array
 * of [x, y] pairs, block-downsampling a flat image, flipping a 2D array upside down, and
 * the state update that greys out earlier curves and appends the latest ones.
 */
module PlotHelper {
  import opened Wrappers

  /** The JavaScript values the helpers receive (numbers are kept as they came; no
      arithmetic is done on them). */
  datatype JsValue =
    | JsNumber(r: real)
    | JsString(s: string)
    | JsArray(items: seq<JsValue>)
    | JsNull
    | JsUndefined

  /** `v[i]`: an element of an array or a character of a string, `undefined` when out of
      range or on a number, a `TypeError` on `null` and `undefined`. */
  function Index(v: JsValue, i: nat): Result<JsValue>
  {
    match v
    case JsArray(items) => Ok(if i < |items| then items[i] else JsUndefined)
    case JsString(s) => Ok(if i < |s| then JsString([s[i]]) else JsUndefined)
    case JsNumber(_) => Ok(JsUndefined)
    case JsNull => Raised(TypeError)
    case JsUndefined => Raised(TypeError)
  }

  /** One plotly scatter trace. */
  datatype Trace = Trace(x: seq<JsValue>, y: seq<JsValue>, kind: string, mode: string, color: string, name: string)

  /** The x values 0 .. n-1. */
  function Range(n: nat): (r: seq<JsValue>)
    ensures |r| == n && forall i :: 0 <= i < n ==> r[i] == JsNumber(i as real)
  {
    seq(n, i => JsNumber(i as real))
  }

  // ---------------------------------------------------------------------------------------
  // process1DArray and process2DArray
  // ---------------------------------------------------------------------------------------

  /** `process1DArray(array, frameNumber)`: one red trace plotting the values against their
      positions; `false` (here `None`) for an empty array. */
  method Process1DArray(arr: seq<JsValue>, frameNumber: string) returns (r: Option<seq<Trace>>)
    ensures r.None? <==> |arr| == 0
    ensures r.Some? ==> r.value == [Trace(Range(|arr|), arr, "scatter", "lines+markers", "red", "frame " + frameNumber)]
  {
    if |arr| == 0 {
      return None;
    }
    var xValues := [];
    var yValues := [];
    var i := 0;
    while i < |arr|
      invariant 0 <= i <= |arr|
      invariant xValues == Range(i) && yValues == arr[..i]
    {
      xValues := xValues + [JsNumber(i as real)];
      yValues := yValues + [arr[i]];
      i := i + 1;
    }
    assert arr[..i] == arr;
    r := Some([Trace(xValues, yValues, "scatter", "lines+markers", "red", "frame " + frameNumber)]);
  }

  /** The first and second components of every element; `None` when reading one raises. */
  function Unzip(arr: seq<JsValue>): Option<(seq<JsValue>, seq<JsValue>)>
  {
    if |arr| == 0 then Some(([], []))
    else
      match Unzip(arr[..|arr| - 1])
      case None => None
      case Some(xy) =>
        var last := arr[|arr| - 1];
        match Index(last, 0)
        case Raised(_) => None
        case Ok(x) =>
          match Index(last, 1)
          case Raised(_) => None
          case Ok(y) => Some((xy.0 + [x], xy.1 + [y]))
  }

  /** The gate of line 50: a non-empty array whose first element is an array of two. */
  predicate LooksLikePairs(arr: seq<JsValue>)
  {
    |arr| > 0 && arr[0].JsArray? && |arr[0].items| == 2
  }

  /** `process2DArray(array, frameNumber)`: one blue trace of the pairs; `false` when the
      gate fails or reading an element raises (the exception is caught). */
  method Process2DArray(arr: seq<JsValue>, frameNumber: string) returns (r: Option<seq<Trace>>)
    ensures r.Some? <==> LooksLikePairs(arr) && Unzip(arr).Some?
    ensures r.Some? ==> var xy := Unzip(arr).value;
      r.value == [Trace(xy.0, xy.1, "scatter", "lines+markers", "blue", "frame " + frameNumber)]
  {
    if !(|arr| > 0 && arr[0].JsArray? && |arr[0].items| == 2) {
      return None;
    }
    var xValues := [];
    var yValues := [];
    var i := 0;
    while i < |arr|
      invariant 0 <= i <= |arr|
      invariant Unzip(arr[..i]) == Some((xValues, yValues))
    {
      assert arr[..i + 1][..i] == arr[..i];
      var x := Index(arr[i], 0);
      if x.Raised? {
        UnzipFailsOnward(arr, i + 1);
        return None;
      }
      var y := Index(arr[i], 1);
      if y.Raised? {
        UnzipFailsOnward(arr, i + 1);
        return None;
      }
      xValues := xValues + [x.value];
      yValues := yValues + [y.value];
      i := i + 1;
    }
    assert arr[..i] == arr;
    r := Some([Trace(xValues, yValues, "scatter", "lines+markers", "blue", "frame " + frameNumber)]);
  }

  /** Once reading a prefix fails, reading the whole array fails. */
  lemma {:induction false} UnzipFailsOnward(arr: seq<JsValue>, k: nat)
    requires k <= |arr| && Unzip(arr[..k]).None?
    ensures Unzip(arr).None?
    decreases |arr| - k
  {
    if k < |arr| {
      assert arr[..k + 1][..k] == arr[..k];
      UnzipFailsOnward(arr, k + 1);
    } else {
      assert arr[..k] == arr;
    }
  }

  /** An array of [x, y] pairs unzips into its x column and its y column, and zipping the
      columns gives the array back. */
  lemma {:induction false} UnzipPairs(arr: seq<JsValue>)
    requires forall i :: 0 <= i < |arr| ==> arr[i].JsArray? && |arr[i].items| == 2
    ensures Unzip(arr).Some?
    ensures var xy := Unzip(arr).value;
      |xy.0| == |arr| && |xy.1| == |arr|
      && forall i :: 0 <= i < |arr| ==> arr[i] == JsArray([xy.0[i], xy.1[i]])
  {
    if |arr| > 0 {
      var init := arr[..|arr| - 1];
      UnzipPairs(init);
      var last := arr[|arr| - 1];
      assert last.items == [last.items[0], last.items[1]];
    }
  }

  // ---------------------------------------------------------------------------------------
  // processAndDownsampleArrayData
  // ---------------------------------------------------------------------------------------

  /** An element of the flat row-major image, by row and column. */
  datatype Pixel = Pixel(row: nat, col: nat)

  /** The position the code reads for a pixel: `row * width + col`. */
  function FlatIndex(p: Pixel, width: nat): nat
  {
    p.row * width + p.col
  }

  /** Pixels inside the image have distinct flat positions below `width * height`. */
  lemma FlatIndexInBounds(p: Pixel, q: Pixel, width: nat, height: nat)
    requires p.row < height && p.col < width && q.row < height && q.col < width
    ensures FlatIndex(p, width) < width * height
    ensures FlatIndex(p, width) == FlatIndex(q, width) ==> p == q
  {
    MulLe(p.row + 1, height, width);
    if p.row < q.row {
      MulLe(p.row + 1, q.row, width);
    } else if q.row < p.row {
      MulLe(q.row + 1, p.row, width);
    }
  }

  lemma MulLe(a: nat, b: nat, c: nat)
    requires a <= b
    ensures a * c <= b * c
  {
  }

  /** Rows `0 .. i-1` of the block of output cell (`row`, `col`): the pixels the code
      visits, row by row. */
  function BlockRows(row: nat, col: nat, s: nat, i: nat): seq<Pixel>
  {
    if i == 0 then []
    else BlockRows(row, col, s, i - 1) + seq(s, j requires 0 <= j < s => Pixel(row * s + i - 1, col * s + j))
  }

  /** The `s` by `s` block averaged into output cell (`row`, `col`). */
  function Block(row: nat, col: nat, s: nat): seq<Pixel>
  {
    BlockRows(row, col, s, s)
  }

  /** The pixels each output cell averages, row by row. */
  function Downsampled(width: nat, height: nat, s: nat): seq<seq<seq<Pixel>>>
    requires s >= 1
  {
    seq(height / s, row requires 0 <= row => seq(width / s, col requires 0 <= col => Block(row, col, s)))
  }

  /** An output cell's block lies inside the image. */
  lemma BlockInside(row: nat, col: nat, s: nat, width: nat, height: nat, i: nat, j: nat)
    requires s >= 1 && row < height / s && col < width / s && i < s && j < s
    ensures row * s + i < height && col * s + j < width
  {
    MulLe(row + 1, height / s, s);
    MulLe(col + 1, width / s, s);
  }

  lemma {:induction false} BlockRowsSpec(row: nat, col: nat, s: nat, i: nat)
    ensures |BlockRows(row, col, s, i)| == i * s
    ensures forall k :: 0 <= k < |BlockRows(row, col, s, i)| ==>
      var p := BlockRows(row, col, s, i)[k];
      p == Pixel(row * s + k / s, col * s + k % s)
  {
    if i > 0 {
      BlockRowsSpec(row, col, s, i - 1);
      var pre := BlockRows(row, col, s, i - 1);
      var b := BlockRows(row, col, s, i);
      forall k | 0 <= k < |b|
        ensures b[k] == Pixel(row * s + k / s, col * s + k % s)
      {
        if k >= |pre| {
          var j := k - (i - 1) * s;
          assert b[k] == Pixel(row * s + i - 1, col * s + j);
          DivMod(k, s, i - 1, j);
        }
      }
    }
  }

  lemma DivMod(k: nat, s: nat, q: nat, j: nat)
    requires s >= 1 && j < s && k == q * s + j
    ensures k / s == q && k % s == j
  {
    MulStep(k / s, q, s);
    MulStep(q, k / s, s);
  }

  /** A larger multiple of `s` is at least `s` larger. */
  lemma MulStep(a: int, b: int, s: nat)
    ensures a < b ==> a * s + s <= b * s
  {
    if a < b {
      assert b * s - a * s == (b - a) * s;
      MulLe(1, b - a, s);
    }
  }

  /** Below `s * s`, the quotient by `s` is below `s`. */
  lemma DivBelow(k: nat, s: nat)
    requires s >= 1 && k < s * s
    ensures k / s < s
  {
    var q := k / s;
    assert k == q * s + k % s;
    MulStep(q, s, s);
    MulStep(s - 1, q, s);
  }

  /** Every output cell of the downsampled image averages exactly `s * s` distinct pixels,
      all inside the image: the bounds check of line 195 never leaves one out. */
  lemma BlockSpec(row: nat, col: nat, s: nat, width: nat, height: nat)
    requires s >= 1 && row < height / s && col < width / s
    ensures |Block(row, col, s)| == s * s
    ensures forall k :: 0 <= k < s * s ==> Block(row, col, s)[k].row < height && Block(row, col, s)[k].col < width
    ensures forall k, l :: 0 <= k < l < s * s ==> Block(row, col, s)[k] != Block(row, col, s)[l]
  {
    BlockRowsSpec(row, col, s, s);
    var b := Block(row, col, s);
    forall k | 0 <= k < s * s
      ensures b[k].row < height && b[k].col < width
    {
      DivBelow(k, s);
      BlockInside(row, col, s, width, height, k / s, k % s);
    }
    forall k, l | 0 <= k < l < s * s
      ensures b[k] != b[l]
    {
      DivModUnique(k, l, s);
    }
  }

  lemma DivModUnique(k: nat, l: nat, s: nat)
    requires s >= 1 && k != l
    ensures k / s != l / s || k % s != l % s
  {
  }

  /** `processAndDownsampleArrayData(data, width, height, scaleFactor)` for an integral
      scale factor: an `Error` when it is below 1; otherwise `height / s` rows of
      `width / s` cells, each the block of pixels whose values it averages (the averaged
      values themselves are not modelled). */
  method ProcessAndDownsample(width: nat, height: nat, scaleFactor: int) returns (r: Result<seq<seq<seq<Pixel>>>>)
    ensures scaleFactor < 1 <==> r.Raised?
    ensures r.Ok? ==> r.value == Downsampled(width, height, scaleFactor)
  {
    if scaleFactor < 1 {
      return Raised(ValueError);
    }
    var s: nat := scaleFactor;
    var downsampledHeight := height / s;
    var downsampledWidth := width / s;
    var newData := [];
    var row := 0;
    while row < downsampledHeight
      invariant 0 <= row <= downsampledHeight
      invariant newData == Downsampled(width, height, s)[..row]
    {
      var newRow := DownsampleRow(row, width, height, s);
      newData := newData + [newRow];
      row := row + 1;
    }
    r := Ok(newData);
  }

  /** One output row: the loop over `col` of lines 184-203. */
  method DownsampleRow(row: nat, width: nat, height: nat, s: nat) returns (newRow: seq<seq<Pixel>>)
    requires s >= 1 && row < height / s
    ensures newRow == seq(width / s, col requires 0 <= col => Block(row, col, s))
  {
    newRow := [];
    var col := 0;
    while col < width / s
      invariant 0 <= col <= width / s
      invariant newRow == seq(col, c requires 0 <= c => Block(row, c, s))
    {
      var cell := BlockPixels(row, col, width, height, s);
      newRow := newRow + [cell];
      col := col + 1;
    }
  }

  /** The two inner loops of lines 189-200: the pixels that pass the bounds check. */
  method BlockPixels(row: nat, col: nat, width: nat, height: nat, s: nat) returns (cell: seq<Pixel>)
    requires s >= 1 && row < height / s && col < width / s
    ensures cell == Block(row, col, s)
  {
    cell := [];
    var i := 0;
    while i < s
      invariant 0 <= i <= s
      invariant cell == BlockRows(row, col, s, i)
    {
      var j := 0;
      while j < s
        invariant 0 <= j <= s
        invariant cell == BlockRows(row, col, s, i) + seq(j, jj requires 0 <= jj => Pixel(row * s + i, col * s + jj))
      {
        var originalRow := row * s + i;
        var originalCol := col * s + j;
        BlockInside(row, col, s, width, height, i, j);
        if originalRow < height && originalCol < width {
          cell := cell + [Pixel(originalRow, originalCol)];
        }
        j := j + 1;
      }
      i := i + 1;
    }
  }

  // ---------------------------------------------------------------------------------------
  // flip2DArray
  // ---------------------------------------------------------------------------------------

  function Reversed<T>(s: seq<T>): (r: seq<T>)
    ensures |r| == |s| && forall i :: 0 <= i < |s| ==> r[i] == s[|s| - 1 - i]
  {
    seq(|s|, i requires 0 <= i < |s| => s[|s| - 1 - i])
  }

  /** Flipping twice gives the original rows back. */
  lemma ReversedInvolution<T>(s: seq<T>)
    ensures Reversed(Reversed(s)) == s
  {
  }

  /** `flip2DArray(array)`: a new array whose row `i` is row `len - 1 - i` of the input. */
  method Flip2DArray<T>(arr: seq<T>) returns (flipped: seq<T>)
    ensures flipped == Reversed(arr)
  {
    flipped := [];
    var i := |arr| - 1;
    while i >= 0
      invariant -1 <= i < |arr|
      invariant |flipped| == |arr| - 1 - i
      invariant forall k :: 0 <= k < |flipped| ==> flipped[k] == arr[|arr| - 1 - k]
    {
      flipped := flipped + [arr[i]];
      i := i - 1;
    }
  }

  // ---------------------------------------------------------------------------------------
  // updateCumulativePlot
  // ---------------------------------------------------------------------------------------

  /** The colour of a line: the grey of an earlier curve, fixed by its position among the
      `total` earlier curves (the grey level itself is floating point and not modelled), or
      an RGB colour. */
  datatype Colour = Grey(index: nat, total: nat) | Rgb(r: nat, g: nat, b: nat)

  datatype Line = Line(colour: Colour, width: nat)

  /** A curve of the cumulative plot; earlier curves are restyled in place. */
  class Plot {
    const x: seq<JsValue>
    const y: seq<JsValue>
    const name: string
    var line: Option<Line>
    var mode: string

    constructor (x: seq<JsValue>, y: seq<JsValue>, name: string, line: Option<Line>, mode: string)
      ensures this.x == x && this.y == y && this.name == name && this.line == line && this.mode == mode
    {
      this.x, this.y, this.name := x, y, name;
      this.line, this.mode := line, mode;
    }
  }

  /** The updater `updateCumulativePlot(recentPlots, cb)` hands to `cb` (a state setter),
      applied to the current curves `data`: every earlier curve becomes a thin grey line
      (the same objects, restyled), followed by one new blue curve with markers for each
      recent trace. */
  method CumulativeUpdate(data: seq<Plot>, recentPlots: seq<Trace>) returns (result: seq<Plot>)
    modifies set p | p in data
    ensures |result| == |data| + |recentPlots|
    ensures result[..|data|] == data
    ensures forall k :: 0 <= k < |data| ==>
      data[k].mode == "lines" && data[k].line.Some? && data[k].line.value.width == 1 && data[k].line.value.colour.Grey? && data[k].line.value.colour.total == |data|
    ensures forall k :: 0 <= k < |data| && (forall l :: 0 <= l < |data| && l != k ==> data[l] != data[k]) ==>
      data[k].line == Some(Line(Grey(k, |data|), 1))
    ensures forall k :: 0 <= k < |recentPlots| ==>
      var p := result[|data| + k];
      fresh(p) && p.x == recentPlots[k].x && p.y == recentPlots[k].y && p.name == recentPlots[k].name
      && p.line == Some(Line(Rgb(0, 94, 245), 2)) && p.mode == "lines+markers"
  {
    var newArrayData: seq<Plot> := [];
    var totalFrames := |data|;
    var index := 0;
    while index < |data|
      invariant 0 <= index <= |data|
      invariant newArrayData == data[..index]
      invariant forall k :: 0 <= k < index ==>
        data[k].mode == "lines" && data[k].line.Some? && data[k].line.value.width == 1 && data[k].line.value.colour.Grey? && data[k].line.value.colour.total == |data|
      invariant forall k :: 0 <= k < index && (forall l :: 0 <= l < index && l != k ==> data[l] != data[k]) ==>
        data[k].line == Some(Line(Grey(k, |data|), 1))
    {
      var plot := data[index];
      plot.line := Some(Line(Grey(index, totalFrames), 1));
      plot.mode := "lines";
      newArrayData := newArrayData + [plot];
      index := index + 1;
    }
    var newestData: seq<Plot> := [];
    var k := 0;
    while k < |recentPlots|
      modifies {}
      invariant 0 <= k <= |recentPlots|
      invariant |newestData| == k
      invariant forall m :: 0 <= m < k ==>
        var p := newestData[m];
        fresh(p) && p.x == recentPlots[m].x && p.y == recentPlots[m].y && p.name == recentPlots[m].name
        && p.line == Some(Line(Rgb(0, 94, 245), 2)) && p.mode == "lines+markers"
    {
      var newPlot := new Plot(recentPlots[k].x, recentPlots[k].y, recentPlots[k].name, Some(Line(Rgb(0, 94, 245), 2)), "lines+markers");
      newestData := newestData + [newPlot];
      k := k + 1;
    }
    assert data[..|data|] == data;
    result := newArrayData + newestData;
  }
}
