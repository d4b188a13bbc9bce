/** Turning a rasterised glyph into an RGBA texture and its metrics.
    The font library calls that render the glyph are not modelled: their result, the
    single-channel coverage bitmap and the glyph's `bitmap_top`, is the input here. */
module Text {

  newtype byte = b: int | 0 <= b < 256

  /** A rendered glyph bitmap: one coverage byte per pixel, `width` pixels per row,
      `rows` rows, the top row first. */
  datatype Bitmap = Bitmap(buffer: seq<byte>, width: nat, rows: nat)

  /** What `load_char` returns: the RGBA pixels (bottom row first), width, height and
      the distance from the baseline down to the bottom of the bitmap. */
  datatype Glyph = Glyph(figure: seq<byte>, width: int, height: int, offset: int)

  /** Reading the coverage buffer past its end, which panics in the source. */
  datatype LoadError = IndexOutOfBounds(index: nat, length: nat)

  datatype Result<T> = Ok(value: T) | Err(error: LoadError)

  datatype Option<T> = None | Some(value: T)

  /** One coverage byte as an RGBA pixel: the byte in all four channels. */
  function Pixel(b: byte): seq<byte>
  {
    [b, b, b, b]
  }

  /** The RGBA pixels of the `n` coverage bytes starting at `start`, left to right. */
  function RowPixels(buf: seq<byte>, start: nat, n: nat): (r: seq<byte>)
    requires n == 0 || start + n <= |buf|
    ensures n > 0 ==> forall b <- r :: b in buf[start..start + n]
  {
    if n == 0 then [] else RowPixels(buf, start, n - 1) + Pixel(buf[start + n - 1])
  }

  /** Where the input row shown as output row `k` starts: row `rows - k - 1`, since the
      output runs bottom-up. */
  function RowStart(w: nat, rows: nat, k: nat): int
  {
    (rows - k - 1) * w
  }

  /** The first `j` rows of the RGBA texture: output row `k` is input row `rows - k - 1`. */
  function Flipped(buf: seq<byte>, w: nat, rows: nat, j: nat): (r: seq<byte>)
    requires j <= rows && w * rows <= |buf|
    ensures forall b <- r :: b in buf[..w * rows]
  {
    if j == 0 then []
    else
      SourceRowInBounds(w, rows, j - 1);
      Flipped(buf, w, rows, j - 1) + RowPixels(buf, RowStart(w, rows, j - 1), w)
  }

  /** Input row `rows - k - 1`, read for output row `k`, lies inside a bitmap of `w * rows`
      bytes, and the one read first ends exactly where the bitmap does. */
  lemma SourceRowInBounds(w: nat, rows: nat, k: nat)
    requires k < rows
    ensures 0 <= RowStart(w, rows, k) && RowStart(w, rows, k) + w <= w * rows
    ensures k == 0 ==> RowStart(w, rows, k) + w == w * rows
  {
    var x: nat := rows - k - 1;
    assert 0 <= x * w by {
      MulNonNegative(x, w);
    }
    assert x * w + w == (x + 1) * w by {
      Distribute(x, 1, w);
    }
    assert (x + 1) * w + k * w == w * rows && 0 <= k * w by {
      Distribute(x + 1, k, w);
      MulNonNegative(k, w);
    }
  }

  lemma MulNonNegative(a: nat, b: nat)
    ensures 0 <= a * b
  {
  }

  lemma Distribute(a: int, b: int, w: int)
    ensures (a + b) * w == a * w + b * w
  {
  }

  /** Every index the conversion reads lies inside a bitmap of `w * rows` bytes. */
  lemma ReadIndexInBounds(w: nat, rows: nat, j: nat, i: nat)
    requires j < rows && i < w
    ensures 0 <= SourceIndex(w, rows, j, i) < w * rows
  {
    SourceRowInBounds(w, rows, j);
  }

  /** Where channel `c` of the pixel in output row `j`, column `i` sits in the RGBA buffer. */
  function OutputIndex(w: nat, j: nat, i: nat, c: nat): nat
  {
    4 * (j * w + i) + c
  }

  /** The coverage byte that pixel comes from: column `i` of input row `rows - j - 1`. */
  function SourceIndex(w: nat, rows: nat, j: nat, i: nat): int
  {
    RowStart(w, rows, j) + i
  }

  /** The pixel at row `j`, column `i` follows the `j` complete rows above it and lies within row `j`. */
  lemma OutputIndexInRow(w: nat, rows: nat, j: nat, i: nat, c: nat)
    requires j < rows && i < w && c < 4
    ensures OutputIndex(w, j, i, c) == 4 * w * j + (4 * i + c)
    ensures 4 * w * j + (4 * i + c) < 4 * w * (j + 1) <= 4 * w * rows
  {
    assert 4 * (j * w + i) == 4 * (j * w) + 4 * i;
    assert 4 * (j * w) == 4 * w * j;
    assert 4 * w * (j + 1) == 4 * w * j + 4 * w;
    var d: nat := rows - j - 1;
    assert rows == (j + 1) + d;
    assert 4 * w * rows == 4 * w * (j + 1) + 4 * w * d;
  }

  lemma {:induction false} RowPixelsAt(buf: seq<byte>, start: nat, n: nat, i: nat, c: nat)
    requires n == 0 || start + n <= |buf|
    requires i < n && c < 4
    ensures |RowPixels(buf, start, n)| == 4 * n
    ensures RowPixels(buf, start, n)[4 * i + c] == buf[start + i]
  {
    RowPixelsLength(buf, start, n - 1);
    if i < n - 1 {
      RowPixelsAt(buf, start, n - 1, i, c);
    }
  }

  lemma {:induction false} RowPixelsLength(buf: seq<byte>, start: nat, n: nat)
    requires n == 0 || start + n <= |buf|
    ensures |RowPixels(buf, start, n)| == 4 * n
  {
    if n > 0 {
      RowPixelsLength(buf, start, n - 1);
    }
  }

  lemma {:induction false} FlippedLength(buf: seq<byte>, w: nat, rows: nat, j: nat)
    requires j <= rows && w * rows <= |buf|
    ensures |Flipped(buf, w, rows, j)| == 4 * w * j
  {
    if j > 0 {
      var k := j - 1;
      var start := RowStart(w, rows, k);
      assert |RowPixels(buf, start, w)| == 4 * w by {
        SourceRowInBounds(w, rows, k);
        RowPixelsLength(buf, start, w);
      }
      assert |Flipped(buf, w, rows, j)| == |Flipped(buf, w, rows, k)| + |RowPixels(buf, start, w)|;
      FlippedLength(buf, w, rows, k);
      assert 4 * w * k + 4 * w == 4 * w * j by {
        MulStep(4 * w, k);
      }
    }
  }

  lemma MulStep(a: int, k: int)
    ensures a * k + a == a * (k + 1)
  {
  }

  /** The first `j` output rows are a prefix of the first `m` ones. */
  lemma {:induction false} FlippedPrefix(buf: seq<byte>, w: nat, rows: nat, j: nat, m: nat)
    requires j <= m <= rows && w * rows <= |buf|
    ensures |Flipped(buf, w, rows, j)| <= |Flipped(buf, w, rows, m)|
    ensures Flipped(buf, w, rows, m)[..|Flipped(buf, w, rows, j)|] == Flipped(buf, w, rows, j)
    decreases m - j
  {
    if j < m {
      FlippedPrefix(buf, w, rows, j, m - 1);
    }
  }

  /** Within output row `j`, channel `c` of column `i` is coverage byte `i` of input row `rows - j - 1`. */
  lemma LastRowAt(buf: seq<byte>, w: nat, rows: nat, j: nat, i: nat, c: nat)
    requires w * rows <= |buf| && j < rows && i < w && c < 4
    ensures OutputIndex(w, j, i, c) < |Flipped(buf, w, rows, j + 1)|
    ensures 0 <= SourceIndex(w, rows, j, i) < |buf|
    ensures Flipped(buf, w, rows, j + 1)[OutputIndex(w, j, i, c)] == buf[SourceIndex(w, rows, j, i)]
  {
    var start := RowStart(w, rows, j);
    FlippedStep(buf, w, rows, j);
    var before, row := Flipped(buf, w, rows, j), RowPixels(buf, start, w);
    OutputIndexAfterRows(buf, w, rows, j, i, c);
    RowPixelsAt(buf, start, w, i, c);
    ConcatAt(before, row, Flipped(buf, w, rows, j + 1), OutputIndex(w, j, i, c), 4 * i + c);
  }

  /** The pixel at row `j`, column `i` comes right after the first `j` output rows, at offset `4 * i + c`. */
  lemma OutputIndexAfterRows(buf: seq<byte>, w: nat, rows: nat, j: nat, i: nat, c: nat)
    requires w * rows <= |buf| && j < rows && i < w && c < 4
    ensures OutputIndex(w, j, i, c) == |Flipped(buf, w, rows, j)| + (4 * i + c)
  {
    FlippedLength(buf, w, rows, j);
    OutputIndexInRow(w, rows, j, i, c);
  }

  /** Output row `j` follows the rows before it. */
  lemma FlippedStep(buf: seq<byte>, w: nat, rows: nat, j: nat)
    requires w * rows <= |buf| && j < rows
    ensures 0 <= RowStart(w, rows, j) && RowStart(w, rows, j) + w <= |buf|
    ensures Flipped(buf, w, rows, j + 1) == Flipped(buf, w, rows, j) + RowPixels(buf, RowStart(w, rows, j), w)
  {
    SourceRowInBounds(w, rows, j);
  }

  lemma ConcatAt(before: seq<byte>, row: seq<byte>, whole: seq<byte>, at: nat, k: nat)
    requires whole == before + row && at == |before| + k && k < |row|
    ensures at < |whole| && whole[at] == row[k]
  {
  }

  /** Channel `c` of output pixel (row `j`, column `i`) is coverage byte `(rows - j - 1) * w + i`. */
  lemma FlippedAt(buf: seq<byte>, w: nat, rows: nat, j: nat, i: nat, c: nat)
    requires w * rows <= |buf| && j < rows && i < w && c < 4
    ensures OutputIndex(w, j, i, c) < |Flipped(buf, w, rows, rows)|
    ensures 0 <= SourceIndex(w, rows, j, i) < |buf|
    ensures Flipped(buf, w, rows, rows)[OutputIndex(w, j, i, c)] == buf[SourceIndex(w, rows, j, i)]
  {
    LastRowAt(buf, w, rows, j, i, c);
    FlippedPrefix(buf, w, rows, j + 1, rows);
    PrefixAt(Flipped(buf, w, rows, rows), Flipped(buf, w, rows, j + 1), OutputIndex(w, j, i, c));
  }

  lemma PrefixAt(s: seq<byte>, prefix: seq<byte>, k: nat)
    requires |prefix| <= |s| && s[..|prefix|] == prefix && k < |prefix|
    ensures s[k] == prefix[k]
  {
    assert s[..|prefix|][k] == s[k];
  }

  /** The RGBA buffer is exactly `4 * width * rows` bytes; output row `j` holds input row
      `rows - j - 1`, left to right, each coverage byte repeated in all four channels. */
  lemma GlyphPixels(buf: seq<byte>, w: nat, rows: nat)
    requires w * rows <= |buf|
    ensures |Flipped(buf, w, rows, rows)| == 4 * w * rows
    ensures forall j: nat, i: nat, c: nat :: j < rows && i < w && c < 4 ==>
      OutputIndex(w, j, i, c) < |Flipped(buf, w, rows, rows)| &&
      0 <= SourceIndex(w, rows, j, i) < |buf| &&
      Flipped(buf, w, rows, rows)[OutputIndex(w, j, i, c)] == buf[SourceIndex(w, rows, j, i)]
  {
    FlippedLength(buf, w, rows, rows);
    forall j: nat, i: nat, c: nat | j < rows && i < w && c < 4
      ensures OutputIndex(w, j, i, c) < |Flipped(buf, w, rows, rows)|
      ensures 0 <= SourceIndex(w, rows, j, i) < |buf|
      ensures Flipped(buf, w, rows, rows)[OutputIndex(w, j, i, c)] == buf[SourceIndex(w, rows, j, i)]
    {
      FlippedAt(buf, w, rows, j, i, c);
    }
  }

  /** All four channels of every output pixel hold the same byte. */
  lemma ChannelsEqual(buf: seq<byte>, w: nat, rows: nat, j: nat, i: nat)
    requires w * rows <= |buf| && j < rows && i < w
    ensures var f, p := Flipped(buf, w, rows, rows), OutputIndex(w, j, i, 0);
      p + 3 < |f| && f[p] == f[p + 1] == f[p + 2] == f[p + 3]
  {
    FlippedAt(buf, w, rows, j, i, 0);
    FlippedAt(buf, w, rows, j, i, 1);
    FlippedAt(buf, w, rows, j, i, 2);
    FlippedAt(buf, w, rows, j, i, 3);
  }

  /** Pixels are emitted row by row and left to right within a row: every channel of an
      earlier pixel comes before every channel of a later one. */
  lemma EmissionOrder(w: nat, j: nat, i: nat, j': nat, i': nat, c: nat, c': nat)
    requires i < w && i' < w && c < 4 && c' < 4
    requires j < j' || (j == j' && i < i')
    ensures OutputIndex(w, j, i, c) < OutputIndex(w, j', i', c')
  {
    if j < j' {
      assert j * w + w <= j' * w by {
        Distribute(j, 1, w);
        Distribute(j + 1, j' - j - 1, w);
        MulNonNegative(j' - j - 1, w);
      }
    }
  }

  /** A bitmap with no columns or no rows, such as a space, gives no pixels. */
  lemma EmptyBitmap(buf: seq<byte>, w: nat, rows: nat)
    requires w == 0 || rows == 0
    ensures Flipped(buf, w, rows, rows) == []
  {
    FlippedLength(buf, w, rows, rows);
  }

  /** The two inner loops of `load_char`: append the pixels of the `w` coverage bytes
      starting at `rowStart`, reading each byte once per channel. Reading past the end of
      the buffer stops the row and reports the index read. */
  method AppendRow(buf: seq<byte>, rowStart: nat, w: nat, figure: seq<byte>)
    returns (out: seq<byte>, failedAt: Option<nat>)
    ensures failedAt.None? <==> w == 0 || rowStart + w <= |buf|
    ensures failedAt.Some? ==> |buf| <= failedAt.value < rowStart + w && rowStart <= failedAt.value
    ensures failedAt.Some? ==> failedAt.value == if rowStart < |buf| then |buf| else rowStart
    ensures failedAt.None? ==> out == figure + RowPixels(buf, rowStart, w)
  {
    out := figure;
    for i := 0 to w
      invariant 0 < i ==> rowStart + i <= |buf|
      invariant out == figure + RowPixels(buf, rowStart, i)
    {
      ghost var before := out;
      for k := 0 to 4
        invariant k == 0 ==> out == before
        invariant 0 < k ==> rowStart + i < |buf| && out == before + Pixel(buf[rowStart + i])[..k]
      {
        var index := rowStart + i;
        if index >= |buf| {
          return out, Some(index);
        }
        out := out + [buf[index]];
      }
    }
    failedAt := None;
  }

  /** `load_char` after the glyph is rendered: replicate each coverage byte into four
      channels, emit the rows bottom-up, and report width, height and baseline offset. */
  method LoadChar(bitmap: Bitmap, bitmapTop: int) returns (r: Result<Glyph>)
    ensures r.Err? <==> |bitmap.buffer| < bitmap.width * bitmap.rows
    ensures r.Err? ==> r.error.length == |bitmap.buffer| <= r.error.index < bitmap.width * bitmap.rows
    ensures r.Err? ==> var first := (bitmap.rows - 1) * bitmap.width;
      r.error.index == if first < |bitmap.buffer| then |bitmap.buffer| else first
    ensures r.Ok? ==> r.value.figure == Flipped(bitmap.buffer, bitmap.width, bitmap.rows, bitmap.rows)
    ensures r.Ok? ==> r.value.width == bitmap.width && r.value.height == bitmap.rows
    ensures r.Ok? ==> r.value.offset == bitmap.rows - bitmapTop
  {
    var buf := bitmap.buffer;
    var figure: seq<byte> := [];
    var w := bitmap.width;
    var yMax := bitmap.rows;

    for j := 0 to yMax
      invariant j == 0 ==> figure == []
      invariant 0 < j ==> w * yMax <= |buf| && figure == Flipped(buf, w, yMax, j)
    {
      SourceRowInBounds(w, yMax, j);
      var rowStart: nat := (yMax - j - 1) * w;
      var failedAt;
      figure, failedAt := AppendRow(buf, rowStart, w, figure);
      if failedAt.Some? {
        return Err(IndexOutOfBounds(failedAt.value, |buf|));
      }
    }

    var width := bitmap.width;
    var height := bitmap.rows;
    var offset := bitmap.rows - bitmapTop;
    return Ok(Glyph(figure, width, height, offset));
  }
}
