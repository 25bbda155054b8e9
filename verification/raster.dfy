/**
  `_image_to_escpos_raster` in ble_printer.py: a 1-bit image becomes a
  GS v 0 raster command.  Each row takes (width + 7) / 8 bytes, the
  leftmost pixel in the most significant bit, and a set bit prints a dot
  (a black pixel, value 0 in mode "1").
*/
module Raster {
  import opened Bytes

  /** The default `max_width`: 384 dots, the printable width of a 58 mm head. */
  const MaxWidth: nat := 384

  /** An image in mode "1" as `getdata()` lists it: row by row, 0 for black. */
  datatype Bitmap = Bitmap(width: nat, height: nat, pixels: seq<int>)
  {
    predicate Valid() { |pixels| == width * height }
  }

  /** Multiplying by w keeps the order. */
  lemma {:induction false} MulMono(a: nat, b: nat, w: nat)
    requires a <= b
    ensures a * w <= b * w
  {
    if w > 0 {
      MulMono(a, b, w - 1);
      assert a * w == a * (w - 1) + a;
      assert b * w == b * (w - 1) + b;
    }
  }

  lemma RowMajorIndex(x: nat, y: nat, w: nat, h: nat)
    requires x < w && y < h
    ensures y * w + x < w * h
  {
    MulMono(y + 1, h, w);
    assert (y + 1) * w == y * w + w;
    assert h * w == w * h;
  }

  /** The value of pixel (x, y). */
  function Pixel(img: Bitmap, x: nat, y: nat): int
    requires img.Valid() && x < img.width && y < img.height
  {
    RowMajorIndex(x, y, img.width, img.height);
    img.pixels[y * img.width + x]
  }

  predicate IsBlack(img: Bitmap, x: nat, y: nat)
    requires img.Valid() && x < img.width && y < img.height
  {
    Pixel(img, x, y) == 0
  }

  function BytesPerLine(width: nat): nat { (width + 7) / 8 }

  /** `0x80 >> bit` when column xb * 8 + bit of row y lies in the image and is black, else 0. */
  function BitMask(img: Bitmap, y: nat, xb: nat, bit: nat): bv8
    requires img.Valid() && y < img.height && bit < 8
  {
    var x := xb * 8 + bit;
    if x < img.width && IsBlack(img, x, y) then (0x80 as bv8) >> bit else 0
  }

  /** The byte after the first n of its eight bits have been considered. */
  function PackBits(img: Bitmap, y: nat, xb: nat, n: nat): bv8
    requires img.Valid() && y < img.height && n <= 8
  {
    if n == 0 then 0 else PackBits(img, y, xb, n - 1) | BitMask(img, y, xb, n - 1)
  }

  /** Data byte xb of row y. */
  function PackedByte(img: Bitmap, y: nat, xb: nat): bv8
    requires img.Valid() && y < img.height
  {
    PackBits(img, y, xb, 8)
  }

  /** Bit k of a partly packed byte is set iff it was considered and its pixel is a black one inside the image. */
  lemma {:induction false} PackBitsBit(img: Bitmap, y: nat, xb: nat, n: nat, k: nat)
    requires img.Valid() && y < img.height && n <= 8 && k < 8
    ensures (PackBits(img, y, xb, n) & ((0x80 as bv8) >> k) != 0)
        <==> (k < n && xb * 8 + k < img.width && IsBlack(img, xb * 8 + k, y))
  {
    if n > 0 {
      PackBitsBit(img, y, xb, n - 1, k);
      var m: bv8 := BitMask(img, y, xb, n - 1);
      var j := n - 1;
      assert m == 0 || m == (0x80 as bv8) >> j;
      MaskDistinct(j, k);
    }
  }

  /** Two single-bit masks overlap exactly when they are the same bit. */
  lemma MaskDistinct(j: nat, k: nat)
    requires j < 8 && k < 8
    ensures (((0x80 as bv8) >> j) & ((0x80 as bv8) >> k) != 0) <==> j == k
  {
  }

  /** Data byte xb of row y, as the integer `raster_data` holds. */
  function ByteAt(img: Bitmap, y: nat, xb: nat): byte
    requires img.Valid() && y < img.height
  {
    PackedByte(img, y, xb) as int
  }

  /** The bytes of row y. */
  function Row(img: Bitmap, y: nat): (r: seq<byte>)
    requires img.Valid() && y < img.height
    ensures |r| == BytesPerLine(img.width)
  {
    seq(BytesPerLine(img.width), xb requires 0 <= xb => ByteAt(img, y, xb))
  }

  /** The bytes of the first n rows. */
  function Rows(img: Bitmap, n: nat): seq<byte>
    requires img.Valid() && n <= img.height
  {
    if n == 0 then [] else Rows(img, n - 1) + Row(img, n - 1)
  }

  /** `GS v 0 m xL xH yL yH` with mode 0; `& 0xFF` and `>> 8` written as remainder and quotient. */
  function Header(bytesPerLine: nat, height: nat): seq<byte>
  {
    [0x1D, 0x76, 0x30, 0x00,
     bytesPerLine % 256, (bytesPerLine / 256) % 256,
     height % 256, (height / 256) % 256]
  }

  /** The whole raster command for an image. */
  function RasterCommand(img: Bitmap): seq<byte>
    requires img.Valid()
  {
    Header(BytesPerLine(img.width), img.height) + Rows(img, img.height)
  }

  lemma {:induction false} RowsLength(img: Bitmap, n: nat)
    requires img.Valid() && n <= img.height
    ensures |Rows(img, n)| == n * BytesPerLine(img.width)
  {
    if n > 0 {
      RowsLength(img, n - 1);
      assert (n - 1) * BytesPerLine(img.width) + BytesPerLine(img.width) == n * BytesPerLine(img.width);
    }
  }

  /** The position of data byte xb of row y among the data bytes: y full rows come first. */
  function RowOffset(img: Bitmap, y: nat, xb: nat): nat
  {
    y * BytesPerLine(img.width) + xb
  }

  /** Byte y * bpl + xb of the data is data byte xb of row y. */
  lemma {:induction false} RowsAt(img: Bitmap, n: nat, y: nat, xb: nat)
    requires img.Valid() && n <= img.height && y < n && xb < BytesPerLine(img.width)
    ensures RowOffset(img, y, xb) < |Rows(img, n)|
    ensures Rows(img, n)[RowOffset(img, y, xb)] == ByteAt(img, y, xb)
  {
    var bpl := BytesPerLine(img.width);
    var i := RowOffset(img, y, xb);
    RowsLength(img, n - 1);
    var prev := Rows(img, n - 1);
    assert Rows(img, n) == prev + Row(img, n - 1);
    if y == n - 1 {
      assert i == |prev| + xb;
      assert Rows(img, n)[i] == Row(img, y)[xb];
    } else {
      RowsAt(img, n - 1, y, xb);
      assert i < |prev|;
    }
  }

  /** The command is the 8-byte header and height × bytes-per-line data bytes. */
  lemma RasterLength(img: Bitmap)
    requires img.Valid()
    ensures |RasterCommand(img)| == 8 + img.height * BytesPerLine(img.width)
  {
    RowsLength(img, img.height);
  }

  /** Below 65536 the header's little-endian pairs give back bytes-per-line and height. */
  lemma HeaderFields(img: Bitmap)
    requires img.Valid()
    requires BytesPerLine(img.width) < 65536 && img.height < 65536
    ensures RasterCommand(img)[..4] == [0x1D, 0x76, 0x30, 0x00]
    ensures RasterCommand(img)[4] as int + 256 * RasterCommand(img)[5] as int == BytesPerLine(img.width)
    ensures RasterCommand(img)[6] as int + 256 * RasterCommand(img)[7] as int == img.height
  {
  }

  /** Bit `0x80 >> k` of byte b, the k-th pixel from the left. */
  predicate BitSet(b: byte, k: nat)
    requires k < 8
  {
    (b as bv8) & ((0x80 as bv8) >> k) != 0
  }

  lemma ByteAtBits(img: Bitmap, y: nat, xb: nat, k: nat)
    requires img.Valid() && y < img.height && k < 8
    ensures BitSet(ByteAt(img, y, xb), k) <==> (PackedByte(img, y, xb) & ((0x80 as bv8) >> k) != 0)
  {
    var b := PackedByte(img, y, xb);
    IntRoundTrip(b);
  }

  lemma IntRoundTrip(b: bv8)
    ensures (b as int) as bv8 == b
  {
  }

  /** Where data byte xb of row y sits in the command: after the header and y full rows. */
  function DataIndex(img: Bitmap, y: nat, xb: nat): nat
  {
    8 + RowOffset(img, y, xb)
  }

  lemma CommandAt(img: Bitmap, y: nat, xb: nat)
    requires img.Valid() && y < img.height && xb < BytesPerLine(img.width)
    ensures DataIndex(img, y, xb) < |RasterCommand(img)|
    ensures RasterCommand(img)[DataIndex(img, y, xb)] == ByteAt(img, y, xb)
  {
    var rows := Rows(img, img.height);
    RowsAt(img, img.height, y, xb);
    AfterHeader(Header(BytesPerLine(img.width), img.height), rows, RowOffset(img, y, xb));
  }

  lemma AfterHeader(h: seq<byte>, rows: seq<byte>, i: nat)
    requires |h| == 8 && i < |rows|
    ensures 8 + i < |h + rows| && (h + rows)[8 + i] == rows[i]
  {
  }


  /** Pixel (x, y) prints, bit 0x80 >> (x % 8) of its data byte being set, exactly when it is black. */
  lemma RasterPixel(img: Bitmap, x: nat, y: nat)
    requires img.Valid() && x < img.width && y < img.height
    ensures DataIndex(img, y, x / 8) < |RasterCommand(img)|
    ensures BitSet(RasterCommand(img)[DataIndex(img, y, x / 8)], x % 8) <==> IsBlack(img, x, y)
  {
    var xb := x / 8;
    var k := x % 8;
    assert xb * 8 + k == x;
    assert xb < BytesPerLine(img.width);
    CommandAt(img, y, xb);
    ByteAtBits(img, y, xb, k);
    PackBitsBit(img, y, xb, 8, k);
  }

  /** Bits past the right edge of the image are never set. */
  lemma RasterPadding(img: Bitmap, y: nat, xb: nat, k: nat)
    requires img.Valid() && y < img.height && xb < BytesPerLine(img.width) && k < 8
    requires xb * 8 + k >= img.width
    ensures DataIndex(img, y, xb) < |RasterCommand(img)|
    ensures !BitSet(RasterCommand(img)[DataIndex(img, y, xb)], k)
  {
    CommandAt(img, y, xb);
    ByteAtBits(img, y, xb, k);
    PackBitsBit(img, y, xb, 8, k);
  }

  /** Eight black pixels pack to 0xFF, eight white ones to 0x00. */
  lemma FullByte(img: Bitmap, y: nat, xb: nat)
    requires img.Valid() && y < img.height && xb * 8 + 8 <= img.width
    ensures (forall x :: xb * 8 <= x < xb * 8 + 8 ==> IsBlack(img, x, y)) ==> PackedByte(img, y, xb) == 0xFF
    ensures (forall x :: xb * 8 <= x < xb * 8 + 8 ==> !IsBlack(img, x, y)) ==> PackedByte(img, y, xb) == 0x00
  {
    var b := PackedByte(img, y, xb);
    PackBitsBit(img, y, xb, 8, 0);
    PackBitsBit(img, y, xb, 8, 1);
    PackBitsBit(img, y, xb, 8, 2);
    PackBitsBit(img, y, xb, 8, 3);
    PackBitsBit(img, y, xb, 8, 4);
    PackBitsBit(img, y, xb, 8, 5);
    PackBitsBit(img, y, xb, 8, 6);
    PackBitsBit(img, y, xb, 8, 7);
  }

  /** An all-black 8 × 1 image gives the header for one byte per line and one row, then 0xFF. */
  lemma BlackStrip(img: Bitmap)
    requires img.Valid() && img.width == 8 && img.height == 1
    requires forall i :: 0 <= i < 8 ==> img.pixels[i] == 0
    ensures RasterCommand(img) == [0x1D, 0x76, 0x30, 0x00, 1, 0, 1, 0, 0xFF]
  {
    assert forall x :: 0 <= x < 8 ==> IsBlack(img, x, 0);
    FullByte(img, 0, 0);
    RasterLength(img);
    CommandAt(img, 0, 0);
    var c := RasterCommand(img);
    assert c[..8] == Header(1, 1);
    assert c[8] == 0xFF;
  }

  /** An all-white 8 × 1 image gives the same header, then 0x00. */
  lemma WhiteStrip(img: Bitmap)
    requires img.Valid() && img.width == 8 && img.height == 1
    requires forall i :: 0 <= i < 8 ==> img.pixels[i] != 0
    ensures RasterCommand(img) == [0x1D, 0x76, 0x30, 0x00, 1, 0, 1, 0, 0x00]
  {
    assert forall x :: 0 <= x < 8 ==> !IsBlack(img, x, 0);
    FullByte(img, 0, 0);
    RasterLength(img);
    CommandAt(img, 0, 0);
    var c := RasterCommand(img);
    assert c[..8] == Header(1, 1);
    assert c[8] == 0x00;
  }

  /** `_image_to_escpos_raster` scales an image wider than `maxWidth` to exactly `maxWidth`; `resized` is what the image library returns then. */
  function Prepare(image: Bitmap, maxWidth: nat, resized: Bitmap): (r: Bitmap)
    requires image.Valid()
    requires image.width > maxWidth ==> resized.Valid() && resized.width == maxWidth
    ensures r.Valid()
    ensures r.width == if image.width > maxWidth then maxWidth else image.width
    ensures image.width <= maxWidth ==> r == image
  {
    if image.width > maxWidth then resized else image
  }

  /** So a packed row is never wider than (maxWidth + 7) / 8 bytes. */
  lemma PreparedWidth(image: Bitmap, maxWidth: nat, resized: Bitmap)
    requires image.Valid()
    requires image.width > maxWidth ==> resized.Valid() && resized.width == maxWidth
    ensures BytesPerLine(Prepare(image, maxWidth, resized).width) <= BytesPerLine(maxWidth)
  {
  }

  lemma PackStep(img: Bitmap, y: nat, xb: nat, bit: nat, before: bv8, after: bv8)
    requires img.Valid() && y < img.height && bit < 8
    requires before == PackBits(img, y, xb, bit)
    requires after == before | BitMask(img, y, xb, bit)
    ensures after == PackBits(img, y, xb, bit + 1)
  {
  }


  lemma AppendByte(img: Bitmap, y: nat, xb: nat, b: bv8)
    requires img.Valid() && y < img.height && xb < BytesPerLine(img.width)
    requires b == PackBits(img, y, xb, 8)
    ensures Row(img, y)[..xb + 1] == Row(img, y)[..xb] + [b as int]
  {
    assert Row(img, y)[xb] == ByteAt(img, y, xb);
  }

  /** The innermost loop of `_image_to_escpos_raster`: the eight bits of byte `xByte` of row y, most significant first. */
  method PackByte(img: Bitmap, y: nat, xByte: nat) returns (byteVal: bv8)
    requires img.Valid() && y < img.height
    ensures byteVal == PackBits(img, y, xByte, 8)
  {
    var width := img.width;
    var pixels := img.pixels;
    byteVal := 0;
    for bit := 0 to 8
      invariant byteVal == PackBits(img, y, xByte, bit)
    {
      var x := xByte * 8 + bit;
      ghost var before := byteVal;
      if x < width {
        RowMajorIndex(x, y, width, img.height);
        var pixelIndex := y * width + x;
        assert pixels[pixelIndex] == Pixel(img, x, y);
        if pixels[pixelIndex] == 0 {
          byteVal := byteVal | ((0x80 as bv8) >> bit);
        }
      }
      assert byteVal == before | BitMask(img, y, xByte, bit);
      PackStep(img, y, xByte, bit, before, byteVal);
    }
  }

  /** Rows grow one row at a time. */
  lemma RowsSnoc(img: Bitmap, y: nat)
    requires img.Valid() && y < img.height
    ensures Rows(img, y + 1) == Rows(img, y) + Row(img, y)
  {
  }

  /** `_image_to_escpos_raster(image, max_width)`: the nested packing loops and the header. */
  method ImageToRaster(image: Bitmap, maxWidth: nat, resized: Bitmap) returns (out: seq<byte>)
    requires image.Valid()
    requires image.width > maxWidth ==> resized.Valid() && resized.width == maxWidth
    ensures out == RasterCommand(Prepare(image, maxWidth, resized))
  {
    var img := image;
    if image.width > maxWidth {
      img := resized;
    }
    var width := img.width;
    var height := img.height;
    var bytesPerLine := (width + 7) / 8;
    var rasterData: seq<byte> := [];
    for y := 0 to height
      invariant rasterData == Rows(img, y)
    {
      ghost var done := rasterData;
      for xByte := 0 to bytesPerLine
        invariant rasterData == done + Row(img, y)[..xByte]
      {
        var byteVal := PackByte(img, y, xByte);
        AppendByte(img, y, xByte, byteVal);
        rasterData := rasterData + [byteVal as int];
      }
      assert Row(img, y)[..bytesPerLine] == Row(img, y);
      RowsSnoc(img, y);
    }
    var xL := bytesPerLine % 256;
    var xH := (bytesPerLine / 256) % 256;
    var yL := height % 256;
    var yH := (height / 256) % 256;
    var command := [0x1D, 0x76, 0x30, 0x00, xL, xH, yL, yH];
    out := command + rasterData;
  }
}
