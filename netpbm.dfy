/** The raster buffer of netpbm.h / netpbm.c: pixels, images allocated white,
    channel-wise recolouring with the NO_CHANGE / INVERT sentinels, filled
    rectangles, and the packed row-major RGB layout that binary PPM files use. */
module Netpbm {
  import opened Results

  /** One colour channel, an `unsigned char`. */
  type Byte = x: int | 0 <= x < 256

  datatype Pixel = Pixel(r: Byte, g: Byte, b: Byte)

  const White := Pixel(255, 255, 255)

  /** Sentinel channel arguments of setPixel. */
  const NoChange := -1
  const Invert := -2

  /** Channel c of p: 0 is red, 1 green, 2 blue. */
  function Channel(p: Pixel, c: nat): Byte
    requires c < 3
  {
    if c == 0 then p.r else if c == 1 then p.g else p.b
  }

  /** An image: `height` rows of `width` pixels, addressed [row, column].
      The C struct holds a pointer to its pixel rows, so every copy of an
      Image value shares them; a class with one pixel array models that sharing. */
  class Image {
    const height: nat
    const width: nat
    const pixels: array2<Pixel>

    predicate Valid() {
      pixels.Length0 == height && pixels.Length1 == width
    }

    /** createImage: a height x width image, every pixel white. */
    constructor (height: nat, width: nat)
      ensures Valid() && this.height == height && this.width == width && fresh(pixels)
      ensures forall i, j | 0 <= i < height && 0 <= j < width :: pixels[i, j] == White
    {
      this.height := height;
      this.width := width;
      pixels := new Pixel[height, width];
      new;
      var i := 0;
      while i < height
        invariant 0 <= i <= height
        invariant forall i', j' | 0 <= i' < i && 0 <= j' < width :: pixels[i', j'] == White
      {
        var j := 0;
        while j < width
          invariant 0 <= j <= width
          invariant forall i', j' | 0 <= i' < i && 0 <= j' < width :: pixels[i', j'] == White
          invariant forall j' | 0 <= j' < j :: pixels[i, j'] == White
        {
          pixels[i, j] := White;
          j := j + 1;
        }
        i := i + 1;
      }
    }

    /** setPixel: recolours the pixel at (vPos, hPos) when that position lies
        inside the image; every other pixel, and an outside position, is left alone. */
    method SetPixel(vPos: int, hPos: int, r: int, g: int, b: int)
      requires Valid()
      modifies pixels
      ensures forall i, j | 0 <= i < height && 0 <= j < width ::
        pixels[i, j] == if i == vPos && j == hPos then Recoloured(old(pixels[i, j]), r, g, b) else old(pixels[i, j])
    {
      if 0 <= vPos < height && 0 <= hPos < width {
        var p := pixels[vPos, hPos];
        var nr, ng, nb := p.r, p.g, p.b;
        if r == Invert {
          nr := 255 - p.r;
        } else if 0 <= r <= 255 {
          nr := r;
        }
        if g == Invert {
          ng := 255 - p.g;
        } else if 0 <= g <= 255 {
          ng := g;
        }
        if b == Invert {
          nb := 255 - p.b;
        } else if 0 <= b <= 255 {
          nb := b;
        }
        pixels[vPos, hPos] := Pixel(nr, ng, nb);
      }
    }

    /** filledRectangle: applies setPixel once to every cell of the rectangle
        spanned by the corners (v1, h1) and (v2, h2), whichever way round they are given. */
    method FilledRectangle(v1: int, h1: int, v2: int, h2: int, r: int, g: int, b: int)
      requires Valid()
      modifies pixels
      ensures forall i, j | 0 <= i < height && 0 <= j < width ::
        pixels[i, j] == if InRectangle(i, j, v1, h1, v2, h2) then Recoloured(old(pixels[i, j]), r, g, b) else old(pixels[i, j])
    {
      var m1, n1, m2, n2 := v1, h1, v2, h2;
      if v1 > v2 {
        m1, m2 := v2, v1;
      }
      if h1 > h2 {
        n1, n2 := h2, h1;
      }
      var m := m1;
      while m <= m2
        invariant m1 <= m <= m2 + 1
        invariant forall i, j | 0 <= i < height && 0 <= j < width ::
          pixels[i, j] == if m1 <= i < m && n1 <= j <= n2 then Recoloured(old(pixels[i, j]), r, g, b) else old(pixels[i, j])
      {
        var n := n1;
        while n <= n2
          invariant n1 <= n <= n2 + 1
          invariant forall i, j | 0 <= i < height && 0 <= j < width ::
            pixels[i, j] == if (m1 <= i < m && n1 <= j <= n2) || (i == m && n1 <= j < n)
                            then Recoloured(old(pixels[i, j]), r, g, b) else old(pixels[i, j])
        {
          SetPixel(m, n, r, g, b);
          n := n + 1;
        }
        m := m + 1;
      }
    }
  }

  /** The first n images are all h x w. */
  predicate SameShape(imgs: seq<Image>, n: nat, h: nat, w: nat)
    requires n <= |imgs|
  {
    forall x | 0 <= x < n :: imgs[x].Valid() && imgs[x].height == h && imgs[x].width == w
  }

  /** The pixel arrays of a list of images. */
  ghost function PixelArrays(imgs: seq<Image>): set<array2<Pixel>> {
    set x | 0 <= x < |imgs| :: imgs[x].pixels
  }

  /** The new value of a channel whose setPixel argument is arg: INVERT
      complements it, a byte value replaces it, anything else (NO_CHANGE
      among them) keeps it. */
  function UpdatedChannel(v: Byte, arg: int): (u: Byte)
    ensures arg == Invert ==> u + v == 255
    ensures 0 <= arg <= 255 ==> u == arg
    ensures arg != Invert && !(0 <= arg <= 255) ==> u == v
    ensures arg == NoChange ==> u == v
  {
    if arg == Invert then 255 - v else if 0 <= arg <= 255 then arg else v
  }

  /** The pixel setPixel writes: each channel updated on its own argument. */
  function Recoloured(p: Pixel, r: int, g: int, b: int): Pixel {
    Pixel(UpdatedChannel(p.r, r), UpdatedChannel(p.g, g), UpdatedChannel(p.b, b))
  }

  /** Recolouring twice with the same arguments: an INVERT channel is restored,
      every other channel is as after the first recolouring. */
  lemma RecolourTwice(p: Pixel, r: int, g: int, b: int)
    ensures var q := Recoloured(Recoloured(p, r, g, b), r, g, b);
      && q.r == (if r == Invert then p.r else Recoloured(p, r, g, b).r)
      && q.g == (if g == Invert then p.g else Recoloured(p, r, g, b).g)
      && q.b == (if b == Invert then p.b else Recoloured(p, r, g, b).b)
  {
  }

  /** Inverting all three channels twice gives the original pixel back. */
  lemma InvertTwiceRestores(p: Pixel)
    ensures Recoloured(Recoloured(p, Invert, Invert, Invert), Invert, Invert, Invert) == p
  {
    RecolourTwice(p, Invert, Invert, Invert);
  }

  function Min(a: int, b: int): int { if a <= b then a else b }
  function Max(a: int, b: int): int { if a <= b then b else a }

  /** Cell (i, j) lies in the closed rectangle with corners (v1, h1) and (v2, h2). */
  predicate InRectangle(i: int, j: int, v1: int, h1: int, v2: int, h2: int) {
    Min(v1, v2) <= i <= Max(v1, v2) && Min(h1, h2) <= j <= Max(h1, h2)
  }

  /** The rectangle does not depend on which corners are named first. */
  lemma RectangleCornerOrder(i: int, j: int, v1: int, h1: int, v2: int, h2: int)
    ensures InRectangle(i, j, v1, h1, v2, h2) == InRectangle(i, j, v2, h2, v1, h1)
    ensures InRectangle(i, j, v1, h1, v2, h2) == InRectangle(i, j, v1, h2, v2, h1)
  {
  }

  // ---------------------------------------------------------------------
  // The packed buffer of a binary PPM file (24 bits per pixel).

  datatype NetpbmError = InvalidFileName | InvalidSize | DataMissing | ZeroMaxValue

  /** `mapsize`: bytes per row rounded up to whole bytes, times the rows. */
  function MapSize(width: int, height: int): int {
    (24 * width + 7) / 8 * height
  }

  /** The byte at which readImage finds pixel (i, j): `mempos`. */
  function MemPos(width: int, i: int, j: int): int {
    (24 * width + 7) / 8 * i + (24 * j) / 8
  }

  /** Three bytes per pixel, row after row. */
  function Offset(width: int, i: int, j: int): int {
    3 * (i * width + j)
  }

  lemma MapSizeIsThreeBytesPerPixel(width: int, height: int)
    ensures MapSize(width, height) == 3 * width * height
  {
    assert (24 * width + 7) / 8 == 3 * width;
  }

  lemma MemPosIsOffset(width: int, i: int, j: int)
    ensures MemPos(width, i, j) == Offset(width, i, j)
  {
    assert (24 * width + 7) / 8 == 3 * width;
    assert (24 * j) / 8 == 3 * j;
  }

  lemma MulMonotone(a: int, b: int, w: nat)
    requires a <= b
    ensures a * w <= b * w
  {
  }

  /** Pixels earlier in row-major order occupy earlier byte triples, and
      every triple lies inside the buffer. */
  lemma OffsetOrder(width: nat, height: nat, i: nat, j: nat, i2: nat, j2: nat)
    requires j < width && j2 < width && i2 < height
    requires i < i2 || (i == i2 && j < j2)
    ensures Offset(width, i, j) + 3 <= Offset(width, i2, j2)
  {
    if i < i2 {
      MulMonotone(i + 1, i2, width);
    }
  }

  lemma OffsetInBuffer(width: nat, height: nat, i: nat, j: nat)
    requires i < height && j < width
    ensures 0 <= Offset(width, i, j) && Offset(width, i, j) + 3 <= 3 * width * height
  {
    MulMonotone(i + 1, height, width);
  }

  /** Bytes o, o+1, o+2 of buf hold the channels of p. */
  predicate Packed(buf: seq<Byte>, o: int, p: Pixel) {
    0 <= o && o + 2 < |buf| && buf[o] == p.r && buf[o + 1] == p.g && buf[o + 2] == p.b
  }

  /** writeImage picks the PPM format from the next-to-last character of the file name. */
  predicate ValidOutputName(filename: string) {
    |filename| >= 2 && filename[|filename| - 2] in {'p', 'P'}
  }

  /** Bytes o, o+1, o+2 of the buffer being filled hold the channels of p. */
  predicate PackedAt(buf: array<Byte>, o: int, p: Pixel)
    reads buf
  {
    0 <= o && o + 2 < buf.Length && buf[o] == p.r && buf[o + 1] == p.g && buf[o + 2] == p.b
  }

  /** Three `temp[mempos++]` writes: the channels of p at o, o+1, o+2. */
  method PutPixel(temp: array<Byte>, o: nat, p: Pixel)
    requires o + 3 <= temp.Length
    modifies temp
    ensures PackedAt(temp, o, p)
    ensures forall k | 0 <= k < temp.Length && (k < o || o + 3 <= k) :: temp[k] == old(temp[k])
  {
    temp[o] := p.r;
    temp[o + 1] := p.g;
    temp[o + 2] := p.b;
  }

  /** The inner loop of writeImage: row i's pixels, left to right, into the
      byte triples of that row; no byte outside the row changes. */
  method PackRow(temp: array<Byte>, img: Image, i: nat)
    requires img.Valid() && i < img.height && temp.Length == 3 * img.width * img.height
    modifies temp
    ensures forall j | 0 <= j < img.width :: PackedAt(temp, Offset(img.width, i, j), img.pixels[i, j])
    ensures forall k | 0 <= k < temp.Length && (k < Offset(img.width, i, 0) || Offset(img.width, i + 1, 0) <= k) ::
      temp[k] == old(temp[k])
  {
    var w := img.width;
    RowInBuffer(w, img.height, i);
    var mempos := Offset(w, i, 0);
    var j := 0;
    while j < w
      invariant 0 <= j <= w && mempos == Offset(w, i, j)
      invariant forall j' | 0 <= j' < j :: PackedAt(temp, Offset(w, i, j'), img.pixels[i, j'])
      invariant forall k | 0 <= k < temp.Length && (k < Offset(w, i, 0) || mempos <= k) :: temp[k] == old(temp[k])
    {
      PutPixel(temp, mempos, img.pixels[i, j]);
      mempos := mempos + 3;
      j := j + 1;
    }
  }

  /** Row i's triples run from Offset(w, i, 0) to Offset(w, i + 1, 0), inside the buffer. */
  lemma RowInBuffer(width: nat, height: nat, i: nat)
    requires i < height
    ensures forall j | 0 <= j <= width :: Offset(width, i, j) == Offset(width, i, 0) + 3 * j
    ensures 0 <= Offset(width, i, 0) && Offset(width, i, width) == Offset(width, i + 1, 0) <= 3 * width * height
  {
    MulMonotone(i + 1, height, width);
  }

  /** writeImage: the file name and size checks, then the packed pixel bytes
      that follow the "P6" header (`temp`, filled with `mempos++`). */
  method WriteImage(img: Image, filename: string) returns (res: Result<seq<Byte>, NetpbmError>)
    requires img.Valid()
    ensures !ValidOutputName(filename) ==> res == Failure(InvalidFileName)
    ensures ValidOutputName(filename) && (img.width == 0 || img.height == 0) ==> res == Failure(InvalidSize)
    ensures res.Success? <==> ValidOutputName(filename) && img.width > 0 && img.height > 0
    ensures res.Success? ==> |res.value| == MapSize(img.width, img.height)
    ensures res.Success? ==> forall i, j | 0 <= i < img.height && 0 <= j < img.width ::
      Packed(res.value, Offset(img.width, i, j), img.pixels[i, j])
  {
    if !ValidOutputName(filename) {
      return Failure(InvalidFileName);
    }
    if img.width <= 0 || img.height <= 0 {
      return Failure(InvalidSize);
    }
    var w, h := img.width, img.height;
    var mapsize := MapSize(w, h);
    MapSizeIsThreeBytesPerPixel(w, h);
    var temp := new Byte[mapsize];
    var i := 0;
    while i < h
      invariant 0 <= i <= h
      invariant forall i', j' | 0 <= i' < i && 0 <= j' < w :: PackedAt(temp, Offset(w, i', j'), img.pixels[i', j'])
    {
      PackRow(temp, img, i);
      forall i', j' | 0 <= i' < i && 0 <= j' < w
        ensures PackedAt(temp, Offset(w, i', j'), img.pixels[i', j'])
      {
        OffsetOrder(w, h, i', j', i, 0);
      }
      i := i + 1;
    }
    var bytes := temp[..];
    forall i, j | 0 <= i < h && 0 <= j < w ensures Packed(bytes, Offset(w, i, j), img.pixels[i, j]) {
      assert PackedAt(temp, Offset(w, i, j), img.pixels[i, j]);
    }
    res := Success(bytes);
  }

  /** C's `/` on a non-negative numerator: the quotient truncated toward zero. */
  function TruncDiv(a: nat, d: int): int
    requires d != 0
  {
    if d > 0 then a / d else -(a / -d)
  }

  /** A stored byte scaled by `255/imax` and cast to `unsigned char` (which
      keeps the value modulo 256). */
  function DecodedChannel(byte: Byte, imax: int): Byte
    requires imax != 0
  {
    TruncDiv(byte * 255, imax) % 256
  }

  /** With the maximum value 255 every byte decodes to itself. */
  lemma DecodeIdentityAt255(byte: Byte)
    ensures DecodedChannel(byte, 255) == byte
  {
  }

  /** A quotient whose numerator is at most c times the divisor is at most c. */
  lemma QuotientBound(a: nat, b: int, c: nat)
    requires b > 0 && a <= c * b
    ensures a / b <= c
  {
    var q := a / b;
    assert q * b <= a;
    assert (q - c) * b <= 0;
  }

  /** A stored byte no larger than the maximum value scales into 0..255,
      so the cast to `unsigned char` does not wrap. */
  lemma DecodedChannelInRange(byte: Byte, imax: int)
    requires 0 < imax && byte <= imax
    ensures DecodedChannel(byte, imax) == byte * 255 / imax
  {
    MulMonotone(byte, imax, 255);
    QuotientBound(byte * 255, imax, 255);
  }

  function DecodedPixel(data: seq<Byte>, o: int, imax: int): Pixel
    requires 0 <= o && o + 2 < |data| && imax != 0
  {
    Pixel(DecodedChannel(data[o], imax), DecodedChannel(data[o + 1], imax), DecodedChannel(data[o + 2], imax))
  }

  /** Every pixel's byte triple lies inside a buffer of at least MapSize bytes. */
  lemma MemPosInData(width: nat, height: nat, data: seq<Byte>)
    requires |data| >= MapSize(width, height)
    ensures forall i, j | 0 <= i < height && 0 <= j < width :: 0 <= MemPos(width, i, j) && MemPos(width, i, j) + 2 < |data|
  {
    MapSizeIsThreeBytesPerPixel(width, height);
    forall i, j | 0 <= i < height && 0 <= j < width
      ensures 0 <= MemPos(width, i, j) && MemPos(width, i, j) + 2 < |data|
    {
      MemPosIsOffset(width, i, j);
      OffsetInBuffer(width, height, i, j);
    }
  }

  /** readImage after its header: width, height and imax are the values parsed
      from the header, data the bytes that follow it. */
  method ReadImage(width: int, height: int, imax: int, data: seq<Byte>) returns (res: Result<Image, NetpbmError>)
    ensures width <= 0 || height <= 0 ==> res == Failure(InvalidSize)
    ensures width > 0 && height > 0 && |data| < MapSize(width, height) ==> res == Failure(DataMissing)
    ensures width > 0 && height > 0 && |data| >= MapSize(width, height) && imax == 0 ==> res == Failure(ZeroMaxValue)
    ensures res.Success? <==> width > 0 && height > 0 && |data| >= MapSize(width, height) && imax != 0
    ensures res.Success? ==> fresh(res.value) && fresh(res.value.pixels) && res.value.Valid()
    ensures res.Success? ==> res.value.height == height && res.value.width == width
    ensures res.Success? ==> forall i, j | 0 <= i < height && 0 <= j < width ::
      MemPos(width, i, j) + 2 < |data| && res.value.pixels[i, j] == DecodedPixel(data, MemPos(width, i, j), imax)
  {
    if width <= 0 || height <= 0 {
      return Failure(InvalidSize);
    }
    var mapsize := MapSize(width, height);
    if |data| < mapsize {
      return Failure(DataMissing);
    }
    if imax == 0 {
      return Failure(ZeroMaxValue);
    }
    MemPosInData(width, height, data);
    var img := new Image(height, width);
    var i := 0;
    while i < height
      invariant 0 <= i <= height
      invariant forall i', j' | 0 <= i' < i && 0 <= j' < width ::
        img.pixels[i', j'] == DecodedPixel(data, MemPos(width, i', j'), imax)
    {
      var j := 0;
      while j < width
        invariant 0 <= j <= width
        invariant forall i', j' | 0 <= i' < i && 0 <= j' < width ::
          img.pixels[i', j'] == DecodedPixel(data, MemPos(width, i', j'), imax)
        invariant forall j' | 0 <= j' < j :: img.pixels[i, j'] == DecodedPixel(data, MemPos(width, i, j'), imax)
      {
        var mempos := MemPos(width, i, j);
        img.pixels[i, j] := Pixel(DecodedChannel(data[mempos], imax),
                                  DecodedChannel(data[mempos + 1], imax),
                                  DecodedChannel(data[mempos + 2], imax));
        j := j + 1;
      }
      i := i + 1;
    }
    res := Success(img);
  }

  /** Reading back, with maximum value 255, the bytes writeImage packs gives
      the original pixels. */
  method WriteThenRead(img: Image, filename: string) returns (back: Result<Image, NetpbmError>)
    requires img.Valid()
    ensures back.Success? <==> ValidOutputName(filename) && img.height > 0 && img.width > 0
    ensures back.Success? ==> back.value.Valid() && back.value.height == img.height && back.value.width == img.width
    ensures back.Success? ==> forall i, j | 0 <= i < img.height && 0 <= j < img.width ::
      back.value.pixels[i, j] == img.pixels[i, j]
  {
    var written := WriteImage(img, filename);
    if written.Failure? {
      return Failure(written.error);
    }
    back := ReadImage(img.width, img.height, 255, written.value);
    if back.Success? {
      forall i, j | 0 <= i < img.height && 0 <= j < img.width
        ensures back.value.pixels[i, j] == img.pixels[i, j]
      {
        MemPosIsOffset(img.width, i, j);
        var p := img.pixels[i, j];
        DecodeIdentityAt255(p.r);
        DecodeIdentityAt255(p.g);
        DecodeIdentityAt255(p.b);
      }
    }
  }
}
