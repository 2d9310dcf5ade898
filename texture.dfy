/** Pixel buffers: textures, the rectangular patches cut out of them, and
    the square cube-map faces the patches are pasted onto. */
module Textures {
  import opened Geometry
  import opened RowMajor
  import opened Wrappers

  /** Channels of a patch buffer and of a cube-map face: RGB. */
  const PatchChannels := 3

  /** Channels of a loaded or solid texture: RGBA. */
  const TextureChannels := 4

  datatype Colour = Colour(r: Byte, g: Byte, b: Byte, a: Byte)

  /** A decoded image as the image loader returns it (RGBA rows). */
  datatype Image = Image(width: nat, height: nat, pixels: seq<Byte>)

  /** A patch rectangle in pixels: columns `xMin .. xMax - 1`, rows
      `yMin .. yMax - 1`. */
  datatype Rect = Rect(xMin: int, xMax: int, yMin: int, yMax: int)

  /** Byte offset of pixel `(x, y)` in a buffer of the given width and
      channel count. */
  function PixelOffset(x: int, y: int, width: int, channels: int): int
  {
    Index2(Index2(y, x, width), 0, channels)
  }

  /** Position `(row, column, channel)` of a buffer `width` pixels wide
      with `channels` bytes per pixel lies inside a buffer of `height` rows. */
  lemma PixelInBuffer(row: nat, column: nat, channel: nat, width: nat, height: nat, channels: nat)
    requires row < height && column < width && channel < channels
    ensures 0 <= Index2(Index2(row, column, width), channel, channels) < height * width * channels
  {
    Index2Bounds(row, column, width, height);
    Index2Bounds(Index2(row, column, width), channel, channels, height * width);
  }

  /** A flat position of such a buffer names exactly one `(row, column,
      channel)`. */
  lemma PixelDecode(row: nat, column: nat, channel: nat, width: nat, channels: nat)
    requires column < width && channel < channels
    ensures Index2(Index2(row, column, width), channel, channels) / channels / width == row
    ensures Index2(Index2(row, column, width), channel, channels) / channels % width == column
    ensures Index2(Index2(row, column, width), channel, channels) % channels == channel
  {
    Index2Decode(Index2(row, column, width), channel, channels);
    Index2Decode(row, column, width);
  }

  /** The texture rectangle a pair of UV corners selects: both corners
      scaled by the texture size and floored, each axis put in order, and
      rejected when it is empty or leaves the texture. */
  function PatchRect(minU: real, minV: real, maxU: real, maxV: real, width: int, height: int): (r: Option<Rect>)
    ensures r.Some? ==> 0 <= r.value.xMin < r.value.xMax <= width && 0 <= r.value.yMin < r.value.yMax <= height
  {
    var x0 := (minU * width as real).Floor;
    var x1 := (maxU * width as real).Floor;
    var y0 := (minV * height as real).Floor;
    var y1 := (maxV * height as real).Floor;
    var xMin := if x0 > x1 then x1 else x0;
    var xMax := if x0 > x1 then x0 else x1;
    var yMin := if y0 > y1 then y1 else y0;
    var yMax := if y0 > y1 then y0 else y1;
    if xMin > width || xMin < 0 || xMax > width || xMax == xMin
       || yMin > height || yMin < 0 || yMax > height || yMax == yMin
    then None
    else Some(Rect(xMin, xMax, yMin, yMax))
  }

  /** A rectangle is accepted exactly when both floored coordinates of each
      axis lie in the texture and differ; the order of the corners does not
      matter. */
  lemma PatchRectAccepts(minU: real, minV: real, maxU: real, maxV: real, width: int, height: int)
    ensures var x0 := (minU * width as real).Floor;
            var x1 := (maxU * width as real).Floor;
            var y0 := (minV * height as real).Floor;
            var y1 := (maxV * height as real).Floor;
            PatchRect(minU, minV, maxU, maxV, width, height).Some?
            <==> 0 <= x0 <= width && 0 <= x1 <= width && x0 != x1 && 0 <= y0 <= height && 0 <= y1 <= height && y0 != y1
    ensures PatchRect(minU, minV, maxU, maxV, width, height) == PatchRect(maxU, maxV, minU, minV, width, height)
  {
  }

  /** The RGB bytes of a rectangle of an image, row by row. */
  function PatchBytes(data: seq<Byte>, width: nat, height: nat, channels: nat, r: Rect): (bytes: seq<Byte>)
    requires channels >= PatchChannels && |data| == height * width * channels
    requires 0 <= r.xMin < r.xMax <= width && 0 <= r.yMin < r.yMax <= height
    ensures |bytes| == (r.yMax - r.yMin) * (r.xMax - r.xMin) * PatchChannels
  {
    var patchWidth := r.xMax - r.xMin;
    var patchHeight := r.yMax - r.yMin;
    seq(patchHeight * patchWidth * PatchChannels, q requires 0 <= q < patchHeight * patchWidth * PatchChannels =>
      PatchByte(data, width, height, channels, r, q / PatchChannels / patchWidth, q / PatchChannels % patchWidth, q % PatchChannels))
  }

  /** Channel `channel` of the patch pixel `(row, column)`: the texture
      byte at `(column + xMin, row + yMin)`. */
  function PatchByte(data: seq<Byte>, width: nat, height: nat, channels: nat, r: Rect, row: int, column: int, channel: int): Byte
    requires channels >= PatchChannels && |data| == height * width * channels
    requires 0 <= r.xMin < r.xMax <= width && 0 <= r.yMin < r.yMax <= height
  {
    if 0 <= row < r.yMax - r.yMin && 0 <= column < r.xMax - r.xMin && 0 <= channel < PatchChannels then
      PixelInBuffer(row + r.yMin, column + r.xMin, channel, width, height, channels);
      data[Index2(Index2(row + r.yMin, column + r.xMin, width), channel, channels)]
    else 0
  }

  /** Patch byte `(row, column, channel)` sits at `(row * w + column) * 3 +
      channel` and equals the texture byte at `PixelOffset` of the shifted
      pixel plus the channel. */
  lemma PatchBytesAt(data: seq<Byte>, width: nat, height: nat, channels: nat, r: Rect, row: nat, column: nat, channel: nat)
    requires channels >= PatchChannels && |data| == height * width * channels
    requires 0 <= r.xMin < r.xMax <= width && 0 <= r.yMin < r.yMax <= height
    requires row < r.yMax - r.yMin && column < r.xMax - r.xMin && channel < PatchChannels
    ensures 0 <= Index2(Index2(row, column, r.xMax - r.xMin), channel, PatchChannels) < |PatchBytes(data, width, height, channels, r)|
    ensures 0 <= PixelOffset(column + r.xMin, row + r.yMin, width, channels) + channel < |data|
    ensures PatchBytes(data, width, height, channels, r)[Index2(Index2(row, column, r.xMax - r.xMin), channel, PatchChannels)]
            == data[PixelOffset(column + r.xMin, row + r.yMin, width, channels) + channel]
  {
    PatchPosition(data, width, height, channels, r, row, column, channel);
    PatchSource(data, width, height, channels, r, row, column, channel);
  }

  lemma PatchPosition(data: seq<Byte>, width: nat, height: nat, channels: nat, r: Rect, row: nat, column: nat, channel: nat)
    requires channels >= PatchChannels && |data| == height * width * channels
    requires 0 <= r.xMin < r.xMax <= width && 0 <= r.yMin < r.yMax <= height
    requires row < r.yMax - r.yMin && column < r.xMax - r.xMin && channel < PatchChannels
    ensures 0 <= Index2(Index2(row, column, r.xMax - r.xMin), channel, PatchChannels) < |PatchBytes(data, width, height, channels, r)|
    ensures PatchBytes(data, width, height, channels, r)[Index2(Index2(row, column, r.xMax - r.xMin), channel, PatchChannels)]
            == PatchByte(data, width, height, channels, r, row, column, channel)
  {
    PixelInBuffer(row, column, channel, r.xMax - r.xMin, r.yMax - r.yMin, PatchChannels);
    PixelDecode(row, column, channel, r.xMax - r.xMin, PatchChannels);
  }

  lemma PatchSource(data: seq<Byte>, width: nat, height: nat, channels: nat, r: Rect, row: nat, column: nat, channel: nat)
    requires channels >= PatchChannels && |data| == height * width * channels
    requires 0 <= r.xMin < r.xMax <= width && 0 <= r.yMin < r.yMax <= height
    requires row < r.yMax - r.yMin && column < r.xMax - r.xMin && channel < PatchChannels
    ensures 0 <= PixelOffset(column + r.xMin, row + r.yMin, width, channels) + channel < |data|
    ensures PatchByte(data, width, height, channels, r, row, column, channel)
            == data[PixelOffset(column + r.xMin, row + r.yMin, width, channels) + channel]
  {
    PixelShift(Index2(row + r.yMin, column + r.xMin, width), channel, channels);
    PixelInBuffer(row + r.yMin, column + r.xMin, channel, width, height, channels);
  }

  lemma NextPixel(pixel: int, channels: int)
    ensures Index2(pixel + 1, 0, channels) == Index2(pixel, 0, channels) + channels
  {
  }

  lemma NextRow(row: int, width: int)
    ensures Index2(row, width, width) == Index2(row + 1, 0, width)
  {
  }

  /** Once every row of `r` is copied, the position reached is the size of
      the patch. */
  lemma AllRows(r: Rect, rows: nat, p: int, size: int)
    requires r.xMin <= r.xMax && rows == r.yMax - r.yMin
    requires p == RowStart(r, rows)
    requires size == (r.yMax - r.yMin) * (r.xMax - r.xMin) * PatchChannels
    ensures p == size
  {
    RowStartIs(r, rows);
  }

  /** Where patch row `row` starts in the patch buffer: after `row` rows of
      `xMax - xMin` pixels. */
  function RowStart(r: Rect, row: nat): nat
    requires r.xMin <= r.xMax
  {
    if row == 0 then 0 else RowStart(r, row - 1) + (r.xMax - r.xMin) * PatchChannels
  }

  lemma {:induction false} RowStartIs(r: Rect, row: nat)
    requires r.xMin <= r.xMax
    ensures RowStart(r, row) == Index2(Index2(row, 0, r.xMax - r.xMin), 0, PatchChannels)
  {
    if row > 0 {
      RowStartIs(r, row - 1);
    }
  }

  /** A buffer that agrees with `bytes` on all of its positions is `bytes`. */
  lemma CopiedAll(copied: seq<Byte>, bytes: seq<Byte>)
    requires |copied| == |bytes| && forall k :: 0 <= k < |bytes| ==> copied[k] == bytes[k]
    ensures copied == bytes && bytes[..|bytes|] == bytes
  {
  }

  /** The offset of a pixel plus a channel is the channel's position. */
  lemma PixelShift(pixel: int, channel: int, channels: int)
    ensures Index2(pixel, 0, channels) + channel == Index2(pixel, channel, channels)
  {
  }

  /** The colour test's running mean: starting from 0, every byte in
      buffer order replaces the mean `m` by `(m + byte) / 2`. */
  function RunningMean(bytes: seq<Byte>): (m: int)
    ensures 0 <= m <= 255
  {
    if |bytes| == 0 then 0 else (RunningMean(bytes[..|bytes| - 1]) + bytes[|bytes| - 1]) / 2
  }

  /** The mean is zero exactly when the last byte and the mean before it
      add up to at most one; a last byte of 2 or more always passes. */
  lemma RunningMeanZero(bytes: seq<Byte>)
    requires |bytes| > 0
    ensures RunningMean(bytes) == 0 <==> RunningMean(bytes[..|bytes| - 1]) + bytes[|bytes| - 1] <= 1
    ensures bytes[|bytes| - 1] >= 2 ==> RunningMean(bytes) > 0
  {
  }

  /** An all-black patch is rejected. */
  lemma {:induction false} BlackPatchRejected(bytes: seq<Byte>)
    requires forall q :: 0 <= q < |bytes| ==> bytes[q] == 0
    ensures RunningMean(bytes) == 0
  {
    if |bytes| > 0 {
      BlackPatchRejected(bytes[..|bytes| - 1]);
    }
  }

  function HalvedBound(k: nat): nat
  {
    if k == 0 then 255 else HalvedBound(k - 1) / 2
  }

  function Black(k: nat): (s: seq<Byte>)
    ensures |s| == k
  {
    seq(k, _ => 0)
  }

  lemma {:induction false} TrailingBlackHalves(bytes: seq<Byte>, k: nat)
    ensures RunningMean(bytes + Black(k)) <= HalvedBound(k)
  {
    if k > 0 {
      TrailingBlackHalves(bytes, k - 1);
      assert (bytes + Black(k))[..|bytes + Black(k)| - 1] == bytes + Black(k - 1);
    }
  }

  /** The test only sees the end of the buffer: any patch whose last eight
      bytes are black is rejected, however bright the rest of it is. */
  lemma TrailingBlackRejected(bytes: seq<Byte>)
    ensures RunningMean(bytes + Black(8)) == 0
  {
    TrailingBlackHalves(bytes, 8);
    assert HalvedBound(8) == 0;
  }

  /** The RGBA bytes of a solid-colour texture. */
  function SolidBytes(width: nat, height: nat, colour: Colour): (bytes: seq<Byte>)
    ensures |bytes| == width * height * TextureChannels
  {
    seq(width * height * TextureChannels, q requires 0 <= q < width * height * TextureChannels =>
      ChannelOf(colour, q % TextureChannels))
  }

  function ChannelOf(colour: Colour, channel: int): Byte
  {
    match channel
    case 0 => colour.r
    case 1 => colour.g
    case 2 => colour.b
    case _ => colour.a
  }

  /** Pixel `i` of a solid texture holds `(r, g, b, a)` in that order. */
  lemma SolidPixel(width: nat, height: nat, colour: Colour, i: nat, channel: nat)
    requires i < width * height && channel < TextureChannels
    ensures Index2(i, channel, TextureChannels) < |SolidBytes(width, height, colour)|
    ensures SolidBytes(width, height, colour)[Index2(i, channel, TextureChannels)] == ChannelOf(colour, channel)
  {
    Index2Bounds(i, channel, TextureChannels, width * height);
    Index2Decode(i, channel, TextureChannels);
  }

  /** Fills `width * height` RGBA pixels with one colour. */
  method SolidFill(textureWidth: nat, textureHeight: nat, colour: Colour) returns (textureArray: array<Byte>)
    ensures fresh(textureArray)
    ensures textureArray[..] == SolidBytes(textureWidth, textureHeight, colour)
  {
    textureArray := new Byte[textureWidth * textureHeight * TextureChannels];
    for i := 0 to textureWidth * textureHeight
      invariant forall q :: 0 <= q < i * TextureChannels ==> textureArray[q] == ChannelOf(colour, q % TextureChannels)
    {
      Index2Bounds(i, 3, TextureChannels, textureWidth * textureHeight);
      DivModRowMajor(i, 0, TextureChannels);
      DivModRowMajor(i, 1, TextureChannels);
      DivModRowMajor(i, 2, TextureChannels);
      DivModRowMajor(i, 3, TextureChannels);
      textureArray[i * TextureChannels] := colour.r;
      textureArray[i * TextureChannels + 1] := colour.g;
      textureArray[i * TextureChannels + 2] := colour.b;
      textureArray[i * TextureChannels + 3] := colour.a;
    }
  }

  /** The row loop of the patch copy: the RGB bytes of `r` out of `data`
      into a buffer of the patch's size, with the colour test's mean. */
  method CopyRows(data: seq<Byte>, width: nat, height: nat, channels: nat, r: Rect, nonBlack: bool,
                  patchPixels: array<Byte>, ghost bytes: seq<Byte>) returns (colourMean: int)
    requires channels >= PatchChannels && |data| == height * width * channels
    requires 0 <= r.xMin < r.xMax <= width && 0 <= r.yMin < r.yMax <= height
    requires bytes == PatchBytes(data, width, height, channels, r) && patchPixels.Length == |bytes|
    modifies patchPixels
    ensures forall k :: 0 <= k < |bytes| ==> patchPixels[k] == bytes[k]
    ensures colourMean == if nonBlack then RunningMean(bytes[..|bytes|]) else 0
  {
    colourMean := 0;
    var p, row := 0, 0;
    while row < r.yMax - r.yMin
      invariant row <= r.yMax - r.yMin
      invariant p == RowStart(r, row) && p <= |bytes|
      invariant forall k :: 0 <= k < p ==> patchPixels[k] == bytes[k]
      invariant colourMean == if nonBlack then RunningMean(bytes[..p]) else 0
    {
      p, colourMean := CopyRow(data, width, height, channels, r, nonBlack, patchPixels, bytes, row, p, colourMean);
      row := row + 1;
    }
    AllRows(r, row, p, |bytes|);
  }

  /** One pass of the row loop: the pixels of patch row `row`, which
      occupy positions `start` to `end` of the patch, left to right. */
  method CopyRow(data: seq<Byte>, width: nat, height: nat, channels: nat, r: Rect, nonBlack: bool,
                 patchPixels: array<Byte>, ghost bytes: seq<Byte>, row: nat, start: nat, meanIn: int)
      returns (end: nat, colourMean: int)
    requires channels >= PatchChannels && |data| == height * width * channels
    requires 0 <= r.xMin < r.xMax <= width && 0 <= r.yMin < r.yMax <= height
    requires bytes == PatchBytes(data, width, height, channels, r) && patchPixels.Length == |bytes|
    requires row < r.yMax - r.yMin
    requires start == RowStart(r, row)
    requires start <= |bytes|
    requires forall k :: 0 <= k < start ==> patchPixels[k] == bytes[k]
    requires meanIn == if nonBlack then RunningMean(bytes[..start]) else 0
    modifies patchPixels
    ensures end == RowStart(r, row + 1) && end <= |bytes|
    ensures forall k :: 0 <= k < end ==> patchPixels[k] == bytes[k]
    ensures colourMean == if nonBlack then RunningMean(bytes[..end]) else 0
  {
    var patchWidth := r.xMax - r.xMin;
    var patchHeight := r.yMax - r.yMin;
    colourMean := meanIn;
    RowStartIs(r, row);
    RowStartIs(r, row + 1);
    var p := start;
    for column := 0 to patchWidth
      invariant p == Index2(Index2(row, column, patchWidth), 0, PatchChannels)
      invariant p <= |bytes|
      invariant forall k :: 0 <= k < p ==> patchPixels[k] == bytes[k]
      invariant colourMean == if nonBlack then RunningMean(bytes[..p]) else 0
    {
      PixelInBuffer(row, column, PatchChannels - 1, patchWidth, patchHeight, PatchChannels);
      PixelShift(Index2(row, column, patchWidth), PatchChannels - 1, PatchChannels);
      colourMean := CopyPixel(data, width, height, channels, r, nonBlack, patchPixels, bytes, row, column, p, colourMean);
      NextPixel(Index2(row, column, patchWidth), PatchChannels);
      p := p + PatchChannels;
    }
    NextRow(row, patchWidth);
    end := p;
  }

  /** Copies the three colour bytes of patch pixel `(row, column)`, which
      start at position `p` of the patch, and feeds them to the mean. */
  method CopyPixel(data: seq<Byte>, width: nat, height: nat, channels: nat, r: Rect, nonBlack: bool,
                   patchPixels: array<Byte>, ghost bytes: seq<Byte>, row: nat, column: nat, p: nat, meanIn: int)
      returns (colourMean: int)
    requires channels >= PatchChannels && |data| == height * width * channels
    requires 0 <= r.xMin < r.xMax <= width && 0 <= r.yMin < r.yMax <= height
    requires bytes == PatchBytes(data, width, height, channels, r) && patchPixels.Length == |bytes|
    requires row < r.yMax - r.yMin && column < r.xMax - r.xMin
    requires p == Index2(Index2(row, column, r.xMax - r.xMin), 0, PatchChannels)
    requires p + PatchChannels <= |bytes|
    requires forall k :: 0 <= k < p ==> patchPixels[k] == bytes[k]
    requires meanIn == if nonBlack then RunningMean(bytes[..p]) else 0
    modifies patchPixels
    ensures forall k :: 0 <= k < p + PatchChannels ==> patchPixels[k] == bytes[k]
    ensures colourMean == if nonBlack then RunningMean(bytes[..p + PatchChannels]) else 0
  {
    colourMean := meanIn;
    var imageIndex := PixelOffset(column + r.xMin, row + r.yMin, width, channels);
    for patchChannel := 0 to PatchChannels
      invariant forall k :: 0 <= k < p + patchChannel ==> patchPixels[k] == bytes[k]
      invariant colourMean == if nonBlack then RunningMean(bytes[..p + patchChannel]) else 0
    {
      PatchBytesAt(data, width, height, channels, r, row, column, patchChannel);
      PixelShift(Index2(row, column, r.xMax - r.xMin), patchChannel, PatchChannels);
      var pixelValue := data[imageIndex + patchChannel];
      if nonBlack && patchChannel != 3 {
        colourMean := (colourMean + pixelValue) / 2;
      }
      patchPixels[p + patchChannel] := pixelValue;
      assert bytes[..p + patchChannel + 1][..p + patchChannel] == bytes[..p + patchChannel];
    }
  }

  /** The state a generated patch carries. */
  class TexturePatch {
    var cubeMapFace: int
    var width: int
    var height: int
    var channels: int
    var pixels: seq<Byte>
    var parentTexture: Texture?

    constructor ()
      ensures cubeMapFace == 0 && width == 0 && height == 0 && channels == 0
      ensures pixels == [] && parentTexture == null
    {
      cubeMapFace := 0;
      width := 0;
      height := 0;
      channels := 0;
      pixels := [];
      parentTexture := null;
    }
  }

  class Texture {
    var width: int
    var height: int
    var channels: int
    var textureData: seq<Byte>
    var imageLoaded: bool
    var file: string

    /** The pixel buffer holds `height * width * channels` bytes of RGBA. */
    predicate Valid()
      reads this
    {
      width >= 0 && height >= 0 && channels == TextureChannels
      && (imageLoaded ==> |textureData| == height * width * channels)
    }

    /** A texture read from `f`; `decoded` is what the image loader
        returned, `None` when it could not read the file. */
    constructor FromFile(f: string, decoded: Option<Image>)
      requires decoded.Some? ==> |decoded.value.pixels| == decoded.value.height * decoded.value.width * TextureChannels
      ensures Valid() && file == f && channels == TextureChannels
      ensures imageLoaded <==> decoded.Some?
      ensures decoded.Some? ==>
        width == decoded.value.width && height == decoded.value.height && textureData == decoded.value.pixels
    {
      file := f;
      channels := TextureChannels;
      if decoded.None? {
        width, height, textureData, imageLoaded := 0, 0, [], false;
      } else {
        width, height, textureData := decoded.value.width, decoded.value.height, decoded.value.pixels;
        imageLoaded := true;
      }
    }

    /** A texture of one colour. */
    constructor Solid(textureHeight: nat, textureWidth: nat, colour: Colour)
      ensures Valid() && !imageLoaded
      ensures width == textureWidth && height == textureHeight && channels == TextureChannels
      ensures textureData == SolidBytes(textureWidth, textureHeight, colour)
    {
      width := textureWidth;
      height := textureHeight;
      channels := TextureChannels;
      file := "";
      imageLoaded := false;
      var textureArray := SolidFill(textureWidth, textureHeight, colour);
      textureData := textureArray[..];
    }

    /** Byte offset of pixel `(x, y)`; the source's assertions admit
        `x == width` and `y == height`. */
    function PixelAt(x: int, y: int): (offset: int)
      reads this
      requires 0 <= x <= width && 0 <= y <= height && Valid()
      ensures offset == PixelOffset(x, y, width, channels)
      ensures x < width && y < height && imageLoaded ==> 0 <= offset && offset + channels <= |textureData|
    {
      if x < width && y < height then
        PixelInBuffer(y, x, channels - 1, width, height, channels);
        (y * width + x) * channels
      else (y * width + x) * channels
    }

    /** Copies the RGB bytes of `r` out of the texture and runs the colour
        test's mean over them in buffer order. */
    method CopyPatch(r: Rect, nonBlack: bool) returns (patchPixels: array<Byte>, colourMean: int)
      requires Valid() && imageLoaded
      requires 0 <= r.xMin < r.xMax <= width && 0 <= r.yMin < r.yMax <= height
      ensures fresh(patchPixels)
      ensures patchPixels[..] == PatchBytes(textureData, width, height, channels, r)
      ensures colourMean == if nonBlack then RunningMean(patchPixels[..]) else 0
    {
      var patchWidth := r.xMax - r.xMin;
      var patchHeight := r.yMax - r.yMin;
      ghost var bytes := PatchBytes(textureData, width, height, channels, r);
      patchPixels := new Byte[patchHeight * patchWidth * PatchChannels];
      colourMean := CopyRows(textureData, width, height, channels, r, nonBlack, patchPixels, bytes);
      CopiedAll(patchPixels[..], bytes);
    }

    /** Cuts the patch `minUV .. maxUV` out of the texture into `outPatch`.
        `written` is whether the PNG writer succeeded. The opacity test
        only looks at channel 3, which an RGB patch never reaches. */
    method GeneratePatch(minUV: (real, real), maxUV: (real, real), filename: string, outPatch: TexturePatch,
                         requireOpaque: bool, nonBlack: bool, written: bool) returns (ok: bool)
      requires Valid()
      modifies outPatch
      ensures var rect := PatchRect(minUV.0, minUV.1, maxUV.0, maxUV.1, width, height);
              ok <==> imageLoaded && rect.Some? && written
                      && (!nonBlack || RunningMean(PatchBytes(textureData, width, height, channels, rect.value)) != 0)
      ensures !ok ==> unchanged(outPatch)
      ensures ok ==> var rect := PatchRect(minUV.0, minUV.1, maxUV.0, maxUV.1, width, height).value;
              && outPatch.width == rect.xMax - rect.xMin
              && outPatch.height == rect.yMax - rect.yMin
              && outPatch.cubeMapFace == outPatch.height
              && outPatch.channels == PatchChannels
              && outPatch.pixels == PatchBytes(textureData, width, height, channels, rect)
              && outPatch.parentTexture == this
    {
      if !imageLoaded {
        return false;
      }
      var rect := PatchRect(minUV.0, minUV.1, maxUV.0, maxUV.1, width, height);
      if rect.None? {
        return false;
      }
      var patchPixels, colourMean := CopyPatch(rect.value, nonBlack);
      if nonBlack && colourMean == 0 {
        return false;
      }
      if !written {
        return false;
      }
      outPatch.height := rect.value.yMax - rect.value.yMin;
      outPatch.cubeMapFace := outPatch.height;
      outPatch.width := rect.value.xMax - rect.value.xMin;
      outPatch.channels := PatchChannels;
      outPatch.pixels := patchPixels[..];
      outPatch.parentTexture := this;
      ok := true;
    }
  }

  /** Pixel `(row, column)` of a face: the patch pixel when the patch
      reaches it, black otherwise. */
  function FaceByte(pixels: seq<Byte>, patchWidth: nat, patchHeight: nat, patchChannels: nat, row: int, column: int, channel: int): Byte
    requires patchChannels >= PatchChannels && |pixels| == patchHeight * patchWidth * patchChannels
  {
    if 0 <= row < patchHeight && 0 <= column < patchWidth && 0 <= channel < PatchChannels then
      PixelInBuffer(row, column, channel, patchWidth, patchHeight, patchChannels);
      pixels[Index2(Index2(row, column, patchWidth), channel, patchChannels)]
    else 0
  }

  function FaceBytes(pixels: seq<Byte>, patchWidth: nat, patchHeight: nat, patchChannels: nat, faceSize: nat): (face: seq<Byte>)
    requires patchChannels >= PatchChannels && |pixels| == patchHeight * patchWidth * patchChannels
    ensures |face| == faceSize * faceSize * PatchChannels
  {
    seq(faceSize * faceSize * PatchChannels, q requires 0 <= q < faceSize * faceSize * PatchChannels =>
      FaceByte(pixels, patchWidth, patchHeight, patchChannels, q / PatchChannels / faceSize, q / PatchChannels % faceSize, q % PatchChannels))
  }

  /** A face pixel inside the patch copies the patch; every other one is
      black, so a patch larger than the face is cropped and a smaller one
      padded. */
  lemma FaceBytesAt(pixels: seq<Byte>, patchWidth: nat, patchHeight: nat, patchChannels: nat, faceSize: nat,
                    row: nat, column: nat, channel: nat)
    requires patchChannels >= PatchChannels && |pixels| == patchHeight * patchWidth * patchChannels
    requires row < faceSize && column < faceSize && channel < PatchChannels
    ensures 0 <= Index2(Index2(row, column, faceSize), channel, PatchChannels) < faceSize * faceSize * PatchChannels
    ensures row < patchHeight && column < patchWidth ==>
      0 <= Index2(Index2(row, column, patchWidth), channel, patchChannels) < |pixels|
    ensures var b := FaceBytes(pixels, patchWidth, patchHeight, patchChannels, faceSize)[Index2(Index2(row, column, faceSize), channel, PatchChannels)];
            if row < patchHeight && column < patchWidth
            then b == pixels[Index2(Index2(row, column, patchWidth), channel, patchChannels)]
            else b == 0
  {
    PixelInBuffer(row, column, channel, faceSize, faceSize, PatchChannels);
    PixelDecode(row, column, channel, faceSize, PatchChannels);
    if row < patchHeight && column < patchWidth {
      PixelInBuffer(row, column, channel, patchWidth, patchHeight, patchChannels);
    }
  }

  class CubeMap {
    /** Edge length of a face in pixels. */
    const faceSize: nat

    constructor (size: nat)
      ensures faceSize == size
    {
      faceSize := size;
    }

    /** The RGB face buffer `applyPatch` builds from `patch` before
        uploading it. */
    method ApplyPatch(patch: TexturePatch) returns (squarePatch: array<Byte>)
      requires patch.width >= 0 && patch.height >= 0 && patch.channels >= PatchChannels
      requires |patch.pixels| == patch.height * patch.width * patch.channels
      ensures fresh(squarePatch)
      ensures squarePatch[..] == FaceBytes(patch.pixels, patch.width, patch.height, patch.channels, faceSize)
    {
      ghost var face := FaceBytes(patch.pixels, patch.width, patch.height, patch.channels, faceSize);
      squarePatch := new Byte[faceSize * faceSize * PatchChannels];
      for row := 0 to faceSize
        invariant Index2(Index2(row, 0, faceSize), 0, PatchChannels) <= |face|
        invariant forall q :: 0 <= q < Index2(Index2(row, 0, faceSize), 0, PatchChannels) ==> squarePatch[q] == face[q]
      {
        for column := 0 to faceSize
          invariant Index2(Index2(row, column, faceSize), 0, PatchChannels) <= |face|
          invariant forall q :: 0 <= q < Index2(Index2(row, column, faceSize), 0, PatchChannels) ==> squarePatch[q] == face[q]
        {
          PixelInBuffer(row, column, PatchChannels - 1, faceSize, faceSize, PatchChannels);
          PixelShift(Index2(row, column, faceSize), PatchChannels - 1, PatchChannels);
          FacePixel(squarePatch, face, patch.pixels, patch.width, patch.height, patch.channels, row, column,
                    Index2(Index2(row, column, faceSize), 0, PatchChannels));
          NextPixel(Index2(row, column, faceSize), PatchChannels);
        }
        NextRow(row, faceSize);
      }
      if faceSize > 0 {
        PixelInBuffer(faceSize - 1, faceSize - 1, PatchChannels - 1, faceSize, faceSize, PatchChannels);
        NextRow(faceSize - 1, faceSize);
        NextPixel(Index2(faceSize - 1, faceSize - 1, faceSize), PatchChannels);
      }
    }

    /** Writes face pixel `(row, column)`, which starts at position `p`. */
    method FacePixel(squarePatch: array<Byte>, ghost face: seq<Byte>, pixels: seq<Byte>,
                     patchWidth: nat, patchHeight: nat, patchChannels: nat, row: nat, column: nat, p: nat)
      requires patchChannels >= PatchChannels && |pixels| == patchHeight * patchWidth * patchChannels
      requires face == FaceBytes(pixels, patchWidth, patchHeight, patchChannels, faceSize)
      requires squarePatch.Length == |face|
      requires row < faceSize && column < faceSize
      requires p == Index2(Index2(row, column, faceSize), 0, PatchChannels)
      requires p + PatchChannels <= |face|
      requires forall q :: 0 <= q < p ==> squarePatch[q] == face[q]
      modifies squarePatch
      ensures forall q :: 0 <= q < p + PatchChannels ==> squarePatch[q] == face[q]
    {
      for channel := 0 to PatchChannels
        invariant forall q :: 0 <= q < p + channel ==> squarePatch[q] == face[q]
      {
        FaceBytesAt(pixels, patchWidth, patchHeight, patchChannels, faceSize, row, column, channel);
        PixelShift(Index2(row, column, faceSize), channel, PatchChannels);
        var value: Byte := 0;
        if row < patchHeight && column < patchWidth {
          value := pixels[Index2(Index2(row, column, patchWidth), channel, patchChannels)];
        }
        squarePatch[p + channel] := value;
      }
    }
  }
}
