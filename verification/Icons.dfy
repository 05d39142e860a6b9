/** The two image formats of the program's icon, and a reader of each that shares no code with the writer. */
module Icons {
  import opened Bytes

  // ---- Pieces in their places -----------------------------------------------------------------------------

  /** Where a piece begins. */
  function Start(pieces: seq<seq<Byte>>, i: nat): nat
    requires i <= |pieces|
  {
    |Joined(pieces[..i])|
  }

  /** The bytes from `from` on begin with these. */
  predicate Carries(bytes: seq<Byte>, from: nat, piece: seq<Byte>) {
    from + |piece| <= |bytes| && bytes[from..from + |piece|] == piece
  }

  lemma CarriesBehind(
    front: seq<Byte>, bytes: seq<Byte>, back: seq<Byte>, from: nat, piece: seq<Byte>, whole: seq<Byte>, at: nat)
    requires Carries(bytes, from, piece)
    requires whole == front + bytes + back && at == |front| + from
    ensures Carries(whole, at, piece)
  {
    assert whole[at..at + |piece|] == bytes[from..from + |piece|];
  }

  lemma {:induction false} EachPieceInItsPlace(pieces: seq<seq<Byte>>, i: nat)
    requires i < |pieces|
    ensures Carries(Joined(pieces), Start(pieces, i), pieces[i])
    decreases |pieces|
  {
    var front, last := pieces[..|pieces| - 1], pieces[|pieces| - 1];
    if i < |front| {
      EachPieceInItsPlace(front, i);
      assert front[..i] == pieces[..i];
      CarriesBehind([], Joined(front), last, Start(front, i), front[i], Joined(pieces), Start(pieces, i));
    } else {
      assert pieces[..i] == front;
    }
  }

  predicate AllOf(pieces: seq<seq<Byte>>, length: nat) {
    forall i :: 0 <= i < |pieces| ==> |pieces[i]| == length
  }

  lemma {:induction false} EvenStart(pieces: seq<seq<Byte>>, i: nat, length: nat)
    requires i <= |pieces| && AllOf(pieces, length)
    ensures Start(pieces, i) == i * length
  {
    if i > 0 {
      EvenStart(pieces, i - 1, length);
      JoinedOneMore(pieces, i - 1);
      assert i * length == (i - 1) * length + length;
    }
  }

  lemma EvenLength(pieces: seq<seq<Byte>>, length: nat)
    requires AllOf(pieces, length)
    ensures |Joined(pieces)| == |pieces| * length
  {
    EvenStart(pieces, |pieces|, length);
    assert pieces[..|pieces|] == pieces;
  }

  // ---- Bits -----------------------------------------------------------------------------------------------

  /** The bit worth two to the power `m`. */
  predicate LowBit(b: nat, m: nat) {
    if m == 0 then b % 2 == 1 else LowBit(b / 2, m - 1)
  }

  /** `b | 1 << m` */
  function WithLowBit(b: nat, m: nat): nat {
    if m == 0 then b - b % 2 + 1 else b % 2 + 2 * WithLowBit(b / 2, m - 1)
  }

  lemma {:induction false} OneBitIsSet(b: nat, m: nat, j: nat)
    ensures LowBit(WithLowBit(b, m), j) <==> j == m || LowBit(b, j)
  {
    if m > 0 && j > 0 {
      OneBitIsSet(b / 2, m - 1, j - 1);
      assert WithLowBit(b, m) / 2 == WithLowBit(b / 2, m - 1);
    }
  }

  lemma {:induction false} ZeroHasNoBit(m: nat)
    ensures !LowBit(0, m)
  {
    if m > 0 { ZeroHasNoBit(m - 1); }
  }

  function Pow2(n: nat): nat {
    if n == 0 then 1 else 2 * Pow2(n - 1)
  }

  lemma {:induction false} StaysBelow(b: nat, m: nat, n: nat)
    requires b < Pow2(n) && m < n
    ensures WithLowBit(b, m) < Pow2(n)
  {
    var power := Pow2(n - 1);
    if m == 0 {
      HalvesBelow(b, 0, power);
    } else {
      var rest := WithLowBit(b / 2, m - 1);
      HalvesBelow(b, rest, power);
      StaysBelow(b / 2, m - 1, n - 1);
    }
  }

  lemma HalvesBelow(b: nat, rest: nat, power: nat)
    requires b < 2 * power
    ensures b / 2 < power && b - b % 2 + 1 < 2 * power
    ensures rest < power ==> b % 2 + 2 * rest < 2 * power
  {
  }

  /** Counted from the top of the byte, as the mask does. */
  predicate Bit(b: Byte, k: nat)
    requires k < 8
  {
    LowBit(b, 7 - k)
  }

  /** `b | 0x80 >> k` */
  function WithBit(b: Byte, k: nat): Byte
    requires k < 8
  {
    assert Pow2(8) == 0x100;
    StaysBelow(b, 7 - k, 8);
    WithLowBit(b, 7 - k)
  }

  // ---- One image ------------------------------------------------------------------------------------------

  /** A drawing, four bytes a pixel, row by row from the top. */
  datatype Image = Image(width: nat, height: nat, rgba: seq<Byte>)

  /** The sizes the writer's 32-bit arithmetic is good for. */
  predicate IsImage(image: Image) {
    && |image.rgba| == image.height * (4 * image.width)
    && |image.rgba| < 0x1_0000_0000
    && image.width < 0x1_0000_0000
    && image.height < 0x8000_0000
  }

  lemma PixelInside(y: nat, height: nat, x: nat, width: nat)
    requires y < height && x < width
    ensures (y * width + x) * 4 + 4 <= height * (4 * width)
    ensures (y * width + x) * 4 == y * (4 * width) + 4 * x
  {
    MultiplyIsMonotone(y + 1, height, 4 * width);
    assert (y + 1) * (4 * width) == y * (4 * width) + 4 * width;
    assert (y * width) * 4 == y * (4 * width);
  }

  function Channel(image: Image, x: nat, y: nat, channel: nat): Byte
    requires IsImage(image) && x < image.width && y < image.height && channel < 4
  {
    PixelInside(y, image.height, x, image.width);
    image.rgba[(y * image.width + x) * 4 + channel]
  }

  /** Blue before green before red. */
  function Bgra(image: Image, x: nat, y: nat): (pixel: seq<Byte>)
    requires IsImage(image) && x < image.width && y < image.height
    ensures |pixel| == 4
  {
    [Channel(image, x, y, 2), Channel(image, x, y, 1), Channel(image, x, y, 0), Channel(image, x, y, 3)]
  }

  function RowPixels(image: Image, y: nat): (pixels: seq<seq<Byte>>)
    requires IsImage(image) && y < image.height
    ensures |pixels| == image.width
    ensures AllOf(pixels, 4)
  {
    seq(image.width, x requires 0 <= x < image.width => Bgra(image, x, y))
  }

  /** One row of colours; rows count from the bottom. */
  function ColourRow(image: Image, row: nat): (bytes: seq<Byte>)
    requires IsImage(image) && row < image.height
    ensures |bytes| == image.width * 4
  {
    EvenLength(RowPixels(image, image.height - 1 - row), 4);
    Joined(RowPixels(image, image.height - 1 - row))
  }

  /** A mask row is a whole number of four bytes. */
  function MaskRowLength(width: nat): (n: nat)
    ensures width <= 8 * n
  {
    (width + 31) / 32 * 4
  }

  function ClearRow(width: nat): (bytes: seq<Byte>)
    ensures |bytes| == MaskRowLength(width)
  {
    seq(MaskRowLength(width), _ => 0)
  }

  /** One row of the mask after its first `n` pixels. */
  function MaskRow(image: Image, row: nat, n: nat): (bytes: seq<Byte>)
    requires IsImage(image) && row < image.height && n <= image.width
    ensures |bytes| == MaskRowLength(image.width)
  {
    if n == 0 then ClearRow(image.width)
    else
      var before := MaskRow(image, row, n - 1);
      if Channel(image, n - 1, image.height - 1 - row, 3) != 0 then before
      else before[(n - 1) / 8 := WithBit(before[(n - 1) / 8], (n - 1) % 8)]
  }

  function ColourRows(image: Image): (rows: seq<seq<Byte>>)
    requires IsImage(image)
    ensures |rows| == image.height && AllOf(rows, image.width * 4)
  {
    seq(image.height, row requires 0 <= row < image.height => ColourRow(image, row))
  }

  function MaskRows(image: Image): (rows: seq<seq<Byte>>)
    requires IsImage(image)
    ensures |rows| == image.height && AllOf(rows, MaskRowLength(image.width))
  {
    seq(image.height, row requires 0 <= row < image.height => MaskRow(image, row, image.width))
  }

  const DIB_HEADER: nat := 40

  function DibHeader(width: nat, height: nat): (bytes: seq<Byte>)
    ensures |bytes| == DIB_HEADER
  {
    ToLittleEndian(DIB_HEADER, 4) + ToLittleEndian(width, 4) + ToLittleEndian(height * 2, 4)
    + ToLittleEndian(1, 2) + ToLittleEndian(32, 2) + Zeros(24)
  }

  /** Compression, image size, two resolutions and two palette counts, each as four bytes of zero. */
  function Zeros(n: nat): (bytes: seq<Byte>)
    ensures |bytes| == n
  {
    seq(n, _ => 0)
  }

  function DibBytes(image: Image): seq<Byte>
    requires IsImage(image)
  {
    DibHeader(image.width, image.height) + Joined(ColourRows(image)) + Joined(MaskRows(image))
  }

  method ColoursOfRow(image: Image, y: nat) returns (bytes: seq<Byte>)
    requires IsImage(image) && y < image.height
    ensures bytes == ColourRow(image, image.height - 1 - y)
  {
    bytes := [];
    for x := 0 to image.width
      invariant bytes == Joined(RowPixels(image, y)[..x])
    {
      var at := (y * image.width + x) * 4;
      PixelInside(y, image.height, x, image.width);
      var pixel := image.rgba[at..at + 4];
      JoinedOneMore(RowPixels(image, y), x);
      bytes := bytes + [pixel[2], pixel[1], pixel[0], pixel[3]];
    }
    assert RowPixels(image, y)[..image.width] == RowPixels(image, y);
  }

  method MaskOfRow(image: Image, y: nat) returns (row: seq<Byte>)
    requires IsImage(image) && y < image.height
    ensures row == MaskRow(image, image.height - 1 - y, image.width)
  {
    row := seq(MaskRowLength(image.width), _ => 0);
    for x := 0 to image.width
      invariant row == MaskRow(image, image.height - 1 - y, x)
    {
      PixelInside(y, image.height, x, image.width);
      var alpha := image.rgba[(y * image.width + x) * 4 + 3];
      if alpha == 0 { row := row[x / 8 := WithBit(row[x / 8], x % 8)]; }
    }
  }

  method Colours(image: Image) returns (out: seq<Byte>)
    requires IsImage(image)
    ensures out == Joined(ColourRows(image))
  {
    out := [];
    ghost var rows := ColourRows(image);
    var y := image.height;
    while y > 0
      invariant 0 <= y <= image.height
      invariant out == Joined(rows[..image.height - y])
    {
      y := y - 1;
      var row := ColoursOfRow(image, y);
      JoinedOneMore(rows, image.height - 1 - y);
      out := out + row;
    }
    assert rows[..image.height] == rows;
  }

  method Mask(image: Image) returns (out: seq<Byte>)
    requires IsImage(image)
    ensures out == Joined(MaskRows(image))
  {
    out := [];
    ghost var rows := MaskRows(image);
    var y := image.height;
    while y > 0
      invariant 0 <= y <= image.height
      invariant out == Joined(rows[..image.height - y])
    {
      y := y - 1;
      var row := MaskOfRow(image, y);
      JoinedOneMore(rows, image.height - 1 - y);
      out := out + row;
    }
    assert rows[..image.height] == rows;
  }

  method Dib(image: Image) returns (out: seq<Byte>)
    requires IsImage(image)
    ensures out == DibBytes(image)
  {
    out := DibHeader(image.width, image.height);
    var colours := Colours(image);
    out := out + colours;
    var mask := Mask(image);
    out := out + mask;
  }

  // ---- Reading an image back ------------------------------------------------------------------------------

  function Number(bytes: seq<Byte>, at: nat, width: nat): nat
    requires at + width <= |bytes|
  {
    FromLittleEndian(bytes[at..at + width])
  }

  /** Where the row at height `y` begins, among rows of this length that run from the bottom up. */
  function RowAt(height: nat, y: nat, length: nat): nat
    requires y < height
  {
    (height - 1 - y) * length
  }

  function ColoursAt(width: nat, height: nat, x: nat, y: nat): nat
    requires x < width && y < height
  {
    DIB_HEADER + RowAt(height, y, width * 4) + x * 4
  }

  /** Where the mask byte of a column of eight is; columns past the width are padding. */
  function MaskAt(width: nat, height: nat, x: nat, y: nat): nat
    requires y < height
  {
    DIB_HEADER + height * (width * 4) + RowAt(height, y, MaskRowLength(width)) + x / 8
  }

  /** The file begins with a header that says what an icon's image says: this width, twice this height, 32 bits. */
  predicate SaysItsSize(bytes: seq<Byte>, width: nat, height: nat) {
    && DIB_HEADER <= |bytes|
    && Number(bytes, 0, 4) == DIB_HEADER
    && Number(bytes, 4, 4) == width
    && Number(bytes, 8, 4) == 2 * height
    && Number(bytes, 12, 2) == 1 && Number(bytes, 14, 2) == 32
    && forall at :: 16 <= at < DIB_HEADER ==> bytes[at] == 0
  }

  lemma HeaderSaysIt(width: nat, height: nat, rest: seq<Byte>)
    requires width < 0x1_0000_0000 && height < 0x8000_0000
    ensures SaysItsSize(DibHeader(width, height) + rest, width, height)
  {
    Widths();
    LittleEndianRoundTrip(DIB_HEADER, 4);
    LittleEndianRoundTrip(width, 4);
    LittleEndianRoundTrip(height * 2, 4);
    LittleEndianRoundTrip(1, 2);
    LittleEndianRoundTrip(32, 2);
    Fields(ToLittleEndian(DIB_HEADER, 4), ToLittleEndian(width, 4), ToLittleEndian(height * 2, 4),
      ToLittleEndian(1, 2), ToLittleEndian(32, 2), Zeros(24), rest);
  }

  lemma Fields(
    a: seq<Byte>, b: seq<Byte>, c: seq<Byte>, d: seq<Byte>, e: seq<Byte>, zeros: seq<Byte>, rest: seq<Byte>)
    requires |a| == |b| == |c| == 4 && |d| == |e| == 2 && zeros == Zeros(24)
    ensures var bytes := a + b + c + d + e + zeros + rest;
      && |bytes| == DIB_HEADER + |rest|
      && bytes[0..4] == a && bytes[4..8] == b && bytes[8..12] == c && bytes[12..14] == d && bytes[14..16] == e
      && forall at :: 16 <= at < DIB_HEADER ==> bytes[at] == 0
  {
  }

  lemma RowCarries(rows: seq<seq<Byte>>, length: nat, row: nat, inner: nat, piece: seq<Byte>)
    requires AllOf(rows, length) && row < |rows| && Carries(rows[row], inner, piece)
    ensures Carries(Joined(rows), row * length + inner, piece)
  {
    EachPieceInItsPlace(rows, row);
    EvenStart(rows, row, length);
    PartOfAPart(Joined(rows), row * length, rows[row], inner, piece);
  }

  lemma PartOfAPart(bytes: seq<Byte>, at: nat, part: seq<Byte>, inner: nat, piece: seq<Byte>)
    requires Carries(bytes, at, part) && Carries(part, inner, piece)
    ensures Carries(bytes, at + inner, piece)
  {
    SliceOfASlice(bytes, at, at + |part|, inner, inner + |piece|);
  }

  lemma SliceOfASlice(s: seq<Byte>, from: nat, to: nat, a: nat, b: nat)
    requires from <= to <= |s| && a <= b <= to - from
    ensures s[from..to][a..b] == s[from + a..from + b]
  {
    var inner, direct := s[from..to][a..b], s[from + a..from + b];
    assert forall i :: 0 <= i < b - a ==> inner[i] == s[from + a + i] && direct[i] == s[from + a + i];
    assert inner == direct;
  }

  lemma PixelInItsRow(image: Image, x: nat, y: nat, row: nat, piece: seq<Byte>)
    requires IsImage(image) && x < image.width && y < image.height && row == image.height - 1 - y
    requires piece == Bgra(image, x, y)
    ensures Carries(ColourRow(image, row), x * 4, piece)
  {
    var pixels := RowPixels(image, y);
    EachPieceInItsPlace(pixels, x);
    EvenStart(pixels, x, 4);
  }

  lemma PixelInTheColours(image: Image, x: nat, y: nat, row: nat, at: nat, piece: seq<Byte>)
    requires IsImage(image) && x < image.width && y < image.height && row == image.height - 1 - y
    requires at == row * (image.width * 4) && piece == Bgra(image, x, y)
    ensures Carries(Joined(ColourRows(image)), at + x * 4, piece)
  {
    PixelInItsRow(image, x, y, row, piece);
    RowCarries(ColourRows(image), image.width * 4, row, x * 4, piece);
  }

  lemma BehindTheHeader(image: Image, at: nat, piece: seq<Byte>)
    requires IsImage(image) && Carries(Joined(ColourRows(image)), at, piece)
    ensures Carries(DibBytes(image), DIB_HEADER + at, piece)
  {
    CarriesBehind(DibHeader(image.width, image.height), Joined(ColourRows(image)), Joined(MaskRows(image)),
      at, piece, DibBytes(image), DIB_HEADER + at);
  }

  lemma BehindTheColours(image: Image, at: nat, piece: seq<Byte>)
    requires IsImage(image) && Carries(Joined(MaskRows(image)), at, piece)
    ensures Carries(DibBytes(image), DIB_HEADER + image.height * (image.width * 4) + at, piece)
  {
    EvenLength(ColourRows(image), image.width * 4);
    CarriesBehind(DibHeader(image.width, image.height) + Joined(ColourRows(image)), Joined(MaskRows(image)), [],
      at, piece, DibBytes(image), DIB_HEADER + image.height * (image.width * 4) + at);
  }

  lemma PixelOfTheRow(image: Image, x: nat, y: nat, row: nat, at: nat, piece: seq<Byte>)
    requires IsImage(image) && x < image.width && y < image.height && row == image.height - 1 - y
    requires at == row * (image.width * 4) && piece == Bgra(image, x, y)
    ensures Carries(DibBytes(image), DIB_HEADER + at + x * 4, piece)
  {
    PixelInTheColours(image, x, y, row, at, piece);
    BehindTheHeader(image, at + x * 4, piece);
  }

  /** Every pixel stands where a reader of the format looks for it, blue first. */
  lemma PixelReadsBack(image: Image, x: nat, y: nat)
    requires IsImage(image) && x < image.width && y < image.height
    ensures Carries(DibBytes(image), ColoursAt(image.width, image.height, x, y), Bgra(image, x, y))
  {
    var row := image.height - 1 - y;
    var at := row * (image.width * 4);
    PixelOfTheRow(image, x, y, row, at, Bgra(image, x, y));
    ColoursAtIs(image.width, image.height, x, y, row, at);
  }

  lemma ColoursAtIs(width: nat, height: nat, x: nat, y: nat, row: nat, at: nat)
    requires x < width && y < height && row == height - 1 - y && at == row * (width * 4)
    ensures ColoursAt(width, height, x, y) == DIB_HEADER + at + x * 4
  {
  }

  lemma BitIsSet(b: Byte, k: nat, j: nat)
    requires k < 8 && j < 8
    ensures Bit(WithBit(b, k), j) <==> j == k || Bit(b, j)
  {
    OneBitIsSet(b, 7 - k, 7 - j);
  }

  lemma {:induction false} MaskBit(image: Image, row: nat, n: nat, x: nat)
    requires IsImage(image) && row < image.height && n <= image.width && x < 8 * MaskRowLength(image.width)
    ensures Bit(MaskRow(image, row, n)[x / 8], x % 8)
      <==> x < n && Channel(image, x, image.height - 1 - row, 3) == 0
    decreases n
  {
    if n == 0 {
      ZeroHasNoBit(7 - x % 8);
    } else {
      MaskBit(image, row, n - 1, x);
      var before := MaskRow(image, row, n - 1);
      if x / 8 == (n - 1) / 8 { BitIsSet(before[x / 8], (n - 1) % 8, x % 8); }
    }
  }

  lemma MaskByteInTheMask(image: Image, i: nat, row: nat, at: nat, length: nat)
    requires IsImage(image) && row < image.height && i < length == MaskRowLength(image.width)
    requires at == row * length
    ensures Carries(Joined(MaskRows(image)), at + i, [MaskRow(image, row, image.width)[i]])
  {
    RowCarries(MaskRows(image), length, row, i, [MaskRow(image, row, image.width)[i]]);
  }

  lemma MaskByteInPlace(image: Image, x: nat, y: nat, row: nat, bytes: seq<Byte>)
    requires IsImage(image) && y < image.height && row == image.height - 1 - y
    requires bytes == MaskRow(image, row, image.width) && x / 8 < |bytes|
    ensures Carries(DibBytes(image), MaskAt(image.width, image.height, x, y), [bytes[x / 8]])
  {
    var length := MaskRowLength(image.width);
    var at := row * length;
    MaskByteOfTheRow(image, x / 8, row, at, length, bytes[x / 8]);
    MaskAtIs(image.width, image.height, x, y, row, at);
  }

  lemma MaskByteOfTheRow(image: Image, i: nat, row: nat, at: nat, length: nat, byte: Byte)
    requires IsImage(image) && row < image.height && i < length == MaskRowLength(image.width)
    requires at == row * length && byte == MaskRow(image, row, image.width)[i]
    ensures Carries(DibBytes(image), DIB_HEADER + image.height * (image.width * 4) + (at + i), [byte])
  {
    MaskByteInTheMask(image, i, row, at, length);
    BehindTheColours(image, at + i, [byte]);
  }

  lemma MaskAtIs(width: nat, height: nat, x: nat, y: nat, row: nat, at: nat)
    requires y < height && row == height - 1 - y && at == row * MaskRowLength(width)
    ensures MaskAt(width, height, x, y) == DIB_HEADER + height * (width * 4) + (at + x / 8)
  {
  }

  /** The mask lets the background through exactly where the drawing is fully transparent; its padding never does. */
  lemma MaskReadsBack(image: Image, x: nat, y: nat)
    requires IsImage(image) && y < image.height && x < 8 * MaskRowLength(image.width)
    ensures MaskAt(image.width, image.height, x, y) < |DibBytes(image)|
    ensures Bit(DibBytes(image)[MaskAt(image.width, image.height, x, y)], x % 8)
      <==> x < image.width && Channel(image, x, y, 3) == 0
  {
    var row := image.height - 1 - y;
    var bytes := MaskRow(image, row, image.width);
    var clear := x < image.width && Channel(image, x, y, 3) == 0;
    ByteOfTheRow(image, row, bytes, x, clear);
    MaskByteInPlace(image, x, y, row, bytes);
    CarriesBit(DibBytes(image), MaskAt(image.width, image.height, x, y), bytes[x / 8], x % 8, clear);
  }

  lemma ByteOfTheRow(image: Image, row: nat, bytes: seq<Byte>, x: nat, clear: bool)
    requires IsImage(image) && row < image.height && x < 8 * MaskRowLength(image.width)
    requires bytes == MaskRow(image, row, image.width)
    requires clear <==> x < image.width && Channel(image, x, image.height - 1 - row, 3) == 0
    ensures x / 8 < |bytes| && (Bit(bytes[x / 8], x % 8) <==> clear)
  {
    MaskBit(image, row, image.width, x);
  }

  lemma CarriesBit(bytes: seq<Byte>, at: nat, byte: Byte, k: nat, clear: bool)
    requires Carries(bytes, at, [byte]) && k < 8 && (Bit(byte, k) <==> clear)
    ensures at < |bytes| && (Bit(bytes[at], k) <==> clear)
  {
    assert bytes[at..at + 1][0] == byte;
  }

  /** Nothing but the header, the pixels and the mask. */
  lemma DibIsAllOfIt(image: Image)
    requires IsImage(image)
    ensures SaysItsSize(DibBytes(image), image.width, image.height)
    ensures |DibBytes(image)|
         == DIB_HEADER + image.height * (image.width * 4) + image.height * MaskRowLength(image.width)
  {
    EvenLength(ColourRows(image), image.width * 4);
    EvenLength(MaskRows(image), MaskRowLength(image.width));
    HeaderSaysIt(image.width, image.height, Joined(ColourRows(image)) + Joined(MaskRows(image)));
    assert DibBytes(image)
        == DibHeader(image.width, image.height) + (Joined(ColourRows(image)) + Joined(MaskRows(image)));
  }

  // ---- Many images in one file ----------------------------------------------------------------------------

  const ICO_HEADER: nat := 6
  const ICO_ENTRY: nat := 16

  /** One byte for an edge; 0 stands for 256. */
  function Edge(size: nat): Byte {
    if size >= 256 then 0 else size
  }

  function Entry(size: nat, length: nat, offset: nat): (bytes: seq<Byte>)
    ensures |bytes| == ICO_ENTRY
  {
    [Edge(size), Edge(size), 0, 0] + ToLittleEndian(1, 2) + ToLittleEndian(32, 2)
    + ToLittleEndian(length, 4) + ToLittleEndian(offset, 4)
  }

  /** The table: each image follows the one before it, the first one follows the table. */
  function Entries(sizes: seq<nat>, images: seq<seq<Byte>>): (entries: seq<seq<Byte>>)
    requires |sizes| == |images|
    ensures |entries| == |images| && AllOf(entries, ICO_ENTRY)
  {
    seq(|images|, i requires 0 <= i < |images| =>
      Entry(sizes[i], |images[i]|, ICO_HEADER + ICO_ENTRY * |images| + Start(images, i)))
  }

  function IcoHeader(count: nat): (bytes: seq<Byte>)
    ensures |bytes| == ICO_HEADER
  {
    ToLittleEndian(0, 2) + ToLittleEndian(1, 2) + ToLittleEndian(count, 2)
  }

  function IcoBytes(sizes: seq<nat>, images: seq<seq<Byte>>): seq<Byte>
    requires |sizes| == |images|
  {
    IcoHeader(|images|) + Joined(Entries(sizes, images)) + Joined(images)
  }

  method Ico(sizes: seq<nat>, images: seq<seq<Byte>>) returns (out: seq<Byte>)
    requires |sizes| == |images|
    ensures out == IcoBytes(sizes, images)
  {
    var table := Table(sizes, images);
    out := IcoHeader(|images|) + table;
    var heap := Heap(images);
    out := out + heap;
  }

  method Table(sizes: seq<nat>, images: seq<seq<Byte>>) returns (out: seq<Byte>)
    requires |sizes| == |images|
    ensures out == Joined(Entries(sizes, images))
  {
    out := [];
    ghost var entries := Entries(sizes, images);
    var offset := ICO_HEADER + ICO_ENTRY * |images|;
    for i := 0 to |images|
      invariant out == Joined(entries[..i])
      invariant offset == ICO_HEADER + ICO_ENTRY * |images| + Start(images, i)
    {
      var entry := Entry(sizes[i], |images[i]|, offset);
      assert entry == entries[i];
      JoinedOneMore(entries, i);
      JoinedOneMore(images, i);
      out := out + entry;
      offset := offset + |images[i]|;
    }
    assert entries[..|images|] == entries;
  }

  method Heap(images: seq<seq<Byte>>) returns (out: seq<Byte>)
    ensures out == Joined(images)
  {
    out := [];
    for i := 0 to |images|
      invariant out == Joined(images[..i])
    {
      JoinedOneMore(images, i);
      out := out + images[i];
    }
    assert images[..|images|] == images;
  }

  /** What the table of a file says of its image `i`. */
  function LengthOf(file: seq<Byte>, i: nat): nat
    requires ICO_HEADER + ICO_ENTRY * (i + 1) <= |file|
  {
    Number(file, ICO_HEADER + ICO_ENTRY * i + 8, 4)
  }

  function OffsetOf(file: seq<Byte>, i: nat): nat
    requires ICO_HEADER + ICO_ENTRY * (i + 1) <= |file|
  {
    Number(file, ICO_HEADER + ICO_ENTRY * i + 12, 4)
  }

  lemma EntrySaysIt(size: nat, length: nat, offset: nat)
    requires length < 0x1_0000_0000 && offset < 0x1_0000_0000
    ensures Number(Entry(size, length, offset), 8, 4) == length
    ensures Number(Entry(size, length, offset), 12, 4) == offset
  {
    Widths();
    var bytes := Entry(size, length, offset);
    assert bytes[8..12] == ToLittleEndian(length, 4);
    assert bytes[12..16] == ToLittleEndian(offset, 4);
    LittleEndianRoundTrip(length, 4);
    LittleEndianRoundTrip(offset, 4);
  }

  lemma EntryInItsPlace(sizes: seq<nat>, images: seq<seq<Byte>>, i: nat)
    requires |sizes| == |images| && i < |images|
    ensures Carries(IcoBytes(sizes, images), ICO_HEADER + ICO_ENTRY * i, Entries(sizes, images)[i])
  {
    var entries := Entries(sizes, images);
    EachPieceInItsPlace(entries, i);
    EvenStart(entries, i, ICO_ENTRY);
    CarriesBehind(IcoHeader(|images|), Joined(entries), Joined(images), ICO_ENTRY * i, entries[i],
      IcoBytes(sizes, images), ICO_HEADER + ICO_ENTRY * i);
  }

  lemma NumberInside(bytes: seq<Byte>, from: nat, piece: seq<Byte>, at: nat, width: nat)
    requires Carries(bytes, from, piece) && at + width <= |piece|
    ensures Number(bytes, from + at, width) == Number(piece, at, width)
  {
    SliceOfASlice(bytes, from, from + |piece|, at, at + width);
  }

  /**
  Each entry selects exactly its image. The images follow the table without a gap and without an
  overlap, and the last one ends where the file does.
  */
  lemma EachEntrySelectsItsImage(sizes: seq<nat>, images: seq<seq<Byte>>, i: nat)
    requires |sizes| == |images| && i < |images| && |IcoBytes(sizes, images)| < 0x1_0000_0000
    ensures var file := IcoBytes(sizes, images);
      && ICO_HEADER + ICO_ENTRY * |images| <= |file|
      && Carries(file, OffsetOf(file, i), images[i]) && LengthOf(file, i) == |images[i]|
      && OffsetOf(file, i) == (if i == 0 then ICO_HEADER + ICO_ENTRY * |images|
                               else OffsetOf(file, i - 1) + LengthOf(file, i - 1))
      && (i == |images| - 1 ==> OffsetOf(file, i) + LengthOf(file, i) == |file|)
  {
    var file, entries := IcoBytes(sizes, images), Entries(sizes, images);
    EvenLength(entries, ICO_ENTRY);
    SelectedBy(sizes, images, i);
    if i > 0 {
      SelectedBy(sizes, images, i - 1);
      JoinedOneMore(images, i - 1);
    }
    JoinedOneMore(images, i);
    assert images[..|images|] == images;
  }

  lemma ImageBehindTheTable(sizes: seq<nat>, images: seq<seq<Byte>>, i: nat)
    requires |sizes| == |images| && i < |images|
    ensures Carries(IcoBytes(sizes, images), ICO_HEADER + ICO_ENTRY * |images| + Start(images, i), images[i])
  {
    var entries := Entries(sizes, images);
    EvenLength(entries, ICO_ENTRY);
    EachPieceInItsPlace(images, i);
    CarriesBehind(IcoHeader(|images|) + Joined(entries), Joined(images), [], Start(images, i), images[i],
      IcoBytes(sizes, images), ICO_HEADER + ICO_ENTRY * |images| + Start(images, i));
  }

  lemma SelectedBy(sizes: seq<nat>, images: seq<seq<Byte>>, i: nat)
    requires |sizes| == |images| && i < |images| && |IcoBytes(sizes, images)| < 0x1_0000_0000
    ensures var file := IcoBytes(sizes, images);
      && ICO_HEADER + ICO_ENTRY * |images| <= |file|
      && Carries(file, OffsetOf(file, i), images[i]) && LengthOf(file, i) == |images[i]|
      && OffsetOf(file, i) == ICO_HEADER + ICO_ENTRY * |images| + Start(images, i)
  {
    ImageBehindTheTable(sizes, images, i);
    var offset := ICO_HEADER + ICO_ENTRY * |images| + Start(images, i);
    EntryInItsPlace(sizes, images, i);
    EntrySaysIt(sizes[i], |images[i]|, offset);
    ReadThroughTheEntry(IcoBytes(sizes, images), i, Entries(sizes, images)[i], |images[i]|, offset);
  }

  lemma ReadThroughTheEntry(file: seq<Byte>, i: nat, entry: seq<Byte>, length: nat, offset: nat)
    requires Carries(file, ICO_HEADER + ICO_ENTRY * i, entry) && |entry| == ICO_ENTRY
    requires Number(entry, 8, 4) == length && Number(entry, 12, 4) == offset
    ensures LengthOf(file, i) == length && OffsetOf(file, i) == offset
  {
    NumberInside(file, ICO_HEADER + ICO_ENTRY * i, entry, 8, 4);
    NumberInside(file, ICO_HEADER + ICO_ENTRY * i, entry, 12, 4);
  }
}
