/** The bounded preflight of an icon file (src/spaceman/dmi_decode.rs). */
module ChunkWalk {
  // Header, metadata chunk and image data, read from the raw bytes before any decoder sees
  // them. Decompression and the UTF-8 check are oracles.

  import opened Basics
  import opened Adam7

  datatype Failure =
    | MissingHeader
    | EmptyDimensions
    | Truncated
    | Animated
    | ColorType
    | NotText
    | TextCompression
    | CorruptText
    | CorruptImage
    | SizeMismatch
    | PixelLimit
    | DecoderLimit
    | MetadataLimit

  /** Bounded decompression: never more than the given number of bytes. */
  datatype Inflated = Done(bytes: seq<Byte>) | OutputTooLarge | Corrupt

  type Inflate = (seq<Byte>, nat) -> Inflated

  ghost predicate Bounded(inflate: Inflate) {
    forall data, limit :: inflate(data, limit).Done? ==> |inflate(data, limit).bytes| <= limit
  }

  type Kind = k: seq<Byte> | |k| == 4 witness [0, 0, 0, 0]

  const IHDR_HEAD: seq<Byte> := [0, 0, 0, 13, 73, 72, 68, 82]
  const SIGNATURE: seq<Byte> := [137, 80, 78, 71, 13, 10, 26, 10]
  const IDAT: Kind := [73, 68, 65, 84]
  const IEND: Kind := [73, 69, 78, 68]
  const TEXT: Kind := [116, 69, 88, 116]
  const ZTXT: Kind := [122, 84, 88, 116]
  const ACTL: Kind := [97, 99, 84, 76]
  const FCTL: Kind := [102, 99, 84, 76]
  const FDAT: Kind := [102, 100, 65, 84]
  const DESCRIPTION: seq<Byte> := [68, 101, 115, 99, 114, 105, 112, 116, 105, 111, 110]

  datatype Chunk = Chunk(kind: Kind, data: seq<Byte>)

  function BigEndian(b: seq<Byte>): (n: nat)
    requires |b| == 4
    ensures n < 0x1_0000_0000
  {
    b[0] as int * 0x100_0000 + b[1] as int * 0x1_0000 + b[2] as int * 0x100 + b[3] as int
  }

  // ----------------------------------------------------------------------- walk

  /** A whole chunk starts here: length, kind, data and checksum are all in the file. */
  predicate ChunkAt(bytes: seq<Byte>, offset: nat) {
    offset + 12 <= |bytes| && offset + 12 + BigEndian(bytes[offset..offset + 4]) <= |bytes|
  }

  function EndOf(bytes: seq<Byte>, offset: nat): nat
    requires ChunkAt(bytes, offset)
  {
    offset + 12 + BigEndian(bytes[offset..offset + 4])
  }

  function ReadChunk(bytes: seq<Byte>, offset: nat): Chunk
    requires ChunkAt(bytes, offset)
  {
    Chunk(bytes[offset + 4..offset + 8], bytes[offset + 8..EndOf(bytes, offset) - 4])
  }

  /** The chunks from an offset up to the image end or the end of the file. */
  function Chunks(bytes: seq<Byte>, offset: nat): seq<Chunk>
    decreases |bytes| - offset
  {
    if !ChunkAt(bytes, offset) then []
    else
      var c := ReadChunk(bytes, offset);
      if c.kind == IEND then [c] else [c] + Chunks(bytes, EndOf(bytes, offset))
  }

  /** The file does not break off inside a chunk. */
  predicate Whole(bytes: seq<Byte>, offset: nat)
    decreases |bytes| - offset
  {
    || offset >= |bytes|
    || (ChunkAt(bytes, offset)
        && (ReadChunk(bytes, offset).kind == IEND || Whole(bytes, EndOf(bytes, offset))))
  }

  predicate IsAnimation(c: Chunk) {
    c.kind == ACTL || c.kind == FCTL || c.kind == FDAT
  }

  /** The image data of a list of chunks, joined. */
  function ImageData(chunks: seq<Chunk>): seq<Byte> {
    if chunks == [] then []
    else (if chunks[0].kind == IDAT then chunks[0].data else []) + ImageData(chunks[1..])
  }

  predicate AnyAnimation(chunks: seq<Chunk>) {
    exists c <- chunks :: IsAnimation(c)
  }

  /** What one more chunk adds to the walk. */
  lemma StepAt(bytes: seq<Byte>, offset: nat)
    requires ChunkAt(bytes, offset)
    ensures var c := ReadChunk(bytes, offset);
            var rest := if c.kind == IEND then [] else Chunks(bytes, EndOf(bytes, offset));
            && Chunks(bytes, offset) == [c] + rest
            && ImageData(Chunks(bytes, offset)) == (if c.kind == IDAT then c.data else []) + ImageData(rest)
            && (AnyAnimation(Chunks(bytes, offset)) <==> IsAnimation(c) || AnyAnimation(rest))
            && (Whole(bytes, offset) <==> c.kind == IEND || Whole(bytes, EndOf(bytes, offset)))
  {
    hide BigEndian, IsAnimation;
    var c := ReadChunk(bytes, offset);
    var rest := if c.kind == IEND then [] else Chunks(bytes, EndOf(bytes, offset));
    assert ([c] + rest)[1..] == rest;
    assert [c] + [] == [c];
    assert c in [c] + rest;
    assert forall d <- rest :: d in [c] + rest;
  }

  // ------------------------------------------------------------------ round trip

  /** A length as the format stores it, highest byte first. */
  function LengthBytes(n: nat): (b: seq<Byte>)
    requires n < 0x1_0000_0000
    ensures |b| == 4
  {
    [n / 0x100_0000, n / 0x1_0000 % 256, n / 0x100 % 256, n % 256]
  }

  lemma LengthReadBack(n: nat)
    requires n < 0x1_0000_0000
    ensures BigEndian(LengthBytes(n)) == n
  {
    var q1 := n / 0x100;
    var q2 := q1 / 0x100;
    assert n / 0x1_0000 == q2;
    assert n / 0x100_0000 == q2 / 0x100;
  }

  /** A chunk as the format stores it, with any checksum. */
  function ChunkBytes(c: Chunk, checksum: Kind): seq<Byte>
    requires |c.data| < 0x1_0000_0000
  {
    LengthBytes(|c.data|) + c.kind + c.data + checksum
  }

  lemma ChunkReadBack(before: seq<Byte>, c: Chunk, checksum: Kind, after: seq<Byte>)
    requires |c.data| < 0x1_0000_0000
    ensures var bytes := before + ChunkBytes(c, checksum) + after;
            && ChunkAt(bytes, |before|) && ReadChunk(bytes, |before|) == c
            && EndOf(bytes, |before|) == |before| + |ChunkBytes(c, checksum)|
  {
    hide BigEndian, LengthBytes;
    var bytes, n := before + ChunkBytes(c, checksum) + after, |before|;
    LengthReadBack(|c.data|);
    assert bytes[n..n + 4] == LengthBytes(|c.data|);
    assert bytes[n + 4..n + 8] == c.kind;
    assert bytes[n + 8..n + 8 + |c.data|] == c.data;
  }

  /** The chunks of a file, one after the other. */
  function FileBytes(chunks: seq<Chunk>, checksum: Kind): seq<Byte>
    requires forall c <- chunks :: |c.data| < 0x1_0000_0000
  {
    if chunks == [] then [] else ChunkBytes(chunks[0], checksum) + FileBytes(chunks[1..], checksum)
  }

  /** The chunks written to a file are those read from it, up to its end chunk. */
  lemma {:induction false} ChunksReadBack(before: seq<Byte>, chunks: seq<Chunk>, checksum: Kind)
    requires forall c <- chunks :: |c.data| < 0x1_0000_0000
    requires forall i :: 0 <= i < |chunks| - 1 ==> chunks[i].kind != IEND
    ensures var bytes := before + FileBytes(chunks, checksum);
            Chunks(bytes, |before|) == chunks && Whole(bytes, |before|)
    decreases |chunks|
  {
    hide BigEndian, LengthBytes, ChunkBytes, ChunkAt, EndOf, ReadChunk;
    var bytes := before + FileBytes(chunks, checksum);
    if chunks == [] {
      assert bytes == before;
      AtEnd(bytes);
    } else {
      var c := chunks[0];
      var first, rest := ChunkBytes(c, checksum), FileBytes(chunks[1..], checksum);
      assert bytes == before + first + rest;
      ChunkReadBack(before, c, checksum, rest);
      if c.kind == IEND {
        assert chunks == [c];
      } else {
        ChunksReadBack(before + first, chunks[1..], checksum);
        assert |before + first| == |before| + |first|;
      }
    }
  }

  lemma AtEnd(bytes: seq<Byte>)
    ensures Chunks(bytes, |bytes|) == [] && Whole(bytes, |bytes|)
  {
  }

  lemma StopAt(bytes: seq<Byte>, offset: nat)
    requires !ChunkAt(bytes, offset)
    ensures Chunks(bytes, offset) == [] && ImageData(Chunks(bytes, offset)) == []
    ensures !AnyAnimation(Chunks(bytes, offset))
    ensures Whole(bytes, offset) <==> offset >= |bytes|
  {
    hide BigEndian, IsAnimation;
  }

  lemma NothingAfterEnd()
    ensures ImageData([]) == [] && !AnyAnimation([])
  {
  }

  /** The first walk: every step is checked. */
  method MeasureImageData(bytes: seq<Byte>) returns (r: Result<nat, Failure>)
    requires |bytes| >= 8
    ensures r.Ok? <==> Whole(bytes, 8) && !AnyAnimation(Chunks(bytes, 8))
    ensures r.Ok? ==> r.value == |ImageData(Chunks(bytes, 8))|
    ensures r.Err? ==> r.error == if AnyAnimation(Chunks(bytes, 8)) then Animated else Truncated
  {
    hide Chunks, ImageData, Whole, BigEndian, AnyAnimation;
    NothingAfterEnd();
    var offset, encoded := 8, 0;
    while offset < |bytes|
      invariant Whole(bytes, 8) <==> Whole(bytes, offset)
      invariant AnyAnimation(Chunks(bytes, 8)) <==> AnyAnimation(Chunks(bytes, offset))
      invariant encoded + |ImageData(Chunks(bytes, offset))| == |ImageData(Chunks(bytes, 8))|
      decreases |bytes| - offset
    {
      if offset + 8 > |bytes| {
        StopAt(bytes, offset);
        return Err(Truncated);
      }
      var length := BigEndian(bytes[offset..offset + 4]);
      var end := offset + 12 + length;
      if end > |bytes| {
        StopAt(bytes, offset);
        return Err(Truncated);
      }
      var kind := bytes[offset + 4..offset + 8];
      StepAt(bytes, offset);
      if kind == ACTL || kind == FCTL || kind == FDAT {
        return Err(Animated);
      }
      if kind == IDAT {
        encoded := encoded + length;
      }
      if kind == IEND {
        return Ok(encoded);
      }
      offset := end;
    }
    StopAt(bytes, offset);
    return Ok(encoded);
  }

  /** The second walk checks nothing. It stays inside the file because the first one did,
      and gathers exactly the measured image data. */
  method GatherImageData(bytes: seq<Byte>) returns (encoded: seq<Byte>)
    requires |bytes| >= 8 && Whole(bytes, 8)
    ensures encoded == ImageData(Chunks(bytes, 8))
  {
    hide Chunks, ImageData, Whole, BigEndian, AnyAnimation;
    NothingAfterEnd();
    var offset := 8;
    encoded := [];
    while offset < |bytes|
      invariant Whole(bytes, offset)
      invariant encoded + ImageData(Chunks(bytes, offset)) == ImageData(Chunks(bytes, 8))
      decreases |bytes| - offset
    {
      WholeGoesOn(bytes, offset);
      StepAt(bytes, offset);
      var length := BigEndian(bytes[offset..offset + 4]);
      var kind := bytes[offset + 4..offset + 8];
      if kind == IDAT {
        encoded := encoded + bytes[offset + 8..offset + 8 + length];
      }
      if kind == IEND {
        return;
      }
      offset := offset + length + 12;
    }
    StopAt(bytes, offset);
  }

  lemma WholeGoesOn(bytes: seq<Byte>, offset: nat)
    requires Whole(bytes, offset) && offset < |bytes|
    ensures ChunkAt(bytes, offset)
  {
  }

  // --------------------------------------------------------------------- header

  predicate Headed(bytes: seq<Byte>) {
    |bytes| >= 33 && bytes[..8] == SIGNATURE && bytes[8..16] == IHDR_HEAD
  }

  function Width(bytes: seq<Byte>): nat
    requires |bytes| >= 33
  {
    BigEndian(bytes[16..20])
  }

  function Height(bytes: seq<Byte>): nat
    requires |bytes| >= 33
  {
    BigEndian(bytes[20..24])
  }

  datatype Size = Size(width: nat, height: nat, decoded: nat)

  /** Accepts exactly the non-empty images within the pixel limit whose decoded size can
      be counted, and reports that size. */
  function Dimensions(bytes: seq<Byte>, maxPixels: nat): (r: Result<Size, Failure>)
    ensures r.Ok? <==> Headed(bytes) && 0 < Width(bytes) * Height(bytes) <= maxPixels
                       && Width(bytes) * Height(bytes) * 4 <= U64_MAX
    ensures r.Ok? ==> r.value.decoded == 4 * (r.value.width * r.value.height) && r.value.decoded <= 4 * maxPixels
    ensures r.Err? ==> r.error in {MissingHeader, EmptyDimensions, PixelLimit}
  {
    if !Headed(bytes) then Err(MissingHeader)
    else
      var w, h := Width(bytes), Height(bytes);
      Positive(w, h);
      if w == 0 || h == 0 then Err(EmptyDimensions)
      else if w * h > maxPixels || w * h * 4 > U64_MAX then Err(PixelLimit)
      else Ok(Size(w, h, w * h * 4))
  }

  /** The sides written into a header are the sides read from it. */
  lemma DimensionsReadBack(w: nat, h: nat, rest: seq<Byte>, maxPixels: nat)
    requires 0 < w < 0x1_0000_0000 && 0 < h < 0x1_0000_0000 && |rest| >= 9
    requires w * h <= maxPixels && w * h * 4 <= U64_MAX
    ensures Dimensions(SIGNATURE + IHDR_HEAD + LengthBytes(w) + LengthBytes(h) + rest, maxPixels) == Ok(Size(w, h, 4 * (w * h)))
  {
    hide BigEndian, LengthBytes;
    var bytes := SIGNATURE + IHDR_HEAD + LengthBytes(w) + LengthBytes(h) + rest;
    assert bytes[..8] == SIGNATURE && bytes[8..16] == IHDR_HEAD;
    assert bytes[16..20] == LengthBytes(w) && bytes[20..24] == LengthBytes(h);
    LengthReadBack(w);
    LengthReadBack(h);
    Positive(w, h);
  }

  lemma Positive(w: nat, h: nat)
    ensures w * h > 0 <==> w > 0 && h > 0
  {
  }

  // ------------------------------------------------------------------- metadata

  function FirstZero(data: seq<Byte>): (k: Option<nat>)
    ensures k.Some? ==> k.value < |data| && data[k.value] == 0
  {
    if data == [] then None
    else if data[0] == 0 then Some(0)
    else
      var k := FirstZero(data[1..]);
      if k.Some? then Some(k.value + 1) else None
  }

  /** The text chunk that carries icon metadata, by its keyword. */
  predicate Describes(c: Chunk) {
    && (c.kind == TEXT || c.kind == ZTXT)
    && var k := FirstZero(c.data);
    k.Some? && c.data[..k.value] == DESCRIPTION
  }

  function TextOf(c: Chunk, limit: nat, inflate: Inflate, utf8: seq<Byte> -> bool): Result<seq<Byte>, Failure>
    requires Describes(c)
  {
    var value := c.data[FirstZero(c.data).value + 1..];
    if c.kind == TEXT then
      if |value| > limit then Err(MetadataLimit) else if utf8(value) then Ok(value) else Err(NotText)
    else if value == [] || value[0] != 0 then Err(TextCompression)
    else
      match inflate(value[1..], limit)
      case Done(text) => if utf8(text) then Ok(text) else Err(NotText)
      case OutputTooLarge => Err(MetadataLimit)
      case Corrupt => Err(CorruptText)
  }

  /** The first of the chunks that describes decides; without one, a broken file is an
      error and a whole one has no metadata. */
  function Described(bytes: seq<Byte>, offset: nat, limit: nat, inflate: Inflate, utf8: seq<Byte> -> bool): Result<Option<seq<Byte>>, Failure> {
    var found := FirstThat(Chunks(bytes, offset));
    if found.Some? then
      match TextOf(found.value, limit, inflate, utf8)
      case Ok(text) => Ok(Some(text))
      case Err(failure) => Err(failure)
    else if Whole(bytes, offset) then Ok(None)
    else Err(Truncated)
  }

  function FirstThat(chunks: seq<Chunk>): (c: Option<Chunk>)
    ensures c.Some? ==> c.value in chunks && Describes(c.value)
    ensures c.None? ==> forall d <- chunks :: !Describes(d)
  {
    if chunks == [] then None else if Describes(chunks[0]) then Some(chunks[0]) else FirstThat(chunks[1..])
  }

  lemma FirstThatStep(c: Chunk, rest: seq<Chunk>)
    ensures FirstThat([c] + rest) == if Describes(c) then Some(c) else FirstThat(rest)
    ensures FirstThat([]) == None
  {
    hide Describes;
    assert ([c] + rest)[1..] == rest;
  }

  /** A keyword chunk around a text stored as it is, or around a compressed one. */
  function PlainChunk(text: seq<Byte>): Chunk {
    Chunk(TEXT, DESCRIPTION + [0] + text)
  }

  function PackedChunk(packed: seq<Byte>): Chunk {
    Chunk(ZTXT, DESCRIPTION + [0] + ([0] + packed))
  }

  lemma {:induction false} FirstZeroIs(a: seq<Byte>, rest: seq<Byte>)
    requires 0 !in a
    ensures FirstZero(a + [0] + rest) == Some(|a|)
  {
    if a != [] {
      assert (a + [0] + rest)[1..] == a[1..] + [0] + rest;
      FirstZeroIs(a[1..], rest);
    }
  }

  lemma KeywordSplit(c: Chunk, rest: seq<Byte>)
    requires c.data == DESCRIPTION + [0] + rest && (c.kind == TEXT || c.kind == ZTXT)
    ensures Describes(c) && c.data[FirstZero(c.data).value + 1..] == rest
  {
    hide FirstZero;
    FirstZeroIs(DESCRIPTION, rest);
    assert c.data[..|DESCRIPTION|] == DESCRIPTION;
  }

  /** What is stored in a describing chunk is what is read from it: the text itself, or what
      the packed text expands to. */
  lemma TextReadBack(text: seq<Byte>, packed: seq<Byte>, limit: nat, inflate: Inflate, utf8: seq<Byte> -> bool)
    ensures Describes(PlainChunk(text)) && Describes(PackedChunk(packed))
    ensures utf8(text) && |text| <= limit ==> TextOf(PlainChunk(text), limit, inflate, utf8) == Ok(text)
    ensures |text| > limit ==> TextOf(PlainChunk(text), limit, inflate, utf8) == Err(MetadataLimit)
    ensures utf8(text) && inflate(packed, limit) == Done(text) ==> TextOf(PackedChunk(packed), limit, inflate, utf8) == Ok(text)
    ensures inflate(packed, limit) == OutputTooLarge ==> TextOf(PackedChunk(packed), limit, inflate, utf8) == Err(MetadataLimit)
  {
    hide FirstZero, Describes;
    KeywordSplit(PlainChunk(text), text);
    KeywordSplit(PackedChunk(packed), [0] + packed);
    assert ([0] + packed)[1..] == packed;
  }

  /** And every accepted description was stored in one of the two ways. */
  lemma TextStored(c: Chunk, limit: nat, inflate: Inflate, utf8: seq<Byte> -> bool)
    requires Describes(c) && TextOf(c, limit, inflate, utf8).Ok?
    ensures var text := TextOf(c, limit, inflate, utf8).value;
            c == PlainChunk(text) || exists packed :: c == PackedChunk(packed) && inflate(packed, limit) == Done(text)
  {
    var k := FirstZero(c.data).value;
    var value := c.data[k + 1..];
    assert c.data == c.data[..k] + [c.data[k]] + value;
    if c.kind == ZTXT {
      assert value == [0] + value[1..];
      assert c == PackedChunk(value[1..]);
    }
  }

  method Description(bytes: seq<Byte>, limit: nat, inflate: Inflate, utf8: seq<Byte> -> bool)
    returns (r: Result<Option<seq<Byte>>, Failure>)
    requires |bytes| >= 8
    ensures r == Described(bytes, 8, limit, inflate, utf8)
  {
    hide Chunks, ImageData, Whole, BigEndian, AnyAnimation, Describes, TextOf, FirstThat;
    var offset := 8;
    while offset < |bytes|
      invariant FirstThat(Chunks(bytes, 8)) == FirstThat(Chunks(bytes, offset))
      invariant Whole(bytes, 8) <==> Whole(bytes, offset)
      decreases |bytes| - offset
    {
      if offset + 8 > |bytes| {
        StopAt(bytes, offset);
        FirstThatStep(Chunk(IEND, []), []);
        return Err(Truncated);
      }
      var length := BigEndian(bytes[offset..offset + 4]);
      var end := offset + 12 + length;
      if end > |bytes| {
        StopAt(bytes, offset);
        FirstThatStep(Chunk(IEND, []), []);
        return Err(Truncated);
      }
      StepAt(bytes, offset);
      var c := ReadChunk(bytes, offset);
      FirstThatStep(c, if c.kind == IEND then [] else Chunks(bytes, end));
      if Describes(c) {
        match TextOf(c, limit, inflate, utf8)
        case Ok(text) => return Ok(Some(text));
        case Err(failure) => return Err(failure);
      }
      if c.kind == IEND {
        return Ok(None);
      }
      offset := end;
    }
    StopAt(bytes, offset);
    FirstThatStep(Chunk(IEND, []), []);
    return Ok(None);
  }

  /** Whatever is accepted as metadata is text within the limit, however it was stored. */
  lemma DescriptionBounded(bytes: seq<Byte>, limit: nat, inflate: Inflate, utf8: seq<Byte> -> bool)
    requires |bytes| >= 8 && Bounded(inflate)
    ensures var r := Described(bytes, 8, limit, inflate, utf8);
            r.Ok? && r.value.Some? ==> |r.value.value| <= limit && utf8(r.value.value)
  {
    hide Chunks, Whole, Describes, TextOf;
    var found := FirstThat(Chunks(bytes, 8));
    if found.Some? {
      TextBounded(found.value, limit, inflate, utf8);
    }
  }

  lemma TextBounded(c: Chunk, limit: nat, inflate: Inflate, utf8: seq<Byte> -> bool)
    requires Describes(c) && Bounded(inflate)
    ensures var r := TextOf(c, limit, inflate, utf8); r.Ok? ==> |r.value| <= limit && utf8(r.value)
  {
    var value := c.data[FirstZero(c.data).value + 1..];
    if value != [] {
      assert inflate(value[1..], limit).Done? ==> |inflate(value[1..], limit).bytes| <= limit;
    }
  }

  // ----------------------------------------------------------------- image data

  function Channels(colorType: Byte): Option<nat> {
    if colorType == 0 || colorType == 3 then Some(1)
    else if colorType == 2 then Some(3)
    else if colorType == 4 then Some(2)
    else if colorType == 6 then Some(4)
    else None
  }

  /** The colour type is three flags, as in section 4.1.1 of RFC 2083: palette, colour and
      alpha. A palette index is one channel. */
  lemma ChannelsMeaning(colorType: Byte)
    ensures var palette, colour, alpha := colorType % 2 == 1, colorType / 2 % 2 == 1, colorType / 4 % 2 == 1;
            && (Channels(colorType).Some? <==> colorType < 8 && (palette ==> colour && !alpha))
            && (Channels(colorType).Some? ==>
                  Channels(colorType).value == if palette then 1 else (if colour then 3 else 1) + (if alpha then 1 else 0))
  {
  }

  /** The filtered size that the header announces. */
  function Announced(bytes: seq<Byte>): (size: Option<nat>)
    requires |bytes| >= 33
  {
    if Channels(bytes[25]).None? then None
    else
      Some(FilteredBytes(Passes(bytes[28] != 0), Width(bytes), Height(bytes), Channels(bytes[25]).value * bytes[24]))
  }

  predicate Acceptable(bytes: seq<Byte>, maxPixels: nat, maxDecoder: nat, inflate: Inflate) {
    && Dimensions(bytes, maxPixels).Ok?
    && Announced(bytes).Some? && Announced(bytes).value <= maxDecoder
    && Whole(bytes, 8) && !AnyAnimation(Chunks(bytes, 8))
    && var image := inflate(ImageData(Chunks(bytes, 8)), Announced(bytes).value);
    image.Done? && |image.bytes| == Announced(bytes).value
  }

  /** Accepts a file exactly when its chunks are whole and not animated and its image data
      expands to the announced size, within the limits. */
  method BoundedImageStream(bytes: seq<Byte>, maxPixels: nat, maxDecoder: nat, inflate: Inflate) returns (failure: Option<Failure>)
    requires maxDecoder <= U64_MAX
    ensures maxDecoder < U64_MAX ==> (failure.None? <==> Acceptable(bytes, maxPixels, maxDecoder, inflate))
    ensures Acceptable(bytes, maxPixels, maxDecoder, inflate) ==> failure.None?
  {
    hide Chunks, Whole, ImageData, AnyAnimation, FilteredBytes, Headed;
    var size := Dimensions(bytes, maxPixels);
    if size.Err? {
      return Some(size.error);
    }
    HeadedIsLong(bytes);
    var channels := Channels(bytes[25]);
    if channels.None? {
      return Some(ColorType);
    }
    var expected := ExpectedBytes(bytes[28] != 0, size.value.width, size.value.height, channels.value * bytes[24], maxDecoder);
    if expected.None? {
      return Some(DecoderLimit);
    }
    var measured := MeasureImageData(bytes);
    if measured.Err? {
      return Some(measured.error);
    }
    var encoded := GatherImageData(bytes);
    assert |encoded| == measured.value;
    match inflate(encoded, expected.value)
    case OutputTooLarge => return Some(PixelLimit);
    case Corrupt => return Some(CorruptImage);
    case Done(filtered) =>
      if |filtered| != expected.value {
        return Some(SizeMismatch);
      }
      return None;
  }

  lemma HeadedIsLong(bytes: seq<Byte>)
    requires Headed(bytes)
    ensures |bytes| >= 33
  {
  }
}
