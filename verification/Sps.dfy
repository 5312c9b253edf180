/**
  The picture size in an SPS (section 7.3.2.1.1 of ITU-T H.264).  The parser keeps just the fields
  the size depends on but must step over all the others, bit by bit.
 */
module Sps {
  import opened Rtp
  import opened ExpGolomb
  import opened EmulationPrevention

  // ---------------------------------------------------------------- the syntax

  /** The fields present only for the high profiles, without a scaling matrix. */
  datatype High =
    | Low
    | High(chroma: nat, separatePlanes: bool, lumaDepth: nat, chromaDepth: nat, bypass: bool)

  datatype PicOrder = Type0(log2Lsb: nat) | Type2

  datatype FrameCoding = FramesOnly | Fields(mbAdaptive: bool)

  datatype Crop = NoCrop | Crop(left: nat, right: nat, top: nat, bottom: nat)

  datatype Ident = Ident(profile: nat, constraints: nat, level: nat, id: nat)

  datatype Head = Head(ident: Ident, high: High)

  datatype Middle = Middle(log2FrameNum: nat, order: PicOrder, refFrames: nat, gaps: bool)

  datatype Size = Size(widthMbs: nat, heightUnits: nat, coding: FrameCoding, direct: bool, crop: Crop)

  datatype Sps = Sps(head: Head, middle: Middle, size: Size)

  const HIGH_PROFILES: set<nat> := {100, 110, 122, 244, 44, 83, 86, 118, 128, 138, 139, 134, 135}

  /** They are the profiles whose SPS carries the chroma format and what depends on it (section 7.3.2.1.1). */
  lemma HighProfilesStandard(profile: nat)
    ensures profile in HIGH_PROFILES <==>
      || profile == 100 || profile == 110 || profile == 122 || profile == 244    // High to High 4:4:4 Predictive
      || profile == 44 || profile == 83 || profile == 86                         // CAVLC 4:4:4 Intra, scalable
      || profile == 118 || profile == 128 || profile == 134 || profile == 135    // multiview and depth
      || profile == 138 || profile == 139
  {
  }

  predicate Ue(v: nat) {
    v <= MAX_UE
  }

  /** Field values the codes can carry: fields that only high profiles have are absent in others. */
  predicate Encodable(f: Sps) {
    && f.head.ident.profile < 256 && f.head.ident.constraints < 256 && f.head.ident.level < 256
    && Ue(f.head.ident.id)
    && (f.head.ident.profile in HIGH_PROFILES <==> f.head.high.High?)
    && (f.head.high.High? ==> EncodableHigh(f.head.high))
    && Ue(f.middle.log2FrameNum) && Ue(f.middle.refFrames)
    && (f.middle.order.Type0? ==> Ue(f.middle.order.log2Lsb))
    && Ue(f.size.widthMbs) && Ue(f.size.heightUnits)
    && (f.size.crop.Crop? ==>
          Ue(f.size.crop.left) && Ue(f.size.crop.right) && Ue(f.size.crop.top) && Ue(f.size.crop.bottom))
  }

  predicate EncodableHigh(h: High)
    requires h.High?
  {
    Ue(h.chroma) && (h.separatePlanes ==> h.chroma == 3) && Ue(h.lumaDepth) && Ue(h.chromaDepth)
  }

  // ---------------------------------------------------------------- writing, each piece before what follows it

  function Flag(b: bool): Bits {
    [b]
  }

  function WriteHigh(h: High, rest: Bits): Bits {
    match h
    case Low => rest
    case High(chroma, separatePlanes, lumaDepth, chromaDepth, bypass) =>
      var tail := UeCode(lumaDepth) + (UeCode(chromaDepth) + (Flag(bypass) + (Flag(false) + rest)));
      UeCode(chroma) + (if chroma == 3 then Flag(separatePlanes) + tail else tail)
  }

  function WriteIdent(i: Ident, rest: Bits): Bits {
    Fixed(i.profile, 8) + (Fixed(i.constraints, 8) + (Fixed(i.level, 8) + (UeCode(i.id) + rest)))
  }

  function WriteHead(h: Head, rest: Bits): Bits {
    WriteIdent(h.ident, WriteHigh(h.high, rest))
  }

  function WriteOrder(o: PicOrder, rest: Bits): Bits {
    match o
    case Type0(log2Lsb) => UeCode(0) + (UeCode(log2Lsb) + rest)
    case Type2 => UeCode(2) + rest
  }

  function WriteMiddle(m: Middle, rest: Bits): Bits {
    UeCode(m.log2FrameNum) + WriteOrder(m.order, UeCode(m.refFrames) + (Flag(m.gaps) + rest))
  }

  function WriteCrop(c: Crop, rest: Bits): Bits {
    match c
    case NoCrop => Flag(false) + rest
    case Crop(left, right, top, bottom) =>
      Flag(true) + (UeCode(left) + (UeCode(right) + (UeCode(top) + (UeCode(bottom) + rest))))
  }

  function WriteCoding(c: FrameCoding, rest: Bits): Bits {
    match c
    case FramesOnly => Flag(true) + rest
    case Fields(mbAdaptive) => Flag(false) + (Flag(mbAdaptive) + rest)
  }

  function WriteSize(s: Size, rest: Bits): Bits {
    UeCode(s.widthMbs) + (UeCode(s.heightUnits) + WriteCoding(s.coding, Flag(s.direct) + WriteCrop(s.crop, rest)))
  }

  function WriteSps(f: Sps, rest: Bits): Bits {
    WriteHead(f.head, WriteMiddle(f.middle, WriteSize(f.size, rest)))
  }

  // ---------------------------------------------------------------- parsing

  function ReadFlag(bits: Bits): Parsed<bool> {
    match ReadU(bits, 1)
    case Fail => Fail
    case Got(v, rest) => Got(v != 0, rest)
  }

  function ParseHigh(bits: Bits): (p: Parsed<High>)
    ensures p.Got? ==> p.value.High?
  {
    var (chroma, b1) :- ReadUe(bits);
    var (separatePlanes, b2) :- if chroma == 3 then ReadFlag(b1) else Got(false, b1);
    var (lumaDepth, b3) :- ReadUe(b2);
    var (chromaDepth, b4) :- ReadUe(b3);
    var (bypass, b5) :- ReadFlag(b4);
    var (scaling, b6) :- ReadFlag(b5);
    if scaling then Fail else Got(High(chroma, separatePlanes, lumaDepth, chromaDepth, bypass), b6)
  }

  function ParseIdent(bits: Bits): Parsed<Ident> {
    var (profile, b1) :- ReadU(bits, 8);
    var (constraints, b2) :- ReadU(b1, 8);
    var (level, b3) :- ReadU(b2, 8);
    var (id, b4) :- ReadUe(b3);
    Got(Ident(profile, constraints, level, id), b4)
  }

  function ParseHead(bits: Bits): Parsed<Head> {
    var (ident, b1) :- ParseIdent(bits);
    var (high, b2) :- if ident.profile in HIGH_PROFILES then ParseHigh(b1) else Got(Low, b1);
    Got(Head(ident, high), b2)
  }

  function ParseOrder(bits: Bits): Parsed<PicOrder> {
    var (t, b1) :- ReadUe(bits);
    if t == 0 then
      var (log2Lsb, b2) :- ReadUe(b1);
      Got(Type0(log2Lsb), b2)
    else if t == 2 then Got(Type2, b1)
    else Fail
  }

  function ParseMiddle(bits: Bits): Parsed<Middle> {
    var (log2FrameNum, b1) :- ReadUe(bits);
    var (order, b2) :- ParseOrder(b1);
    var (refFrames, b3) :- ReadUe(b2);
    var (gaps, b4) :- ReadFlag(b3);
    Got(Middle(log2FrameNum, order, refFrames, gaps), b4)
  }

  function ParseCoding(bits: Bits): Parsed<FrameCoding> {
    var (framesOnly, b1) :- ReadFlag(bits);
    if framesOnly then Got(FramesOnly, b1)
    else
      var (mbAdaptive, b2) :- ReadFlag(b1);
      Got(Fields(mbAdaptive), b2)
  }

  function ParseCrop(bits: Bits): Parsed<Crop> {
    var (cropping, b1) :- ReadFlag(bits);
    if !cropping then Got(NoCrop, b1)
    else
      var (left, b2) :- ReadUe(b1);
      var (right, b3) :- ReadUe(b2);
      var (top, b4) :- ReadUe(b3);
      var (bottom, b5) :- ReadUe(b4);
      Got(Crop(left, right, top, bottom), b5)
  }

  function ParseSize(bits: Bits): Parsed<Size> {
    var (widthMbs, b1) :- ReadUe(bits);
    var (heightUnits, b2) :- ReadUe(b1);
    var (coding, b3) :- ParseCoding(b2);
    var (direct, b4) :- ReadFlag(b3);
    var (crop, b5) :- ParseCrop(b4);
    Got(Size(widthMbs, heightUnits, coding, direct, crop), b5)
  }

  function ParseSps(bits: Bits): Parsed<Sps> {
    var (head, b1) :- ParseHead(bits);
    var (middle, b2) :- ParseMiddle(b1);
    var (size, b3) :- ParseSize(b2);
    Got(Sps(head, middle, size), b3)
  }

  // ---------------------------------------------------------------- parsing undoes writing

  lemma FlagRoundTrip(b: bool, rest: Bits)
    ensures ReadFlag(Flag(b) + rest) == Got(b, rest)
  {
    assert Fixed(if b then 1 else 0, 1) == Fixed(0, 0) + [b] == [b];
    assert Pow2(1) == 2;
    URoundTrip(if b then 1 else 0, 1, rest);
  }

  lemma ByteRoundTrip(v: nat, rest: Bits)
    requires v < 256
    ensures ReadU(Fixed(v, 8) + rest, 8) == Got(v, rest)
  {
    assert Pow2(8) == 256;
    URoundTrip(v, 8, rest);
  }

  lemma HighRoundTrip(h: High, rest: Bits)
    requires h.High? && EncodableHigh(h)
    ensures ParseHigh(WriteHigh(h, rest)) == Got(h, rest)
  {
    var t4 := Flag(false) + rest;
    var t3 := Flag(h.bypass) + t4;
    var t2 := UeCode(h.chromaDepth) + t3;
    var t1 := UeCode(h.lumaDepth) + t2;
    FlagRoundTrip(false, rest);
    FlagRoundTrip(h.bypass, t4);
    UeRoundTripIff(h.chromaDepth, t3);
    UeRoundTripIff(h.lumaDepth, t2);
    FlagRoundTrip(h.separatePlanes, t1);
    UeRoundTripIff(h.chroma, if h.chroma == 3 then Flag(h.separatePlanes) + t1 else t1);
  }

  lemma IdentRoundTrip(i: Ident, rest: Bits)
    requires i.profile < 256 && i.constraints < 256 && i.level < 256 && Ue(i.id)
    ensures ParseIdent(WriteIdent(i, rest)) == Got(i, rest)
  {
    var t3 := UeCode(i.id) + rest;
    var t2 := Fixed(i.level, 8) + t3;
    var t1 := Fixed(i.constraints, 8) + t2;
    UeRoundTripIff(i.id, rest);
    ByteRoundTrip(i.level, t3);
    ByteRoundTrip(i.constraints, t2);
    ByteRoundTrip(i.profile, t1);
  }

  lemma HeadRoundTrip(f: Sps, rest: Bits)
    requires Encodable(f)
    ensures ParseHead(WriteHead(f.head, rest)) == Got(f.head, rest)
  {
    var h := f.head;
    if h.high.High? {
      HighRoundTrip(h.high, rest);
    }
    IdentRoundTrip(h.ident, WriteHigh(h.high, rest));
  }

  lemma OrderRoundTrip(o: PicOrder, rest: Bits)
    requires o.Type0? ==> Ue(o.log2Lsb)
    ensures ParseOrder(WriteOrder(o, rest)) == Got(o, rest)
  {
    match o
    case Type0(log2Lsb) =>
      UeRoundTripIff(0, UeCode(log2Lsb) + rest);
      UeRoundTripIff(log2Lsb, rest);
    case Type2 =>
      UeRoundTripIff(2, rest);
  }

  lemma MiddleRoundTrip(f: Sps, rest: Bits)
    requires Encodable(f)
    ensures ParseMiddle(WriteMiddle(f.middle, rest)) == Got(f.middle, rest)
  {
    var m := f.middle;
    var t3 := Flag(m.gaps) + rest;
    var t2 := UeCode(m.refFrames) + t3;
    var t1 := WriteOrder(m.order, t2);
    FlagRoundTrip(m.gaps, rest);
    UeRoundTripIff(m.refFrames, t3);
    OrderRoundTrip(m.order, t2);
    UeRoundTripIff(m.log2FrameNum, t1);
  }

  lemma CropRoundTrip(c: Crop, rest: Bits)
    requires c.Crop? ==> Ue(c.left) && Ue(c.right) && Ue(c.top) && Ue(c.bottom)
    ensures ParseCrop(WriteCrop(c, rest)) == Got(c, rest)
  {
    match c
    case NoCrop => FlagRoundTrip(false, rest);
    case Crop(left, right, top, bottom) =>
      var t3 := UeCode(bottom) + rest;
      var t2 := UeCode(top) + t3;
      var t1 := UeCode(right) + t2;
      UeRoundTripIff(bottom, rest);
      UeRoundTripIff(top, t3);
      UeRoundTripIff(right, t2);
      UeRoundTripIff(left, t1);
      FlagRoundTrip(true, UeCode(left) + t1);
  }

  lemma CodingRoundTrip(c: FrameCoding, rest: Bits)
    ensures ParseCoding(WriteCoding(c, rest)) == Got(c, rest)
  {
    match c
    case FramesOnly => FlagRoundTrip(true, rest);
    case Fields(mbAdaptive) =>
      FlagRoundTrip(mbAdaptive, rest);
      FlagRoundTrip(false, Flag(mbAdaptive) + rest);
  }

  lemma SizeRoundTrip(f: Sps, rest: Bits)
    requires Encodable(f)
    ensures ParseSize(WriteSize(f.size, rest)) == Got(f.size, rest)
  {
    var s := f.size;
    var t4 := WriteCrop(s.crop, rest);
    var t3 := Flag(s.direct) + t4;
    var t2 := WriteCoding(s.coding, t3);
    var t1 := UeCode(s.heightUnits) + t2;
    CropRoundTrip(s.crop, rest);
    FlagRoundTrip(s.direct, t4);
    CodingRoundTrip(s.coding, t3);
    UeRoundTripIff(s.heightUnits, t2);
    UeRoundTripIff(s.widthMbs, t1);
  }

  /** Every encodable field assignment is read back from its bits, whatever follows them. */
  lemma SpsBitsRoundTrip(f: Sps, rest: Bits)
    requires Encodable(f)
    ensures ParseSps(WriteSps(f, rest)) == Got(f, rest)
  {
    var t2 := WriteSize(f.size, rest);
    var t1 := WriteMiddle(f.middle, t2);
    HeadRoundTrip(f, t1);
    MiddleRoundTrip(f, t2);
    SizeRoundTrip(f, rest);
  }

  // ---------------------------------------------------------------- whatever is parsed was written

  lemma FlagReads(bits: Bits)
    requires ReadFlag(bits).Got?
    ensures var p := ReadFlag(bits); bits == Flag(p.value) + p.rest
  {
    var r := ReadU(bits, 1);
    UReadsOnlyCodes(bits, 1);
    assert Pow2(1) == 2;
    assert Fixed(r.value, 1) == Fixed(0, 0) + [r.value % 2 == 1] == [r.value != 0];
  }

  lemma ByteReads(bits: Bits)
    requires ReadU(bits, 8).Got?
    ensures var p := ReadU(bits, 8); p.value < 256 && bits == Fixed(p.value, 8) + p.rest
  {
    UReadsOnlyCodes(bits, 8);
    assert Pow2(8) == 256;
  }

  lemma HighReads(bits: Bits)
    requires ParseHigh(bits).Got?
    ensures var p := ParseHigh(bits); EncodableHigh(p.value) && bits == WriteHigh(p.value, p.rest)
  {
    var chroma := ReadUe(bits);
    UeReadsOnlyCodes(bits);
    if chroma.value == 3 {
      FlagReads(chroma.rest);
    }
    HighTailReads(if chroma.value == 3 then ReadFlag(chroma.rest).rest else chroma.rest);
  }

  /** The part of the high-profile fields after the chroma format. */
  lemma HighTailReads(b2: Bits)
    requires ReadUe(b2).Got? && ReadUe(ReadUe(b2).rest).Got?
    requires var b4 := ReadUe(ReadUe(b2).rest).rest; ReadFlag(b4).Got? && ReadFlag(ReadFlag(b4).rest).Got?
    ensures var luma := ReadUe(b2);
      var depth := ReadUe(luma.rest);
      var bypass := ReadFlag(depth.rest);
      var scaling := ReadFlag(bypass.rest);
      && Ue(luma.value) && Ue(depth.value)
      && b2 == UeCode(luma.value) + (UeCode(depth.value) + (Flag(bypass.value) + (Flag(scaling.value) + scaling.rest)))
  {
    UeReadsOnlyCodes(b2);
    UeReadsOnlyCodes(ReadUe(b2).rest);
    var b4 := ReadUe(ReadUe(b2).rest).rest;
    FlagReads(b4);
    FlagReads(ReadFlag(b4).rest);
  }

  lemma IdentReads(bits: Bits)
    requires ParseIdent(bits).Got?
    ensures var p := ParseIdent(bits);
      && p.value.profile < 256 && p.value.constraints < 256 && p.value.level < 256 && Ue(p.value.id)
      && bits == WriteIdent(p.value, p.rest)
  {
    var b1 := ReadU(bits, 8).rest;
    var b2 := ReadU(b1, 8).rest;
    ByteReads(bits);
    ByteReads(b1);
    ByteReads(b2);
    UeReadsOnlyCodes(ReadU(b2, 8).rest);
  }

  lemma HeadReads(bits: Bits)
    requires ParseHead(bits).Got?
    ensures var p := ParseHead(bits);
      var i := p.value.ident;
      && i.profile < 256 && i.constraints < 256 && i.level < 256 && Ue(i.id)
      && (i.profile in HIGH_PROFILES <==> p.value.high.High?)
      && (p.value.high.High? ==> EncodableHigh(p.value.high))
      && bits == WriteHead(p.value, p.rest)
  {
    IdentReads(bits);
    var ident := ParseIdent(bits);
    if ident.value.profile in HIGH_PROFILES {
      HighReads(ident.rest);
    }
  }

  lemma OrderReads(bits: Bits)
    requires ParseOrder(bits).Got?
    ensures var p := ParseOrder(bits);
      (p.value.Type0? ==> Ue(p.value.log2Lsb)) && bits == WriteOrder(p.value, p.rest)
  {
    UeReadsOnlyCodes(bits);
    if ReadUe(bits).value == 0 {
      UeReadsOnlyCodes(ReadUe(bits).rest);
    }
  }

  lemma MiddleReads(bits: Bits)
    requires ParseMiddle(bits).Got?
    ensures var p := ParseMiddle(bits);
      && Ue(p.value.log2FrameNum) && Ue(p.value.refFrames)
      && (p.value.order.Type0? ==> Ue(p.value.order.log2Lsb))
      && bits == WriteMiddle(p.value, p.rest)
  {
    var b1 := ReadUe(bits).rest;
    var b2 := ParseOrder(b1).rest;
    UeReadsOnlyCodes(bits);
    OrderReads(b1);
    UeReadsOnlyCodes(b2);
    FlagReads(ReadUe(b2).rest);
  }

  lemma CodingReads(bits: Bits)
    requires ParseCoding(bits).Got?
    ensures var p := ParseCoding(bits); bits == WriteCoding(p.value, p.rest)
  {
    FlagReads(bits);
    if !ReadFlag(bits).value {
      FlagReads(ReadFlag(bits).rest);
    }
  }

  lemma CropReads(bits: Bits)
    requires ParseCrop(bits).Got?
    ensures var p := ParseCrop(bits);
      && (p.value.Crop? ==> Ue(p.value.left) && Ue(p.value.right) && Ue(p.value.top) && Ue(p.value.bottom))
      && bits == WriteCrop(p.value, p.rest)
  {
    FlagReads(bits);
    if ReadFlag(bits).value {
      var b1 := ReadFlag(bits).rest;
      var b2 := ReadUe(b1).rest;
      var b3 := ReadUe(b2).rest;
      UeReadsOnlyCodes(b1);
      UeReadsOnlyCodes(b2);
      UeReadsOnlyCodes(b3);
      UeReadsOnlyCodes(ReadUe(b3).rest);
    }
  }

  lemma SizeReads(bits: Bits)
    requires ParseSize(bits).Got?
    ensures var p := ParseSize(bits);
      && Ue(p.value.widthMbs) && Ue(p.value.heightUnits)
      && (p.value.crop.Crop? ==> Ue(p.value.crop.left) && Ue(p.value.crop.right)
                                 && Ue(p.value.crop.top) && Ue(p.value.crop.bottom))
      && bits == WriteSize(p.value, p.rest)
  {
    var b1 := ReadUe(bits).rest;
    var b2 := ReadUe(b1).rest;
    var b3 := ParseCoding(b2).rest;
    UeReadsOnlyCodes(bits);
    UeReadsOnlyCodes(b1);
    CodingReads(b2);
    FlagReads(b3);
    CropReads(ReadFlag(b3).rest);
  }

  lemma ParsedIsWritten(bits: Bits)
    ensures var p := ParseSps(bits); p.Got? ==> Encodable(p.value) && bits == WriteSps(p.value, p.rest)
  {
    if ParseSps(bits).Got? {
      var b1 := ParseHead(bits).rest;
      HeadReads(bits);
      MiddleReads(b1);
      SizeReads(ParseMiddle(b1).rest);
    }
  }

  /** The parser accepts exactly the bits of encodable fields, as exactly those fields. */
  lemma ParsedIffWritten(bits: Bits, f: Sps, rest: Bits)
    ensures ParseSps(bits) == Got(f, rest) <==> Encodable(f) && bits == WriteSps(f, rest)
  {
    ParsedIsWritten(bits);
    if Encodable(f) {
      SpsBitsRoundTrip(f, rest);
    }
  }

  // ---------------------------------------------------------------- the picture size

  datatype PictureSize = NoSize | PictureSize(width: int, height: int)

  function U64(x: int): nat {
    x % 0x1_0000_0000_0000_0000
  }

  /** A 64-bit unsigned result kept in a signed one. */
  function Int64(x: nat): int {
    if x < 0x8000_0000_0000_0000 then x else x - 0x1_0000_0000_0000_0000
  }

  function ChromaOf(h: High): nat {
    match h
    case Low => 1
    case High(chroma, _, _, _, _) => chroma
  }

  function FrameFactor(c: FrameCoding): nat {
    if c.FramesOnly? then 1 else 2
  }

  /** The crop amounts, all zero without cropping. */
  function CropOf(c: Crop): Crop {
    if c.Crop? then c else Crop(0, 0, 0, 0)
  }

  function MacroblockSpan(units: nat): nat {
    U64(U64(units + 1) * 16)
  }

  function CropSpan(a: nat, b: nat, unit: nat): nat {
    U64(U64(a + b) * unit)
  }

  function UnitX(chroma: nat): nat {
    if chroma == 1 || chroma == 2 then 2 else 1
  }

  function UnitY(chroma: nat, factor: nat): nat {
    if chroma == 1 then U64(2 * factor) else factor
  }

  function Cropped(picWidth: nat, picHeight: nat, cropX: nat, cropY: nat): PictureSize {
    if picWidth <= cropX || picHeight <= cropY then NoSize
    else PictureSize(Int64(U64(picWidth - cropX)), Int64(U64(picHeight - cropY)))
  }

  /** The computation in 64-bit unsigned arithmetic, step by step. */
  function CodedSize(chroma: nat, s: Size): PictureSize {
    var crop, factor := CropOf(s.crop), FrameFactor(s.coding);
    Cropped(MacroblockSpan(s.widthMbs), U64(MacroblockSpan(s.heightUnits) * factor),
            CropSpan(crop.left, crop.right, UnitX(chroma)), CropSpan(crop.top, crop.bottom, UnitY(chroma, factor)))
  }

  /** Width and height by section 7.4.2.1.1 of ITU-T H.264, over unbounded integers. */
  function ChromaArrayType(h: High): nat {
    if h.High? && h.separatePlanes then 0 else ChromaOf(h)
  }

  function CropUnitX(h: High): nat {
    var t := ChromaArrayType(h);
    if t == 1 || t == 2 then 2 else 1      // SubWidthC, or 1 for monochrome and for reserved formats
  }

  function CropUnitY(h: High, factor: nat): nat {
    (if ChromaArrayType(h) == 1 then 2 else 1) * factor   // SubHeightC * (2 - frame_mbs_only_flag)
  }

  function CroppedWidth(f: Sps): int {
    var crop := CropOf(f.size.crop);
    16 * (f.size.widthMbs + 1) - CropUnitX(f.head.high) * (crop.left + crop.right)
  }

  function CroppedHeight(f: Sps): int {
    var crop, factor := CropOf(f.size.crop), FrameFactor(f.size.coding);
    factor * 16 * (f.size.heightUnits + 1) - CropUnitY(f.head.high, factor) * (crop.top + crop.bottom)
  }

  lemma MacroblocksExact(units: nat, factor: nat)
    requires Ue(units) && factor in {1, 2}
    ensures MacroblockSpan(units) == 16 * (units + 1)
    ensures U64(MacroblockSpan(units) * factor) == factor * 16 * (units + 1) <= 0x20_0000_0000
  {
  }

  lemma CropExact(a: nat, b: nat, unit: nat)
    requires Ue(a) && Ue(b) && unit in {1, 2, 4}
    ensures CropSpan(a, b, unit) == unit * (a + b)
  {
    assert U64(a + b) == a + b;
    if unit == 1 {
      assert U64((a + b) * 1) == a + b;
    } else if unit == 2 {
      assert U64((a + b) * 2) == 2 * (a + b);
    } else {
      assert U64((a + b) * 4) == 4 * (a + b);
    }
  }

  lemma UnitsStandard(h: High, factor: nat)
    requires h.High? ==> (h.separatePlanes ==> h.chroma == 3)
    requires factor in {1, 2}
    ensures UnitX(ChromaOf(h)) == CropUnitX(h) && CropUnitX(h) in {1, 2}
    ensures UnitY(ChromaOf(h), factor) == CropUnitY(h, factor) && CropUnitY(h, factor) in {1, 2, 4}
  {
  }

  lemma CroppedExact(picWidth: nat, picHeight: nat, cropX: nat, cropY: nat, width: int, height: int)
    requires picWidth <= 0x20_0000_0000 && picHeight <= 0x20_0000_0000
    requires width == picWidth - cropX && height == picHeight - cropY
    ensures Cropped(picWidth, picHeight, cropX, cropY) ==
      if width > 0 && height > 0 then PictureSize(width, height) else NoSize
  {
  }

  lemma CropsEncodable(f: Sps)
    requires Encodable(f)
    ensures var c := CropOf(f.size.crop); Ue(c.left) && Ue(c.right) && Ue(c.top) && Ue(c.bottom)
    ensures Ue(f.size.widthMbs) && Ue(f.size.heightUnits)
    ensures f.head.high.High? ==> (f.head.high.separatePlanes ==> f.head.high.chroma == 3)
  {
  }

  lemma WidthExact(f: Sps, picWidth: nat, cropX: nat)
    requires Encodable(f)
    requires picWidth == MacroblockSpan(f.size.widthMbs)
    requires var c := CropOf(f.size.crop); cropX == CropSpan(c.left, c.right, UnitX(ChromaOf(f.head.high)))
    ensures picWidth <= 0x20_0000_0000 && CroppedWidth(f) == picWidth - cropX
  {
    CropsEncodable(f);
    UnitsStandard(f.head.high, 1);
    var c := CropOf(f.size.crop);
    MacroblocksExact(f.size.widthMbs, 1);
    CropExact(c.left, c.right, CropUnitX(f.head.high));
  }

  lemma HeightExact(f: Sps, factor: nat, picHeight: nat, cropY: nat)
    requires Encodable(f) && factor == FrameFactor(f.size.coding)
    requires picHeight == U64(MacroblockSpan(f.size.heightUnits) * factor)
    requires var c := CropOf(f.size.crop); cropY == CropSpan(c.top, c.bottom, UnitY(ChromaOf(f.head.high), factor))
    ensures picHeight <= 0x20_0000_0000 && CroppedHeight(f) == picHeight - cropY
  {
    CropsEncodable(f);
    UnitsStandard(f.head.high, factor);
    var c := CropOf(f.size.crop);
    MacroblocksExact(f.size.heightUnits, factor);
    CropExact(c.top, c.bottom, CropUnitY(f.head.high, factor));
  }

  /** No 64-bit step wraps: the size is the standard's, and it is refused exactly when not positive. */
  lemma CodedSizeIsStandard(f: Sps)
    requires Encodable(f)
    ensures CodedSize(ChromaOf(f.head.high), f.size) ==
      if CroppedWidth(f) > 0 && CroppedHeight(f) > 0 then PictureSize(CroppedWidth(f), CroppedHeight(f)) else NoSize
  {
    var s, chroma, crop, factor := f.size, ChromaOf(f.head.high), CropOf(f.size.crop), FrameFactor(f.size.coding);
    var picWidth, picHeight := MacroblockSpan(s.widthMbs), U64(MacroblockSpan(s.heightUnits) * factor);
    var cropX := CropSpan(crop.left, crop.right, UnitX(chroma));
    var cropY := CropSpan(crop.top, crop.bottom, UnitY(chroma, factor));
    WidthExact(f, picWidth, cropX);
    HeightExact(f, factor, picHeight, cropY);
    CroppedExact(picWidth, picHeight, cropX, cropY, CroppedWidth(f), CroppedHeight(f));
  }

  /** The size in a NAL unit. */
  function SpsPictureSize(nal: Bytes): PictureSize {
    if |nal| < 4 || NalType(nal[0]) != 7 then NoSize
    else
      match ParseSps(BitsOf(StripFrom(nal[1..], 0)))
      case Fail => NoSize
      case Got(f, _) => CodedSize(ChromaOf(f.head.high), f.size)
  }

  /** The NAL unit an encoder makes of the fields: bits in bytes, emulation prevention, one header byte. */
  function EncodeNal(header: byte, f: Sps, tail: Bits): Bytes
    requires |WriteSps(f, tail)| % 8 == 0
  {
    [header] + InsertFrom(Pack(WriteSps(f, tail)), 0)
  }

  /**
    Round trip: for every field assignment without a scaling matrix and with picture order count type 0
    or 2, serialised with whatever tail fills the last byte, the parser returns the
    cropped size by the standard's formula, and a size exactly when both dimensions are positive.
   */
  lemma SpsRoundTrip(header: byte, f: Sps, tail: Bits)
    requires Encodable(f) && NalType(header) == 7 && |WriteSps(f, tail)| % 8 == 0
    ensures SpsPictureSize(EncodeNal(header, f, tail)) ==
      if CroppedWidth(f) > 0 && CroppedHeight(f) > 0 then PictureSize(CroppedWidth(f), CroppedHeight(f)) else NoSize
  {
    var bits := WriteSps(f, tail);
    var nal := EncodeNal(header, f, tail);
    PackRoundTrip(bits);
    StripUndoesInsert(Pack(bits), 0);
    assert nal[1..] == InsertFrom(Pack(bits), 0);
    SpsBitsRoundTrip(f, tail);
    CodedSizeIsStandard(f);
    InsertNoShorter(Pack(bits), 0);
    HeadLong(f, tail);
  }

  /**
    Every answer there is: a NAL unit gets a size if and only if it is an SPS whose bytes, stripped, start with
    the bits of encodable fields, and the size is theirs by the standard's formula, and positive.
   */
  lemma SizeReadIff(nal: Bytes, width: int, height: int)
    ensures SpsPictureSize(nal) == PictureSize(width, height) <==>
      && |nal| >= 4 && NalType(nal[0]) == 7
      && exists f: Sps, rest: Bits :: SizeWritten(nal, f, rest, width, height)
  {
    if |nal| >= 4 && NalType(nal[0]) == 7 {
      var bits := BitsOf(StripFrom(nal[1..], 0));
      if SpsPictureSize(nal) == PictureSize(width, height) {
        var p := ParseSps(bits);
        ParsedIffWritten(bits, p.value, p.rest);
        CodedSizeIsStandard(p.value);
        assert SizeWritten(nal, p.value, p.rest, width, height);
      }
      if f: Sps, rest: Bits :| SizeWritten(nal, f, rest, width, height) {
        ParsedIffWritten(bits, f, rest);
        CodedSizeIsStandard(f);
      }
    }
  }

  ghost predicate SizeWritten(nal: Bytes, f: Sps, rest: Bits, width: int, height: int)
    requires nal != []
  {
    && Encodable(f) && BitsOf(StripFrom(nal[1..], 0)) == WriteSps(f, rest)
    && width == CroppedWidth(f) > 0 && height == CroppedHeight(f) > 0
  }

  lemma HeadLong(f: Sps, tail: Bits)
    ensures |WriteSps(f, tail)| > 24
  {
  }

  // ---------------------------------------------------------------- the parser

  method ReadHigh(r: BitReader) returns (chroma: nat, ok: bool)
    requires r.Valid()
    modifies r
    ensures r.Valid()
    ensures var p := ParseHigh(old(r.Remaining()));
      ok == p.Got? && (ok ==> chroma == p.value.chroma && r.Remaining() == p.rest)
  {
    chroma, ok := r.Ue();
    if !ok {
      return;
    }
    var skipped;
    if chroma == 3 {
      skipped, ok := r.U(1);
      if !ok {
        return;
      }
    }
    skipped, ok := r.Ue();      // bit_depth_luma_minus8
    if !ok {
      return;
    }
    skipped, ok := r.Ue();      // bit_depth_chroma_minus8
    if !ok {
      return;
    }
    skipped, ok := r.U(1);      // qpprime_y_zero_transform_bypass_flag
    if !ok {
      return;
    }
    var scaling;
    scaling, ok := r.U(1);
    ok := ok && scaling == 0;
  }

  method ReadIdent(r: BitReader) returns (profile: nat, ok: bool)
    requires r.Valid()
    modifies r
    ensures r.Valid()
    ensures var p := ParseIdent(old(r.Remaining()));
      ok == p.Got? && (ok ==> profile == p.value.profile && r.Remaining() == p.rest)
  {
    var skipped;
    profile, ok := r.U(8);
    if !ok {
      return;
    }
    skipped, ok := r.U(8);      // constraint flags
    if !ok {
      return;
    }
    skipped, ok := r.U(8);      // level_idc
    if !ok {
      return;
    }
    skipped, ok := r.Ue();      // seq_parameter_set_id
  }

  method ReadHead(r: BitReader) returns (chroma: nat, ok: bool)
    requires r.Valid()
    modifies r
    ensures r.Valid()
    ensures var p := ParseHead(old(r.Remaining()));
      ok == p.Got? && (ok ==> chroma == ChromaOf(p.value.high) && r.Remaining() == p.rest)
  {
    var profile;
    chroma := 1;
    profile, ok := ReadIdent(r);
    if ok && profile in HIGH_PROFILES {
      chroma, ok := ReadHigh(r);
    }
  }

  method ReadOrder(r: BitReader) returns (ok: bool)
    requires r.Valid()
    modifies r
    ensures r.Valid()
    ensures var p := ParseOrder(old(r.Remaining())); ok == p.Got? && (ok ==> r.Remaining() == p.rest)
  {
    var orderType, skipped;
    orderType, ok := r.Ue();
    if ok {
      if orderType == 0 {
        skipped, ok := r.Ue();  // log2_max_pic_order_cnt_lsb_minus4
      } else {
        ok := orderType == 2;
      }
    }
  }

  method ReadMiddle(r: BitReader) returns (ok: bool)
    requires r.Valid()
    modifies r
    ensures r.Valid()
    ensures var p := ParseMiddle(old(r.Remaining())); ok == p.Got? && (ok ==> r.Remaining() == p.rest)
  {
    var skipped;
    skipped, ok := r.Ue();      // log2_max_frame_num_minus4
    if !ok {
      return;
    }
    ok := ReadOrder(r);
    if !ok {
      return;
    }
    skipped, ok := r.Ue();      // max_num_ref_frames
    if !ok {
      return;
    }
    skipped, ok := r.U(1);      // gaps_in_frame_num_value_allowed_flag
  }

  method ReadCoding(r: BitReader) returns (coding: FrameCoding, ok: bool)
    requires r.Valid()
    modifies r
    ensures r.Valid()
    ensures var p := ParseCoding(old(r.Remaining()));
      ok == p.Got? && (ok ==> coding == p.value && r.Remaining() == p.rest)
  {
    var framesOnly, mbAdaptive;
    coding := FramesOnly;
    framesOnly, ok := r.U(1);
    if ok && framesOnly == 0 {
      mbAdaptive, ok := r.U(1);
      coding := Fields(mbAdaptive != 0);
    }
  }

  method ReadCrop(r: BitReader) returns (crop: Crop, ok: bool)
    requires r.Valid()
    modifies r
    ensures r.Valid()
    ensures var p := ParseCrop(old(r.Remaining()));
      ok == p.Got? && (ok ==> crop == p.value && r.Remaining() == p.rest)
  {
    var cropping, left, right, top, bottom;
    crop := NoCrop;
    cropping, ok := r.U(1);
    if !ok || cropping == 0 {
      return;
    }
    left, ok := r.Ue();
    if !ok {
      return;
    }
    right, ok := r.Ue();
    if !ok {
      return;
    }
    top, ok := r.Ue();
    if !ok {
      return;
    }
    bottom, ok := r.Ue();
    crop := Crop(left, right, top, bottom);
  }

  method ReadSize(r: BitReader) returns (size: Size, ok: bool)
    requires r.Valid()
    modifies r
    ensures r.Valid()
    ensures var p := ParseSize(old(r.Remaining()));
      ok == p.Got? && (ok ==> size == p.value && r.Remaining() == p.rest)
  {
    var widthMbs, heightUnits, direct;
    var coding, crop := FramesOnly, NoCrop;
    size := Size(0, 0, coding, false, crop);
    widthMbs, ok := r.Ue();
    if !ok {
      return;
    }
    heightUnits, ok := r.Ue();
    if !ok {
      return;
    }
    coding, ok := ReadCoding(r);
    if !ok {
      return;
    }
    direct, ok := r.U(1);
    if !ok {
      return;
    }
    crop, ok := ReadCrop(r);
    size := Size(widthMbs, heightUnits, coding, direct != 0, crop);
  }

  /** Walks the bits once and computes the size from the fields it kept. */
  method H264SpsPictureSize(nal: Bytes) returns (size: PictureSize)
    ensures size == SpsPictureSize(nal)
  {
    if |nal| < 4 || NalType(nal[0]) != 7 {
      return NoSize;
    }
    var rbsp := StripEmulationPrevention(nal[1..]);
    var r := new BitReader(rbsp);
    var chroma, ok := ReadHead(r);
    if !ok {
      return NoSize;
    }
    ok := ReadMiddle(r);
    if !ok {
      return NoSize;
    }
    var fields;
    fields, ok := ReadSize(r);
    if !ok {
      return NoSize;
    }
    return CodedSize(chroma, fields);
  }
}
