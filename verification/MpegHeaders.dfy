/** The header of an MPEG audio frame (taglib_mod/mpeg/mpegheader.cpp, mpegutils.h). */
module MpegHeaders {
  import opened Bytes

  /** `isFrameSync`: eleven ones, but not a second byte of all ones */
  predicate IsSync(b1: byte, b2: byte) {
    b1 == 0xFF && b2 != 0xFF && b2 & 0xE0 == 0xE0
  }

  // ----- The fields of the four bytes -----

  function VersionBits(b: byte): byte {
    (b >> 3) & 0x03
  }

  function LayerBits(b: byte): byte {
    (b >> 1) & 0x03
  }

  function BitrateIndex(b: byte): (i: nat)
    ensures i < 16
  {
    ((b >> 4) & 0x0F) as nat
  }

  function SampleRateIndex(b: byte): (i: nat)
    ensures i < 4
  {
    ((b >> 2) & 0x03) as nat
  }

  function IsPadded(b: byte): bool {
    b & 0x02 != 0
  }

  /** 0 for version 1, 1 for 2, 2 for 2.5; the other pattern is reserved */
  function Version(b: byte): (version: Option<nat>)
    ensures version.Some? ==> version.value < 3
  {
    var bits := VersionBits(b);
    if bits == 0 then Some(2) else if bits == 2 then Some(1) else if bits == 3 then Some(0) else None
  }

  function Layer(b: byte): Option<nat> {
    var bits := LayerBits(b);
    if bits == 1 then Some(3) else if bits == 2 then Some(2) else if bits == 3 then Some(1) else None
  }

  // ----- The tables -----

  const BITRATES_1_1: seq<nat> := [0, 32, 64, 96, 128, 160, 192, 224, 256, 288, 320, 352, 384, 416, 448, 0]
  const BITRATES_1_2: seq<nat> := [0, 32, 48, 56, 64, 80, 96, 112, 128, 160, 192, 224, 256, 320, 384, 0]
  const BITRATES_1_3: seq<nat> := [0, 32, 40, 48, 56, 64, 80, 96, 112, 128, 160, 192, 224, 256, 320, 0]
  const BITRATES_2_1: seq<nat> := [0, 32, 48, 56, 64, 80, 96, 112, 128, 144, 160, 176, 192, 224, 256, 0]
  const BITRATES_2_23: seq<nat> := [0, 8, 16, 24, 32, 40, 48, 56, 64, 80, 96, 112, 128, 144, 160, 0]

  function Bitrate(version: nat, layer: nat, index: nat): (kbps: nat)
    requires index < 16
    ensures kbps == 0 || 8 <= kbps <= 448
  {
    if version == 0 then
      if layer == 1 then BITRATES_1_1[index] else if layer == 2 then BITRATES_1_2[index] else BITRATES_1_3[index]
    else if layer == 1 then BITRATES_2_1[index]
    else BITRATES_2_23[index]
  }

  function SampleRate(version: nat, index: nat): (hz: nat)
    requires version < 3 && index < 4
    ensures hz == 0 || 8000 <= hz <= 48000
  {
    if version == 0 then [44100, 48000, 32000, 0][index]
    else if version == 1 then [22050, 24000, 16000, 0][index]
    else [11025, 12000, 8000, 0][index]
  }

  function SamplesPerFrame(version: nat, layer: nat): (n: nat)
    ensures 384 <= n <= 1152
  {
    if layer == 1 then 384 else if layer == 3 && version != 0 then 576 else 1152
  }

  function Length(samples: nat, kbps: nat, hz: nat, layer: nat, padded: bool): nat
    requires hz > 0
  {
    samples * kbps * 125 / hz + if !padded then 0 else if layer == 1 then 4 else 1
  }

  // ----- A header -----

  /** The length of the frame that four bytes announce; None when one of their fields is not a usable one */
  function Announced(b: seq<byte>): Option<nat>
    requires |b| == 4
  {
    if !IsSync(b[0], b[1]) || Version(b[1]).None? || Layer(b[1]).None? then None
    else
      var version, layer := Version(b[1]).value, Layer(b[1]).value;
      var kbps, hz := Bitrate(version, layer, BitrateIndex(b[2])), SampleRate(version, SampleRateIndex(b[2]));
      if kbps == 0 || hz == 0 then None
      else Some(Length(SamplesPerFrame(version, layer), kbps, hz, layer, IsPadded(b[2])))
  }

  /** Two headers agree in their synchronisation, version, layer and sample rate. */
  predicate Agree(b: seq<byte>, c: seq<byte>)
    requires |b| == |c| == 4
  {
    BytesAgree(b[0], b[1], b[2], c[0], c[1], c[2])
  }

  predicate BytesAgree(b0: byte, b1: byte, b2: byte, c0: byte, c1: byte, c2: byte) {
    && b0 == c0 && b1 & 0xE0 == c1 & 0xE0
    && (b1 >> 3) & 0x03 == (c1 >> 3) & 0x03 && (b1 >> 1) & 0x03 == (c1 >> 1) & 0x03
    && (b2 >> 2) & 0x03 == (c2 >> 2) & 0x03
  }

  /** A frame stands at `p`: its header is usable, and where it ends another agrees with it. */
  predicate FrameAt(f: seq<byte>, p: nat) {
    && p + 4 <= |f| && Announced(f[p..p + 4]).Some?
    && var next := p + Announced(f[p..p + 4]).value;
    && next + 4 <= |f| && Agree(f[p..p + 4], f[next..next + 4])
  }

  function FrameLength(f: seq<byte>, p: nat): nat
    requires FrameAt(f, p)
  {
    Announced(f[p..p + 4]).value
  }

  /** A usable header announces at least its own four bytes, so the next one is looked for behind it. */
  lemma FramesAreLong(b: seq<byte>)
    requires |b| == 4 && Announced(b).Some?
    ensures Announced(b).value >= 8
  {
    hide Bitrate, SampleRate, SamplesPerFrame, IsSync, Version, Layer, BitrateIndex, SampleRateIndex, Length, IsPadded;
    var version, layer := Version(b[1]).value, Layer(b[1]).value;
    LengthIsEnough(SamplesPerFrame(version, layer), Bitrate(version, layer, BitrateIndex(b[2])),
                   SampleRate(version, SampleRateIndex(b[2])), layer, IsPadded(b[2]));
  }

  lemma LengthIsEnough(samples: nat, kbps: nat, hz: nat, layer: nat, padded: bool)
    requires samples >= 384 && kbps >= 8 && 0 < hz <= 48000
    ensures Length(samples, kbps, hz, layer, padded) >= 8
  {
    assert samples * kbps >= 384 * 8;
    var product := samples * kbps * 125;
    assert product >= 8 * hz;
    assert product / hz >= 8;
  }

  // ----- What the standard lays down -----

  function PowerOfTwo(n: nat): nat {
    if n == 0 then 1 else 2 * PowerOfTwo(n - 1)
  }

  /** Four steps to the octave: 32, 40, 48, 56 and on, doubled every four indices */
  function Stepped(index: nat): nat
    requires index >= 1
  {
    (4 + (index - 1) % 4) * 8 * PowerOfTwo((index - 1) / 4)
  }

  /** The bitrates in kilobits of version 1: evenly spaced in layer I, stepped in layer III, and stepped with 40 left
      out in layer II. */
  lemma BitratesOfVersion1(index: nat)
    requires 1 <= index <= 14
    ensures Bitrate(0, 1, index) == 32 * index
    ensures Bitrate(0, 3, index) == Stepped(index)
    ensures Bitrate(0, 2, index) == if index == 1 then 32 else Stepped(index + 1)
  {
    PowersOfTwo();
    assert 4 == 1 * 4 && 8 == 2 * 4 && 12 == 3 * 4;
  }

  lemma PowersOfTwo()
    ensures PowerOfTwo(0) == 1 && PowerOfTwo(1) == 2 && PowerOfTwo(2) == 4 && PowerOfTwo(3) == 8
  {
    assert PowerOfTwo(1) == 2 * PowerOfTwo(0);
    assert PowerOfTwo(2) == 2 * PowerOfTwo(1);
    assert PowerOfTwo(3) == 2 * PowerOfTwo(2);
  }

  /** The bitrates of versions 2 and 2.5: steps of 8 up to 64 and of 16 from there in layers II and III; in layer I
      steps of 8, 16 and 32 that meet at 64 and 192, and 32 at the first. */
  lemma BitratesOfVersion2(version: nat, layer: nat, index: nat)
    requires (version == 1 || version == 2) && 1 <= index <= 14
    ensures layer == 2 || layer == 3 ==> Bitrate(version, layer, index) == Max(8 * index, 16 * (index - 4))
    ensures layer == 1 && index >= 2 ==>
      Bitrate(version, layer, index) == Max(Max(8 * (index + 4), 16 * index), 32 * (index - 6))
    ensures layer == 1 && index == 1 ==> Bitrate(version, layer, index) == 32
  {
  }

  /** The first index is free format and the last one forbidden. */
  lemma UnusableBitrates(version: nat, layer: nat)
    ensures Bitrate(version, layer, 0) == Bitrate(version, layer, 15) == 0
    ensures forall index | 1 <= index <= 14 :: Bitrate(version, layer, index) > 0
  {
  }

  /** The sample rates of version 1, halved in version 2 and quartered in 2.5 */
  lemma SampleRates(index: nat)
    requires index < 4
    ensures SampleRate(0, 0) == 44100 && SampleRate(0, 1) == 48000 && SampleRate(0, 2) == 32000 && SampleRate(0, 3) == 0
    ensures SampleRate(0, index) == 2 * SampleRate(1, index) == 4 * SampleRate(2, index)
  {
  }

  /** Twelve blocks of 32 subband samples in layer I, and three times as many in layer II; in layer III a granule of
      576 samples, and two of them in version 1 */
  lemma SamplesAre(version: nat)
    ensures SamplesPerFrame(version, 1) == 12 * 32 && SamplesPerFrame(version, 2) == 3 * SamplesPerFrame(version, 1)
    ensures SamplesPerFrame(version, 3) == 18 * 32 * if version == 0 then 2 else 1
  {
  }

  /** Without padding a frame has as many whole bytes as the bitrate yields in the time of its samples; padding is one
      slot more, of four bytes in layer I and of one elsewhere. */
  lemma LengthIsGreatest(samples: nat, kbps: nat, hz: nat, layer: nat, padded: bool)
    requires hz > 0
    ensures
      var length := Length(samples, kbps, hz, layer, false);
      && length * 8 * hz <= samples * 1000 * kbps < (length + 1) * 8 * hz
      && Length(samples, kbps, hz, layer, true) == length + if layer == 1 then 4 else 1
  {
    var bits := samples * kbps * 125;
    var length := bits / hz;
    assert length * hz <= bits < length * hz + hz;
    assert samples * 1000 * kbps == 8 * bits;
    assert length * 8 * hz == 8 * (length * hz) && (length + 1) * 8 * hz == 8 * (length * hz + hz);
  }

  /** The second byte of a header: three ones, the version, the layer counted down, and the protection bit */
  function SecondByte(version: nat, layer: nat, protection: nat): nat
    requires version < 3 && 1 <= layer <= 3 && protection <= 1
  {
    224 + 8 * (if version == 2 then 0 else 3 - version) + 2 * (4 - layer) + protection
  }

  /** The third byte: bitrate, sample rate, padding and the private bit */
  function ThirdByte(bitrateIndex: nat, rateIndex: nat, padding: nat, unused: nat): nat
    requires bitrateIndex < 16 && rateIndex < 4 && padding <= 1 && unused <= 1
  {
    16 * bitrateIndex + 4 * rateIndex + 2 * padding + unused
  }

  lemma SecondByteRead(b: byte, version: nat, layer: nat, protection: nat)
    requires version < 3 && 1 <= layer <= 3 && protection <= 1 && b as nat == SecondByte(version, layer, protection)
    ensures Version(b) == Some(version) && Layer(b) == Some(layer)
    ensures IsSync(0xFF, b) <==> b != 0xFF
  {
  }

  lemma ThirdByteRead(b: byte, bitrateIndex: nat, rateIndex: nat, padding: nat, unused: nat)
    requires bitrateIndex < 16 && rateIndex < 4 && padding <= 1 && unused <= 1
    requires b as nat == ThirdByte(bitrateIndex, rateIndex, padding, unused)
    ensures BitrateIndex(b) == bitrateIndex && SampleRateIndex(b) == rateIndex && (IsPadded(b) <==> padding == 1)
  {
    hide BitrateIndex, SampleRateIndex, IsPadded, ThirdByte;
    ThirdByteIs(b);
    ThirdByteTells(BitrateIndex(b), SampleRateIndex(b), if IsPadded(b) then 1 else 0, if b & 1 == 1 then 1 else 0,
                   bitrateIndex, rateIndex, padding, unused);
  }

  /** No two choices of the fields make the same byte. */
  lemma ThirdByteTells(i: nat, r: nat, p: nat, u: nat, i': nat, r': nat, p': nat, u': nat)
    requires i < 16 && r < 4 && p <= 1 && u <= 1 && i' < 16 && r' < 4 && p' <= 1 && u' <= 1
    requires ThirdByte(i, r, p, u) == ThirdByte(i', r', p', u')
    ensures i == i' && r == r' && p == p' && u == u'
  {
  }

  /** The fields that are put into a header are read from it. */
  lemma HeaderIsRead(b: seq<byte>, version: nat, layer: nat, protection: nat, bitrateIndex: nat, rateIndex: nat,
      padding: nat, unused: nat)
    requires version < 3 && 1 <= layer <= 3 && protection <= 1
    requires 1 <= bitrateIndex <= 14 && rateIndex < 3 && padding <= 1 && unused <= 1
    requires |b| == 4 && b[0] == 0xFF && b[1] != 0xFF && b[1] as nat == SecondByte(version, layer, protection)
    requires b[2] as nat == ThirdByte(bitrateIndex, rateIndex, padding, unused)
    ensures SampleRate(version, rateIndex) > 0
    ensures Announced(b) == Some(Length(SamplesPerFrame(version, layer), Bitrate(version, layer, bitrateIndex),
                                        SampleRate(version, rateIndex), layer, padding == 1))
  {
    hide IsSync, Version, Layer, BitrateIndex, SampleRateIndex, IsPadded, Length, SamplesPerFrame, SecondByte,
        ThirdByte;
    SecondByteRead(b[1], version, layer, protection);
    ThirdByteRead(b[2], bitrateIndex, rateIndex, padding, unused);
    UnusableBitrates(version, layer);
  }

  lemma SecondByteIs(b: byte)
    requires IsSync(0xFF, b) && Version(b).Some? && Layer(b).Some?
    ensures
      && 1 <= Layer(b).value <= 3
      && b as nat == SecondByte(Version(b).value, Layer(b).value, if b & 1 == 1 then 1 else 0)
  {
  }

  lemma ThirdByteIs(b: byte)
    ensures
      b as nat == ThirdByte(BitrateIndex(b), SampleRateIndex(b),
                            if IsPadded(b) then 1 else 0, if b & 1 == 1 then 1 else 0)
  {
  }

  /** And every header that announces a length is made of such fields. */
  lemma UsableHeaderIs(b: seq<byte>)
    requires |b| == 4 && Announced(b).Some?
    ensures b[0] == 0xFF && b[1] != 0xFF && Version(b[1]).Some? && Layer(b[1]).Some? && 1 <= Layer(b[1]).value <= 3
    ensures b[1] as nat == SecondByte(Version(b[1]).value, Layer(b[1]).value, if b[1] & 1 == 1 then 1 else 0)
    ensures
      b[2] as nat == ThirdByte(BitrateIndex(b[2]), SampleRateIndex(b[2]),
                               if IsPadded(b[2]) then 1 else 0, if b[2] & 1 == 1 then 1 else 0)
    ensures 1 <= BitrateIndex(b[2]) <= 14 && SampleRateIndex(b[2]) < 3
  {
    hide Version, Layer, BitrateIndex, SampleRateIndex, IsPadded, Length, SamplesPerFrame, SecondByte, ThirdByte;
    assert IsSync(0xFF, b[1]);
    SecondByteIs(b[1]);
    ThirdByteIs(b[2]);
    UnusableBitrates(Version(b[1]).value, Layer(b[1]).value);
    SampleRates(SampleRateIndex(b[2]));
  }

  /** A frame of version 1 and layer III at 128 kilobits and 44100 Hz has 417 bytes. */
  lemma OrdinaryFrame()
    ensures Announced([0xFF, 0xFB, 0x90, 0x00]) == Some(417)
  {
  }

  // ----- The comparison by mask -----

  /** The two big-endian words are equal under the header mask. */
  predicate MaskedAlike(b0: byte, b1: byte, b2: byte, b3: byte, c0: byte, c1: byte, c2: byte, c3: byte) {
    ((b0 as bv32 << 24) | (b1 as bv32 << 16) | (b2 as bv32 << 8) | b3 as bv32) & 0xfffe0c00 ==
    ((c0 as bv32 << 24) | (c1 as bv32 << 16) | (c2 as bv32 << 8) | c3 as bv32) & 0xfffe0c00
  }

  /** The mask keeps exactly those fields. */
  lemma MaskComparesFields(b0: byte, b1: byte, b2: byte, b3: byte, c0: byte, c1: byte, c2: byte, c3: byte)
    ensures MaskedAlike(b0, b1, b2, b3, c0, c1, c2, c3) <==> BytesAgree(b0, b1, b2, c0, c1, c2)
  {
  }

  lemma FourBytes(f: seq<byte>, p: nat)
    ensures if p + 4 <= |f| then Window(f, p, 4) == f[p..p + 4] else |Window(f, p, 4)| < 4
  {
  }

  class Header {
    var isValid: bool
    var version: nat
    var layer: nat
    var bitrate: nat
    var sampleRate: nat
    var isPadded: bool
    var frameLength: nat
    var samplesPerFrame: nat

    /** The fields are those of the four bytes, and so is the length. */
    predicate Shows(b: seq<byte>)
      reads this
    {
      && |b| == 4 && Version(b[1]) == Some(version) && Layer(b[1]) == Some(layer)
      && bitrate == Bitrate(version, layer, BitrateIndex(b[2]))
      && sampleRate == SampleRate(version, SampleRateIndex(b[2]))
      && isPadded == IsPadded(b[2]) && samplesPerFrame == SamplesPerFrame(version, layer)
      && Announced(b) == Some(frameLength)
    }

    /** Valid exactly when a frame stands at the offset, or, unchecked, when a usable header does */
    constructor (f: seq<byte>, offset: nat, checkLength: bool)
      ensures isValid <==>
        if checkLength then FrameAt(f, offset) else offset + 4 <= |f| && Announced(f[offset..offset + 4]).Some?
      ensures isValid ==> Shows(f[offset..offset + 4])
    {
      isValid, version, layer, bitrate, sampleRate := false, 0, 0, 0, 0;
      isPadded, frameLength, samplesPerFrame := false, 0, 0;
      new;
      Parse(f, offset, checkLength);
    }

    /** Fills the fields step by step, and gives up at the first that is not usable. */
    method Parse(f: seq<byte>, offset: nat, checkLength: bool)
      requires !isValid
      modifies this
      ensures isValid <==>
        if checkLength then FrameAt(f, offset) else offset + 4 <= |f| && Announced(f[offset..offset + 4]).Some?
      ensures isValid ==> Shows(f[offset..offset + 4])
    {
      hide Announced, BytesAgree, MaskedAlike, Window;
      FourBytes(f, offset);
      var data := Window(f, offset, 4);
      if |data| < 4 {
        return;
      }
      var usable := ParseFields(data);
      if !usable {
        return;
      }
      if checkLength {
        FourBytes(f, offset + frameLength);
        var nextData := Window(f, offset + frameLength, 4);
        if |nextData| < 4 {
          return;
        }
        MaskComparesFields(data[0], data[1], data[2], data[3], nextData[0], nextData[1], nextData[2], nextData[3]);
        if !MaskedAlike(data[0], data[1], data[2], data[3], nextData[0], nextData[1], nextData[2], nextData[3]) {
          return;
        }
      }
      isValid := true;
    }

    /** The part of the parsing up to the frame length */
    method ParseFields(data: seq<byte>) returns (usable: bool)
      requires |data| == 4
      modifies this
      ensures usable <==> Announced(data).Some?
      ensures usable ==> Shows(data)
      ensures isValid == old(isValid)
    {
      hide IsSync, VersionBits, LayerBits, BitrateIndex, SampleRateIndex, IsPadded, Bitrate, SampleRate,
          SamplesPerFrame, Length;
      if !IsSync(data[0], data[1]) {
        return false;
      }
      var versionBits := VersionBits(data[1]);
      if versionBits == 0 {
        version := 2;
      } else if versionBits == 2 {
        version := 1;
      } else if versionBits == 3 {
        version := 0;
      } else {
        return false;
      }
      var layerBits := LayerBits(data[1]);
      if layerBits == 1 {
        layer := 3;
      } else if layerBits == 2 {
        layer := 2;
      } else if layerBits == 3 {
        layer := 1;
      } else {
        return false;
      }
      bitrate := Bitrate(version, layer, BitrateIndex(data[2]));
      if bitrate == 0 {
        return false;
      }
      sampleRate := SampleRate(version, SampleRateIndex(data[2]));
      if sampleRate == 0 {
        return false;
      }
      isPadded := IsPadded(data[2]);
      samplesPerFrame := SamplesPerFrame(version, layer);
      frameLength := Length(samplesPerFrame, bitrate, sampleRate, layer, isPadded);
      return true;
    }
  }
}
