/**
 * The OTA image generator of the WE310 tools: a fixed 32-byte little-endian
 * header (version, format number, signature `OTA1`, header length, checksum,
 * payload size, offset, reserved word) followed by the raw firmware payload.
 *
 * The generator writes the image into its destination file by a sequence of
 * appends; `OutputFile` models that file and `OtaGenerate` the write sequence.
 * `Image` is the byte layout those appends produce, and `Decode` reads it back.
 */
module OtaGenerate {
  import opened Common
  import Text

  /** One byte of a file. */
  type byte = x: int | 0 <= x < 256

  /** 2^32: one more than the largest value of a `<I` (unsigned 32-bit) field. */
  const Two32: nat := 0x1_0000_0000

  // ---------------------------------------------------------------------
  // Little-endian 32-bit fields: struct.pack('<I', v) and its inverse
  // ---------------------------------------------------------------------

  /** struct.pack('<I', v): the four bytes of `v`, least significant first. */
  function PackU32(v: nat): (r: seq<byte>)
    requires v < Two32
    ensures |r| == 4
  {
    [v % 256, v / 256 % 256, v / 65536 % 256, v / 16777216]
  }

  /** struct.unpack('<I', b): the value of four little-endian bytes. */
  function UnpackU32(b: seq<byte>): (v: nat)
    requires |b| == 4
    ensures v < Two32
  {
    b[0] as int + 256 * (b[1] as int) + 65536 * (b[2] as int) + 16777216 * (b[3] as int)
  }

  /** Unpacking a packed field gives back the packed value. */
  lemma UnpackPack(v: nat)
    requires v < Two32
    ensures UnpackU32(PackU32(v)) == v
  {
    var q1, q2, q3 := v / 256, v / 65536, v / 16777216;
    assert v == 256 * q1 + v % 256;
    assert q2 == q1 / 256 && q1 == 256 * q2 + q1 % 256;
    assert q3 == q2 / 256 && q2 == 256 * q3 + q2 % 256;
  }

  /** Packing the value of four bytes gives back those bytes. */
  lemma PackUnpack(b: seq<byte>)
    requires |b| == 4
    ensures PackU32(UnpackU32(b)) == b
  {
    var v := UnpackU32(b);
    var b0, b1, b2, b3 := b[0] as int, b[1] as int, b[2] as int, b[3] as int;
    assert v == b0 + 256 * (b1 + 256 * b2 + 65536 * b3);
    assert v / 256 == b1 + 256 * b2 + 65536 * b3;
    assert v / 65536 == b2 + 256 * b3;
    assert v / 16777216 == b3;
  }

  /** Two values with the same packed bytes are equal. */
  lemma PackInjective(v: nat, w: nat)
    requires v < Two32 && w < Two32 && PackU32(v) == PackU32(w)
    ensures v == w
  {
    UnpackPack(v);
    UnpackPack(w);
  }

  // ---------------------------------------------------------------------
  // The fixed header fields (module constants of the generator)
  // ---------------------------------------------------------------------

  /** Header format number 1. */
  const HeaderNum: seq<byte> := PackU32(0x01)
  /** The signature, the ASCII characters `OTA1`. */
  const OtaSig: seq<byte> := ['O' as int, 'T' as int, 'A' as int, '1' as int]
  /** Header length 0x18. */
  const HeaderLen: seq<byte> := PackU32(0x18)
  /** Offset address 0x20: where the payload starts. */
  const OffsetAddr: seq<byte> := PackU32(0x20)
  /** The reserved word 0xFFFFFFFF. */
  const ValueReserved: seq<byte> := PackU32(0xFFFF_FFFF)

  // ---------------------------------------------------------------------
  // The firmware version: int(fw_ver, base=16) under Python 2
  // ---------------------------------------------------------------------

  /** The value of one hexadecimal digit, either case. */
  function HexDigitValue(c: char): (d: Option<nat>)
    ensures d.Some? ==> d.value < 16
  {
    if '0' <= c <= '9' then Some(c as int - '0' as int)
    else if 'a' <= c <= 'f' then Some(c as int - 'a' as int + 10)
    else if 'A' <= c <= 'F' then Some(c as int - 'A' as int + 10)
    else None
  }

  predicate AllHexDigits(s: string) {
    forall i :: 0 <= i < |s| ==> HexDigitValue(s[i]).Some?
  }

  /** The value of a string of hex digits, most significant digit first. */
  function HexValue(s: string): nat
    requires AllHexDigits(s)
  {
    if s == [] then 0 else HexValue(s[..|s| - 1]) * 16 + HexDigitValue(s[|s| - 1]).value
  }

  /** An optional `0x`/`0X` prefix followed by at least one hex digit, and nothing else. */
  function ParseHexDigits(w: string): (r: Option<nat>)
  {
    var digits := if |w| >= 2 && w[0] == '0' && (w[1] == 'x' || w[1] == 'X') then w[2..] else w;
    if digits != [] && AllHexDigits(digits) then Some(HexValue(digits)) else None
  }

  /**
   * Python 2's int(s, 16) on a str: optional whitespace, an optional sign,
   * optional whitespace again, an optional `0x`/`0X` prefix, at least one hex
   * digit, optional whitespace; anything else raises ValueError (None here).
   */
  function ParseHexInt(s: string): (r: Option<int>)
  {
    var t := Text.TrimStart(s, Text.CLocale);
    var signed := t != [] && (t[0] == '-' || t[0] == '+');
    var magnitude := ParseHexDigits(Text.Strip(if signed then t[1..] else t, Text.CLocale));
    match magnitude
    case None => None
    case Some(m) =>
      var value: int := if signed && t[0] == '-' then -(m as int) else m;
      Some(value)
  }

  /** The lower-case hex digit for `d`. */
  function HexDigit(d: nat): (c: char)
    requires d < 16
    ensures HexDigitValue(c) == Some(d)
  {
    if d < 10 then ('0' as int + d) as char else ('a' as int + d - 10) as char
  }

  /** `v` written in lower-case hex without prefix, as `'%x' % v` does. */
  function HexString(v: nat): (s: string)
    ensures s != [] && AllHexDigits(s)
    decreases v
  {
    if v < 16 then [HexDigit(v)] else HexString(v / 16) + [HexDigit(v % 16)]
  }

  lemma {:induction false} HexValueOfHexString(v: nat)
    ensures HexValue(HexString(v)) == v
    decreases v
  {
    if v >= 16 {
      HexValueOfHexString(v / 16);
      var s := HexString(v);
      assert s[..|s| - 1] == HexString(v / 16);
    }
  }

  /** A string with no surrounding whitespace and no sign is parsed as a bare magnitude. */
  lemma ParseUnsigned(w: string)
    requires w != [] && !Text.IsCSpace(w[0]) && !Text.IsCSpace(w[|w| - 1])
    requires w[0] != '-' && w[0] != '+'
    ensures ParseHexInt(w) == ParseHexDigits(w)
  {
    assert Text.TrimStart(w, Text.CLocale) == w;
    assert Text.TrimEnd(w, Text.CLocale) == w;
    assert Text.Strip(w, Text.CLocale) == w;
  }

  /** A non-empty run of hex digits, with or without `0x`, is a magnitude with its value. */
  lemma ParseHexDigitsPlain(h: string)
    requires h != [] && AllHexDigits(h)
    ensures ParseHexDigits(h) == Some(HexValue(h))
    ensures ParseHexDigits("0x" + h) == Some(HexValue(h))
  {
    if |h| >= 2 {
      assert HexDigitValue(h[1]).Some?;
    }
    assert ("0x" + h)[2..] == h;
  }

  /** Every version written as hex, with or without `0x`, parses back to itself. */
  lemma ParseHexString(v: nat)
    ensures ParseHexInt(HexString(v)) == Some(v)
    ensures ParseHexInt("0x" + HexString(v)) == Some(v)
  {
    var h := HexString(v);
    HexValueOfHexString(v);
    ParseHexDigitsPlain(h);
    assert HexDigitValue(h[0]).Some? && HexDigitValue(h[|h| - 1]).Some?;
    ParseUnsigned(h);
    var p := "0x" + h;
    assert p[|p| - 1] == h[|h| - 1];
    ParseUnsigned(p);
  }

  /** Whitespace around an unsigned version is skipped: the parse sees only the digits. */
  lemma ParseSkipsSurroundingSpace(lead: string, w: string, trail: string)
    requires Text.AllWhite(Text.CLocale, lead) && Text.AllWhite(Text.CLocale, trail)
    requires w != [] && !Text.IsCSpace(w[0]) && !Text.IsCSpace(w[|w| - 1])
    requires w[0] != '-' && w[0] != '+'
    ensures ParseHexInt(lead + w + trail) == ParseHexDigits(w)
  {
    assert lead + w + trail == lead + (w + trail);
    Text.TrimStartOfPadded(lead, w + trail, Text.CLocale);
    Text.TrimStartOfPadded([], w + trail, Text.CLocale);
    assert [] + (w + trail) == w + trail;
    Text.TrimEndOfPadded(w, trail, Text.CLocale);
    assert Text.Strip(w + trail, Text.CLocale) == w;
  }

  /** The characters int(s, 16) can accept at all: C whitespace, a sign, the `x` of the prefix, hex digits. */
  predicate VersionChar(c: char) {
    Text.IsCSpace(c) || HexDigitValue(c).Some? || c == '+' || c == '-' || c == 'x' || c == 'X'
  }

  /** Every character of an accepted magnitude is a hex digit or the `x` of its prefix. */
  lemma MagnitudeChars(w: string, k: nat)
    requires ParseHexDigits(w).Some? && k < |w|
    ensures HexDigitValue(w[k]).Some? || w[k] == 'x' || w[k] == 'X'
  {
    if |w| >= 2 && w[0] == '0' && (w[1] == 'x' || w[1] == 'X') && k >= 2 {
      assert w[k] == w[2..][k - 2];
    }
  }

  /** A version string holding any character other than whitespace, a sign, `x`/`X` or a hex digit raises ValueError. */
  lemma ForeignCharacterRejected(s: string, i: nat)
    requires i < |s| && !VersionChar(s[i])
    ensures ParseHexInt(s) == None
  {
    var t := Text.TrimStart(s, Text.CLocale);
    Text.LocateInTrimStart(s, i, Text.CLocale);
    var j := i - (|s| - |t|);
    var signed := t != [] && (t[0] == '-' || t[0] == '+');
    var u := if signed then t[1..] else t;
    var ju := if signed then j - 1 else j;
    assert 0 <= ju < |u| && u[ju] == s[i];
    var v := Text.TrimStart(u, Text.CLocale);
    Text.LocateInTrimStart(u, ju, Text.CLocale);
    var jv := ju - (|u| - |v|);
    var w := Text.TrimEnd(v, Text.CLocale);
    Text.LocateInTrimEnd(v, jv, Text.CLocale);
    assert Text.Strip(u, Text.CLocale) == w && w[jv] == s[i];
    if ParseHexDigits(w).Some? {
      MagnitudeChars(w, jv);
    }
  }

  /** Strings that are not hexadecimal numbers, like "ZZZZ", raise ValueError. */
  lemma NonHexVersionRejected()
    ensures ParseHexInt("ZZZZ") == None
    ensures ParseHexInt("0x") == None
    ensures ParseHexInt("") == None
  {
    assert HexDigitValue("ZZZZ"[0]).None?;
    ParseUnsigned("ZZZZ");
    ParseUnsigned("0x");
    assert "0x"[2..] == "";
  }

  // ---------------------------------------------------------------------
  // The checksum: a running sum of the payload bytes, masked to 32 bits
  // ---------------------------------------------------------------------

  /** The plain (unbounded) sum of the bytes of `data`. */
  function Sum(data: seq<byte>): nat
  {
    if data == [] then 0 else Sum(data[..|data| - 1]) + data[|data| - 1]
  }

  /**
   * The generator's checksum loop: add each byte, and whenever the running sum
   * exceeds 0xFFFFFFFF keep only its low 32 bits (`& 0xFFFFFFFF`, which for a
   * non-negative integer is the remainder modulo 2^32).
   */
  method Checksum(data: seq<byte>) returns (checksum: nat)
    ensures checksum <= 0xFFFF_FFFF
    ensures checksum == Sum(data) % Two32
  {
    checksum := 0;
    for i := 0 to |data|
      invariant checksum <= 0xFFFF_FFFF
      invariant checksum == Sum(data[..i]) % Two32
    {
      assert data[..i + 1][..i] == data[..i];
      ghost var total := Sum(data[..i]);
      assert Sum(data[..i + 1]) == total + data[i];
      checksum := checksum + data[i];
      if checksum > 0xFFFF_FFFF {
        checksum := checksum % Two32;
      }
      assert total == Two32 * (total / Two32) + total % Two32;
    }
    assert data[..|data|] == data;
  }

  // ---------------------------------------------------------------------
  // The image layout
  // ---------------------------------------------------------------------

  /** The eight header fields in the order the generator writes them. */
  function HeaderFields(version: nat, checksum: nat, size: nat): (fields: seq<seq<byte>>)
    requires version < Two32 && checksum < Two32 && size < Two32
    ensures |fields| == 8 && forall k :: 0 <= k < 8 ==> |fields[k]| == 4
  {
    [PackU32(version), HeaderNum, OtaSig, HeaderLen, PackU32(checksum), PackU32(size), OffsetAddr, ValueReserved]
  }

  /** The 32-byte header for a payload with the given version, checksum and size. */
  function Header(version: nat, checksum: nat, size: nat): seq<byte>
    requires version < Two32 && checksum < Two32 && size < Two32
  {
    PackU32(version) + HeaderNum + OtaSig + HeaderLen
    + PackU32(checksum) + PackU32(size) + OffsetAddr + ValueReserved
  }

  /** The OTA image for `payload` under firmware version `version`. */
  function Image(version: nat, payload: seq<byte>): seq<byte>
    requires version < Two32 && |payload| < Two32
  {
    Header(version, Sum(payload) % Two32, |payload|) + payload
  }

  /** Byte strings laid end to end. */
  function Concat(fields: seq<seq<byte>>): seq<byte>
  {
    if fields == [] then [] else fields[0] + Concat(fields[1..])
  }

  /** In a row of four-byte fields, field `k` occupies bytes 4k to 4k+4. */
  lemma {:induction false} ConcatField(fields: seq<seq<byte>>, k: nat)
    requires forall i :: 0 <= i < |fields| ==> |fields[i]| == 4
    requires k < |fields|
    ensures |Concat(fields)| == 4 * |fields|
    ensures Concat(fields)[4 * k..4 * k + 4] == fields[k]
  {
    var rest := Concat(fields[1..]);
    if k == 0 {
      if |fields| > 1 {
        ConcatField(fields[1..], 0);
      }
    } else {
      ConcatField(fields[1..], k - 1);
      assert Concat(fields)[4 * k..4 * k + 4] == rest[4 * (k - 1)..4 * (k - 1) + 4];
    }
  }

  /** The header is its eight fields laid end to end. */
  lemma HeaderIsFields(version: nat, checksum: nat, size: nat)
    requires version < Two32 && checksum < Two32 && size < Two32
    ensures Header(version, checksum, size) == Concat(HeaderFields(version, checksum, size))
  {
    var a, b, c, d := PackU32(version), HeaderNum, OtaSig, HeaderLen;
    var e, f, g, h := PackU32(checksum), PackU32(size), OffsetAddr, ValueReserved;
    assert Concat([h]) == h;
    assert Concat([g, h]) == g + h;
    assert Concat([f, g, h]) == f + (g + h);
    assert Concat([e, f, g, h]) == e + (f + (g + h));
    assert Concat([d, e, f, g, h]) == d + (e + (f + (g + h)));
    assert Concat([c, d, e, f, g, h]) == c + (d + (e + (f + (g + h))));
    assert Concat([b, c, d, e, f, g, h]) == b + (c + (d + (e + (f + (g + h)))));
    assert Concat([a, b, c, d, e, f, g, h]) == a + (b + (c + (d + (e + (f + (g + h))))));
  }

  /** Two 32-byte headers whose eight fields agree are equal. */
  lemma SameFields(x: seq<byte>, y: seq<byte>)
    requires |x| == 32 && |y| == 32
    requires forall k :: 0 <= k < 8 ==> x[4 * k..4 * k + 4] == y[4 * k..4 * k + 4]
    ensures x == y
  {
    forall i | 0 <= i < 32
      ensures x[i] == y[i]
    {
      var k := i / 4;
      assert x[i] == x[4 * k..4 * k + 4][i - 4 * k];
      assert y[i] == y[4 * k..4 * k + 4][i - 4 * k];
    }
  }

  /** Where every field of the image sits and what it holds. */
  lemma ImageLayout(version: nat, payload: seq<byte>)
    requires version < Two32 && |payload| < Two32
    ensures var image := Image(version, payload);
      && |image| == 32 + |payload|
      && image[0..4] == PackU32(version)
      && image[4..8] == HeaderNum
      && image[8..12] == OtaSig
      && image[12..16] == HeaderLen
      && image[16..20] == PackU32(Sum(payload) % Two32)
      && image[20..24] == PackU32(|payload|)
      && image[24..28] == OffsetAddr
      && image[28..32] == ValueReserved
      && image[32..] == payload
  {
    var checksum := Sum(payload) % Two32;
    var fields := HeaderFields(version, checksum, |payload|);
    var image := Image(version, payload);
    ImageField(version, payload, 0);
    ImageField(version, payload, 1);
    ImageField(version, payload, 2);
    ImageField(version, payload, 3);
    ImageField(version, payload, 4);
    ImageField(version, payload, 5);
    ImageField(version, payload, 6);
    ImageField(version, payload, 7);
    assert image[4 * 1..4 * 1 + 4] == image[4..8];
  }

  /** Field `k` of an image is field `k` of its header. */
  lemma ImageField(version: nat, payload: seq<byte>, k: nat)
    requires version < Two32 && |payload| < Two32 && k < 8
    ensures var image := Image(version, payload);
      |image| == 32 + |payload| && image[32..] == payload &&
      image[4 * k..4 * k + 4] == HeaderFields(version, Sum(payload) % Two32, |payload|)[k]
  {
    var checksum := Sum(payload) % Two32;
    var fields := HeaderFields(version, checksum, |payload|);
    var header := Header(version, checksum, |payload|);
    HeaderIsFields(version, checksum, |payload|);
    ConcatField(fields, k);
    assert Image(version, payload)[4 * k..4 * k + 4] == header[4 * k..4 * k + 4];
  }

  /** What an image holds: its version and its payload. */
  datatype Contents = Contents(version: nat, payload: seq<byte>)

  /**
   * Read an image back: None unless it is at least 32 bytes long, its fixed
   * fields hold their constants, its checksum field is the payload's sum
   * modulo 2^32 and its size field is the payload's length.
   */
  function Decode(image: seq<byte>): (r: Option<Contents>)
    ensures r.Some? ==> |image| == 32 + |r.value.payload| && r.value.version < Two32
  {
    if |image| < 32 then None
    else
      var payload := image[32..];
      if && image[4..8] == HeaderNum
         && image[8..12] == OtaSig
         && image[12..16] == HeaderLen
         && UnpackU32(image[16..20]) == Sum(payload) % Two32
         && UnpackU32(image[20..24]) == |payload|
         && image[24..28] == OffsetAddr
         && image[28..32] == ValueReserved
      then Some(Contents(UnpackU32(image[0..4]), payload))
      else None
  }

  /** Decoding an image gives back its version and payload exactly. */
  lemma DecodeImage(version: nat, payload: seq<byte>)
    requires version < Two32 && |payload| < Two32
    ensures Decode(Image(version, payload)) == Some(Contents(version, payload))
  {
    ImageLayout(version, payload);
    UnpackPack(version);
    UnpackPack(Sum(payload) % Two32);
    UnpackPack(|payload|);
  }

  /** Every byte string that decodes is the image of what it decodes to. */
  lemma ImageOfDecode(image: seq<byte>)
    requires Decode(image).Some?
    ensures var c := Decode(image).value;
      |c.payload| < Two32 && Image(c.version, c.payload) == image
  {
    var c := Decode(image).value;
    PackUnpack(image[0..4]);
    PackUnpack(image[16..20]);
    PackUnpack(image[20..24]);
    ImageLayout(c.version, c.payload);
    var other := Image(c.version, c.payload);
    forall k | 0 <= k < 8
      ensures image[..32][4 * k..4 * k + 4] == other[..32][4 * k..4 * k + 4]
    {
      assert image[..32][4 * k..4 * k + 4] == image[4 * k..4 * k + 4];
      assert other[..32][4 * k..4 * k + 4] == other[4 * k..4 * k + 4];
      assert k == 0 || k == 1 || k == 2 || k == 3 || k == 4 || k == 5 || k == 6 || k == 7;
    }
    SameFields(image[..32], other[..32]);
    assert image == image[..32] + image[32..];
    assert other == other[..32] + other[32..];
  }

  // ---------------------------------------------------------------------
  // Generating the image file
  // ---------------------------------------------------------------------

  /** Why no image was produced. */
  datatype Failure =
    | InvalidVersion     // int(fw_ver, 16) raised ValueError
    | VersionOutOfRange  // struct.pack('<I', version) raised: negative or above 0xFFFFFFFF
    | BinaryUnreadable   // the raw binary could not be opened or read
    | PayloadTooLarge    // struct.pack('<I', bin_size) raised: 2^32 bytes or more

  /** What the generator leaves in its destination file, and whether it completed. */
  datatype Written = Written(contents: seq<byte>, outcome: Result<(), Failure>)

  /**
   * The destination file after a run. The file is deleted if present and
   * recreated empty before the version is parsed, so an invalid version leaves
   * an empty file; the four leading header fields are written before the
   * binary is read, and the checksum field before the size is packed, so the
   * later failures leave 16 and 20 bytes.
   */
  function Generate(fwVer: string, binary: Option<seq<byte>>): (w: Written)
  {
    match ParseHexInt(fwVer)
    case None => Written([], Err(InvalidVersion))
    case Some(v) =>
      if v < 0 || v >= Two32 then Written([], Err(VersionOutOfRange))
      else
        var leading := PackU32(v) + HeaderNum + OtaSig + HeaderLen;
        match binary
        case None => Written(leading, Err(BinaryUnreadable))
        case Some(data) =>
          if |data| >= Two32 then Written(leading + PackU32(Sum(data) % Two32), Err(PayloadTooLarge))
          else Written(Image(v, data), Ok(()))
  }

  /** The run completes exactly when the version is a hex number in [0, 2^32) and the payload is readable and under 2^32 bytes; the file then holds the image. */
  lemma GenerateSucceeds(fwVer: string, binary: Option<seq<byte>>)
    ensures Generate(fwVer, binary).outcome.Ok? <==>
      && ParseHexInt(fwVer).Some? && 0 <= ParseHexInt(fwVer).value < Two32
      && binary.Some? && |binary.value| < Two32
    ensures Generate(fwVer, binary).outcome.Ok? ==>
      Generate(fwVer, binary).contents == Image(ParseHexInt(fwVer).value, binary.value)
  {
  }

  /** A completed run's file decodes to the requested version and the payload. */
  lemma GeneratedImageDecodes(fwVer: string, binary: Option<seq<byte>>)
    requires Generate(fwVer, binary).outcome.Ok?
    ensures Decode(Generate(fwVer, binary).contents) == Some(Contents(ParseHexInt(fwVer).value, binary.value))
  {
    DecodeImage(ParseHexInt(fwVer).value, binary.value);
  }

  /** A failed run leaves a file shorter than a header, which is no valid image. */
  lemma FailedRunLeavesNoImage(fwVer: string, binary: Option<seq<byte>>)
    requires Generate(fwVer, binary).outcome.Err?
    ensures |Generate(fwVer, binary).contents| < 32
    ensures Decode(Generate(fwVer, binary).contents) == None
  {
  }

  /**
   * The destination path in the file system: whether a file is there, and
   * its bytes.
   */
  class OutputFile {
    var present: bool
    var contents: seq<byte>

    /** No bytes without a file. */
    predicate Valid()
      reads this
    {
      present || contents == []
    }

    constructor (present: bool, contents: seq<byte>)
      requires present || contents == []
      ensures Valid() && this.present == present && this.contents == contents
    {
      this.present := present;
      this.contents := contents;
    }

    /** os.remove(path). */
    method Remove()
      requires Valid() && present
      modifies this
      ensures Valid() && !present && contents == []
    {
      present := false;
      contents := [];
    }

    /** open(path, 'ab'): creates the file if missing and keeps existing bytes. */
    method OpenAppend()
      requires Valid()
      modifies this
      ensures Valid() && present && contents == old(contents)
    {
      present := true;
    }

    /** write(bytes) on a file opened for appending. */
    method Write(bytes: seq<byte>)
      requires Valid() && present
      modifies this`contents
      ensures Valid() && contents == old(contents) + bytes
    {
      contents := contents + bytes;
    }
  }

  /**
   * ota_generate(bin_path, fw_ver, dest_path): `binary` is the content of the
   * raw binary, or None when it cannot be read; `dest` is the destination.
   * Whatever the destination held before, its new content depends only on
   * the version string and the binary.
   */
  method OtaGenerate(dest: OutputFile, fwVer: string, binary: Option<seq<byte>>)
      returns (outcome: Result<(), Failure>)
    requires dest.Valid()
    modifies dest
    ensures dest.Valid() && dest.present
    ensures Written(dest.contents, outcome) == Generate(fwVer, binary)
  {
    if dest.present {
      dest.Remove();
    }
    dest.OpenAppend();
    assert dest.contents == [];
    var parsed := ParseHexInt(fwVer);
    if parsed.None? {
      return Err(InvalidVersion);
    }
    var version := parsed.value;
    if version < 0 || version >= Two32 {
      return Err(VersionOutOfRange);
    }
    dest.Write(PackU32(version));
    dest.Write(HeaderNum);
    dest.Write(OtaSig);
    dest.Write(HeaderLen);
    ghost var leading := PackU32(version) + HeaderNum + OtaSig + HeaderLen;
    assert dest.contents == leading;
    if binary.None? {
      return Err(BinaryUnreadable);
    }
    var data := binary.value;
    var checksum := Checksum(data);
    dest.Write(PackU32(checksum));
    if |data| >= Two32 {
      return Err(PayloadTooLarge);
    }
    dest.Write(PackU32(|data|));
    dest.Write(OffsetAddr);
    dest.Write(ValueReserved);
    assert dest.contents == Header(version, checksum, |data|);
    dest.Write(data);
    outcome := Ok(());
  }
}
