/** The EDID codec of the virtual display driver: the 20-byte header view (`EdidBlob`), the
    checksum writer (`gen_checksum`), the block generator (`generate_edid_with`) and the serial
    reader (`get_edid_serial`). */
module Edid {
  import opened Wrappers
  import opened Bytes
  import opened EdidTemplate

  /** Size of the header view, `size_of::<EdidBlob>()`: 8 + 2 + 2 + 4 + 1 + 1 + 1 + 1 bytes. */
  const EdidBlobSize: nat := 20

  /** Length of an EDID base block, the least length gen_checksum accepts. */
  const BlockSize: nat := 128

  /** Index of the checksum byte; the checksum covers the bytes before it. */
  const ChecksumIndex: nat := 127

  /** The first 20 bytes of an EDID block as named fields.  Multi-byte integers are stored
      least significant byte first. */
  datatype EdidBlob = EdidBlob(
    header: seq<Byte>,
    manufacturerId: seq<Byte>,
    productCode: U16,
    serialNumber: U32,
    manufactureWeek: Byte,
    manufactureYear: Byte,
    version: Byte,
    revision: Byte)
  {
    /** The two byte arrays of the record have their declared lengths. */
    predicate Valid() {
      |header| == 8 && |manufacturerId| == 2
    }
  }

  /** Reads the header view from exactly 20 bytes (`pod_read_unaligned::<EdidBlob>`). */
  function Decode(b: seq<Byte>): (blob: EdidBlob)
    requires |b| == EdidBlobSize
    ensures blob.Valid()
  {
    EdidBlob(b[..8], b[8..10], FromLittleEndian(b[10..12]), FromLittleEndian(b[12..16]),
             b[16], b[17], b[18], b[19])
  }

  /** Writes the header view back to its 20 bytes (`bytes_of`). */
  function Encode(blob: EdidBlob): (b: seq<Byte>)
    requires blob.Valid()
    ensures |b| == EdidBlobSize
  {
    blob.header + blob.manufacturerId
      + ToLittleEndian(blob.productCode, 2) + ToLittleEndian(blob.serialNumber, 4)
      + [blob.manufactureWeek, blob.manufactureYear, blob.version, blob.revision]
  }

  /** Encoding the record decoded from 20 bytes gives back those bytes. */
  lemma EncodeDecode(b: seq<Byte>)
    requires |b| == EdidBlobSize
    ensures Encode(Decode(b)) == b
  {
    ToFromLittleEndian(b[10..12]);
    ToFromLittleEndian(b[12..16]);
    assert b == b[..8] + b[8..10] + b[10..12] + b[12..16] + [b[16], b[17], b[18], b[19]];
  }

  /** Decoding an encoded record gives back the record. */
  lemma DecodeEncode(blob: EdidBlob)
    requires blob.Valid()
    ensures Decode(Encode(blob)) == blob
  {
    var b := Encode(blob);
    assert b[..8] == blob.header;
    assert b[8..10] == blob.manufacturerId;
    assert b[10..12] == ToLittleEndian(blob.productCode, 2);
    assert b[12..16] == ToLittleEndian(blob.serialNumber, 4);
    FromToLittleEndian(blob.productCode, 2);
    FromToLittleEndian(blob.serialNumber, 4);
  }

  /** Decoding a header, replacing its serial number and encoding it again changes only
      bytes 12..15, which then hold the new serial least significant byte first. */
  lemma SetSerialInHeader(b: seq<Byte>, serial: U32)
    requires |b| == EdidBlobSize
    ensures Encode(Decode(b).(serialNumber := serial))
         == b[..12] + ToLittleEndian(serial, 4) + b[16..]
  {
    ToFromLittleEndian(b[10..12]);
    assert b[..12] == b[..8] + b[8..10] + b[10..12];
    assert b[16..] == [b[16], b[17], b[18], b[19]];
  }

  /** `u8::try_from` of a widened value: the value when it fits in a byte, otherwise a
      failed conversion (which the source unwraps, so it panics). */
  function ToByte(x: nat): Option<Byte> {
    if x < 0x100 then Some(x) else None
  }

  /** The byte gen_checksum stores after the 127 bytes `prefix`: `256 - sum % 256`, or None
      where that value is 256 and the conversion to a byte panics. */
  function ChecksumByte(prefix: seq<Byte>): (c: Option<Byte>)
    ensures c.Some? <==> Sum(prefix) % 256 != 0
    ensures c.Some? ==> (Sum(prefix) + c.value) % 256 == 0
  {
    ToByte(256 - Sum(prefix) % 256)
  }

  /** The byte gen_checksum stores is the one non-zero byte that balances the sum; a zero
      checksum, the only balancing byte when the sum is already a multiple of 256, is never
      produced. */
  lemma ChecksumByteIsNonZeroBalance(prefix: seq<Byte>, c: Byte)
    ensures ChecksumByte(prefix) == Some(c) <==> c != 0 && (Sum(prefix) + c) % 256 == 0
  {
    var s := Sum(prefix);
    if c != 0 && (s + c) % 256 == 0 {
      assert s % 256 + c == 256;
    }
  }

  /** gen_checksum: stores in `data[127]` the byte that makes bytes 0..127 sum to a
      multiple of 256.  Where the source panics (the sum of bytes 0..126 is already a
      multiple of 256), the model reports failure and leaves `data` as it was. */
  method GenChecksum(data: array<Byte>) returns (ok: bool)
    requires data.Length >= BlockSize
    modifies data
    ensures ok <==> ChecksumByte(old(data[..ChecksumIndex])).Some?
    ensures ok ==> data[..] == old(data[..])[ChecksumIndex := ChecksumByte(old(data[..ChecksumIndex])).value]
    ensures !ok ==> data[..] == old(data[..])
    ensures forall i :: 0 <= i < data.Length && i != ChecksumIndex ==> data[i] == old(data[i])
    ensures ok ==> Sum(data[..BlockSize]) % 256 == 0
  {
    var sum := Sum(data[..ChecksumIndex]);
    var checksum := ToByte(256 - sum % 256);
    if checksum.None? {
      return false;
    }
    data[ChecksumIndex] := checksum.value;
    ok := true;
    StoredChecksumSum(old(data[..]), checksum.value);
  }

  /** Storing `c` at index 127 makes the first 128 bytes add up to the first 127 plus `c`. */
  lemma StoredChecksumSum(s: seq<Byte>, c: Byte)
    requires |s| >= BlockSize
    ensures Sum(s[ChecksumIndex := c][..BlockSize]) == Sum(s[..ChecksumIndex]) + c
  {
    var block := s[ChecksumIndex := c][..BlockSize];
    assert block[..ChecksumIndex] == s[..ChecksumIndex];
    assert block[ChecksumIndex..] == [c];
    assert Sum([c]) == c;
    assert block[0..BlockSize] == block;
    SumSlices(block, 0, ChecksumIndex, BlockSize);
  }

  /** `block` with its serial number field, bytes 12..15, replaced by `serial` least
      significant byte first. */
  function WithSerial(block: seq<Byte>, serial: U32): seq<Byte>
    requires |block| >= 16
  {
    block[..12] + ToLittleEndian(serial, 4) + block[16..]
  }

  /** Replacing the serial field writes the serial into bytes 12..15 and changes nothing
      else, so the block's byte sum trades the old field's bytes for the serial's. */
  lemma WithSerialChangesSerialFieldOnly(block: seq<Byte>, serial: U32)
    requires |block| >= 16
    ensures |WithSerial(block, serial)| == |block|
    ensures WithSerial(block, serial)[12..16] == ToLittleEndian(serial, 4)
    ensures forall i :: 0 <= i < |block| && !(12 <= i < 16) ==> WithSerial(block, serial)[i] == block[i]
    ensures Sum(WithSerial(block, serial)) + Sum(block[12..16]) == Sum(block) + Sum(ToLittleEndian(serial, 4))
  {
    var le := ToLittleEndian(serial, 4);
    SumAppend(block[..12], le);
    SumAppend(block[..12] + le, block[16..]);
    SumAppend(block[..12], block[12..16]);
    SumAppend(block[..12] + block[12..16], block[16..]);
    assert block == block[..12] + block[12..16] + block[16..];
  }

  /** The block generate_edid_with builds from a 128-byte `template` for `serial`: the
      template carrying `serial` with byte 127 replaced by its checksum; None where
      gen_checksum panics.  The source always uses MonitorEdid (see GeneratedEdid); the
      template is a parameter so that the block's shape is proved for any template. */
  function GenerateFrom(template: seq<Byte>, serial: U32): Option<seq<Byte>>
    requires |template| == BlockSize
  {
    var block := WithSerial(template, serial);
    match ChecksumByte(block[..ChecksumIndex])
    case None => None
    case Some(c) => Some(block[ChecksumIndex := c])
  }

  /** The block generate_edid_with returns for `serial`, or None where it panics. */
  function GeneratedEdid(serial: U32): Option<seq<Byte>> {
    GenerateFrom(MonitorEdid, serial)
  }

  /** Lines 30-39 of generate_edid_with: decode the template's header, set its serial, encode
      it again and append the template's bytes 20..127, in a fresh buffer. */
  method SpliceSerial(serial: U32) returns (edid: array<Byte>)
    ensures fresh(edid)
    ensures edid[..] == WithSerial(MonitorEdid, serial)
  {
    var header := Decode(MonitorEdid[..EdidBlobSize]);
    header := header.(serialNumber := serial);
    var headerBytes := Encode(header);
    var spliced := headerBytes + MonitorEdid[EdidBlobSize..];
    edid := new Byte[|spliced|](i requires 0 <= i < |spliced| => spliced[i]);
    SpliceIsWithSerial(MonitorEdid, serial);
    assert edid[..] == spliced;
  }

  /** Splicing a re-encoded header carrying `serial` onto the rest of a block is the block
      with its serial field replaced. */
  lemma SpliceIsWithSerial(t: seq<Byte>, serial: U32)
    requires |t| >= EdidBlobSize
    ensures Encode(Decode(t[..EdidBlobSize]).(serialNumber := serial)) + t[EdidBlobSize..]
         == WithSerial(t, serial)
  {
    var h := t[..EdidBlobSize];
    SetSerialInHeader(h, serial);
    assert h[..12] == t[..12];
    assert h[16..] + t[EdidBlobSize..] == t[16..];
  }

  /** generate_edid_with: the template carrying `serial`, with a fresh checksum, in a new
      buffer; None where the source panics. */
  method GenerateEdidWith(serial: U32) returns (r: Option<array<Byte>>)
    ensures r.Some? ==> fresh(r.value)
    ensures r.None? <==> GeneratedEdid(serial).None?
    ensures r.Some? ==> r.value[..] == GeneratedEdid(serial).value
  {
    var edid := SpliceSerial(serial);
    var ok := GenChecksum(edid);
    r := if ok then Some(edid) else None;
  }

  /** get_edid_serial: the serial number field of the header view of `edid`; the source
      panics on fewer than 20 bytes.  Its bytes are exactly bytes 12..15 of `edid`. */
  function GetEdidSerial(edid: seq<Byte>): (serial: U32)
    requires |edid| >= EdidBlobSize
    ensures ToLittleEndian(serial, 4) == edid[12..16]
  {
    assert edid[..EdidBlobSize][12..16] == edid[12..16];
    ToFromLittleEndian(edid[12..16]);
    Decode(edid[..EdidBlobSize]).serialNumber
  }

  /** get_edid_serial looks at bytes 12..15 only. */
  lemma GetEdidSerialReadsSerialField(a: seq<Byte>, b: seq<Byte>)
    requires |a| >= EdidBlobSize && |b| >= EdidBlobSize
    ensures GetEdidSerial(a) == GetEdidSerial(b) <==> a[12..16] == b[12..16]
  {
    FromToLittleEndian(GetEdidSerial(a), 4);
    FromToLittleEndian(GetEdidSerial(b), 4);
  }

  /** A generated block is 128 bytes long, equals the template except in the serial field and
      the checksum byte, carries the serial least significant byte first and sums to a
      multiple of 256. */
  lemma GeneratedShape(template: seq<Byte>, serial: U32)
    requires |template| == BlockSize && GenerateFrom(template, serial).Some?
    ensures var e := GenerateFrom(template, serial).value;
      && |e| == BlockSize
      && (forall i :: 0 <= i < BlockSize && !(12 <= i < 16) && i != ChecksumIndex ==> e[i] == template[i])
      && e[12..16] == ToLittleEndian(serial, 4)
      && Sum(e) % 256 == 0
  {
    var block := WithSerial(template, serial);
    var c := ChecksumByte(block[..ChecksumIndex]).value;
    var e := GenerateFrom(template, serial).value;
    WithSerialChangesSerialFieldOnly(template, serial);
    assert e == block[ChecksumIndex := c];
    assert e[12..16] == block[12..16];
    StoredChecksumSum(block, c);
    assert e[..BlockSize] == e;
  }

  /** Generation panics exactly when the template's bytes 0..126 outside the serial field and
      the serial's four bytes add up to a multiple of 256; otherwise byte 127 is what brings
      the total to the next multiple of 256. */
  lemma GeneratedChecksum(template: seq<Byte>, serial: U32)
    requires |template| == BlockSize
    ensures var rest := Sum(template[..ChecksumIndex]) - Sum(template[12..16]);
      && (GenerateFrom(template, serial).None? <==> (rest + Sum(ToLittleEndian(serial, 4))) % 256 == 0)
      && (GenerateFrom(template, serial).Some? ==>
            GenerateFrom(template, serial).value[ChecksumIndex] == 256 - (rest + Sum(ToLittleEndian(serial, 4))) % 256)
  {
    var t := template[..ChecksumIndex];
    assert WithSerial(template, serial)[..ChecksumIndex] == WithSerial(t, serial);
    assert t[12..16] == template[12..16];
    WithSerialChangesSerialFieldOnly(t, serial);
  }

  /** Reading the serial back from a generated block gives the serial it was generated with. */
  lemma GetSerialOfGenerated(template: seq<Byte>, serial: U32)
    requires |template| == BlockSize && GenerateFrom(template, serial).Some?
    ensures GetEdidSerial(GenerateFrom(template, serial).value) == serial
  {
    GeneratedShape(template, serial);
    FromToLittleEndian(serial, 4);
    FromToLittleEndian(GetEdidSerial(GenerateFrom(template, serial).value), 4);
  }

  /** Two blocks generated from one template differ at most in the serial field and the
      checksum byte. */
  lemma GeneratedAgreeOutsideSerial(template: seq<Byte>, s1: U32, s2: U32)
    requires |template| == BlockSize
    requires GenerateFrom(template, s1).Some? && GenerateFrom(template, s2).Some?
    ensures forall i :: 0 <= i < BlockSize && !(12 <= i < 16) && i != ChecksumIndex
                        ==> GenerateFrom(template, s1).value[i] == GenerateFrom(template, s2).value[i]
  {
    GeneratedShape(template, s1);
    GeneratedShape(template, s2);
  }

  /** For a template whose serial field is zero, generation panics exactly when the template's
      bytes 0..126 and the serial's four bytes add up to a multiple of 256. */
  lemma ZeroSerialTemplateChecksum(template: seq<Byte>, serial: U32)
    requires |template| == BlockSize && template[12..16] == [0, 0, 0, 0]
    ensures var total := Sum(template[..ChecksumIndex]) + Sum(ToLittleEndian(serial, 4));
      && (GenerateFrom(template, serial).None? <==> total % 256 == 0)
      && (GenerateFrom(template, serial).Some? ==>
            GenerateFrom(template, serial).value[ChecksumIndex] == 256 - total % 256)
  {
    GeneratedChecksum(template, serial);
    assert Sum(template[12..16]) == 0 by {
      assert Sum([0, 0, 0, 0]) == 0;
    }
  }

  /** With the driver's template, generation panics exactly for the serials whose four bytes
      add up to 81 modulo 256: the template's bytes 0..126 add up to 175 modulo 256 and its
      serial field is zero. */
  lemma GenerationFailsIff(serial: U32)
    ensures GeneratedEdid(serial).None? <==> Sum(ToLittleEndian(serial, 4)) % 256 == 81
    ensures GeneratedEdid(serial).Some? ==>
              GeneratedEdid(serial).value[ChecksumIndex] == 256 - (175 + Sum(ToLittleEndian(serial, 4))) % 256
  {
    TemplateSum();
    TemplateZeroFields();
    ZeroSerialTemplateChecksum(MonitorEdid, serial);
  }

  /** Serial 81 (0x51) is one of the serials for which generation panics. */
  lemma Serial81Fails()
    ensures GeneratedEdid(81).None?
  {
    GenerationFailsIff(81);
    assert ToLittleEndian(81, 4) == [81, 0, 0, 0];
    assert Sum([81, 0, 0, 0]) == 81;
  }

  /** Serial 1 succeeds: bytes 12..15 are 01 00 00 00 and the checksum byte is 0x50. */
  lemma Serial1Generates(serial: U32)
    requires serial == 1
    ensures GeneratedEdid(serial).Some?
    ensures GeneratedEdid(serial).value[12..16] == [1, 0, 0, 0]
    ensures GeneratedEdid(serial).value[ChecksumIndex] == 0x50
  {
    assert ToLittleEndian(serial, 4) == [1, 0, 0, 0];
    assert Sum([1, 0, 0, 0]) == 1;
    GenerationFailsIff(serial);
    GeneratedShape(MonitorEdid, serial);
  }
}
