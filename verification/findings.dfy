/** The checksum as the EDID format intends it, beside the one gen_checksum computes.
    gen_checksum converts `256 - sum % 256` to a byte and unwraps the conversion, so it
    panics instead of storing 0 whenever bytes 0..126 already add up to a multiple of 256.
    The intended checksum is `(256 - sum % 256) % 256`, which is 0 in that case. */
module EdidFindings {
  import opened Bytes
  import opened EdidTemplate
  import opened Edid

  /** The checksum byte the format calls for: the one byte that brings the sum to a multiple
      of 256, zero included. */
  function IntendedChecksumByte(prefix: seq<Byte>): (c: Byte)
    ensures (Sum(prefix) + c) % 256 == 0
  {
    (256 - Sum(prefix) % 256) % 256
  }

  /** Where gen_checksum does not panic it stores the intended byte; where it panics the
      intended byte is 0. */
  lemma ChecksumAsWrittenVersusIntended(prefix: seq<Byte>)
    ensures ChecksumByte(prefix).Some? ==> ChecksumByte(prefix).value == IntendedChecksumByte(prefix)
    ensures ChecksumByte(prefix).None? <==> IntendedChecksumByte(prefix) == 0
  {
    ChecksumByteIsNonZeroBalance(prefix, IntendedChecksumByte(prefix));
  }

  /** gen_checksum with the intended conversion: it never fails. */
  method GenChecksumIntended(data: array<Byte>)
    requires data.Length >= BlockSize
    modifies data
    ensures data[..] == old(data[..])[ChecksumIndex := IntendedChecksumByte(old(data[..ChecksumIndex]))]
    ensures Sum(data[..BlockSize]) % 256 == 0
  {
    var checksum := (256 - Sum(data[..ChecksumIndex]) % 256) % 256;
    data[ChecksumIndex] := checksum;
    StoredChecksumSum(old(data[..]), checksum);
  }

  /** The block generate_edid_with would build from `template` with the intended checksum. */
  function GenerateFromIntended(template: seq<Byte>, serial: U32): seq<Byte>
    requires |template| == BlockSize
  {
    var block := WithSerial(template, serial);
    block[ChecksumIndex := IntendedChecksumByte(block[..ChecksumIndex])]
  }

  /** generate_edid_with built on the intended checksum: total, and always balanced. */
  method GenerateEdidWithIntended(serial: U32) returns (edid: array<Byte>)
    ensures fresh(edid)
    ensures edid[..] == GenerateFromIntended(MonitorEdid, serial)
  {
    edid := SpliceSerial(serial);
    GenChecksumIntended(edid);
  }

  /** Storing any checksum byte into a block with a spliced serial leaves that serial readable. */
  lemma SerialSurvivesChecksumByte(template: seq<Byte>, serial: U32, c: Byte)
    requires |template| == BlockSize
    ensures GetEdidSerial(WithSerial(template, serial)[ChecksumIndex := c]) == serial
  {
    var block := WithSerial(template, serial);
    var e := block[ChecksumIndex := c];
    WithSerialChangesSerialFieldOnly(template, serial);
    assert e[12..16] == block[12..16] == ToLittleEndian(serial, 4);
    FromToLittleEndian(serial, 4);
    FromToLittleEndian(GetEdidSerial(e), 4);
  }

  /** With the intended checksum every serial yields a 128-byte block that sums to a multiple
      of 256 and reads back as that serial; where the source succeeds it yields the same
      block. */
  lemma GeneratedIntendedIsValid(template: seq<Byte>, serial: U32)
    requires |template| == BlockSize
    ensures |GenerateFromIntended(template, serial)| == BlockSize
    ensures Sum(GenerateFromIntended(template, serial)) % 256 == 0
    ensures GetEdidSerial(GenerateFromIntended(template, serial)) == serial
    ensures GenerateFrom(template, serial).Some? ==>
              GenerateFrom(template, serial).value == GenerateFromIntended(template, serial)
  {
    var block := WithSerial(template, serial);
    var c := IntendedChecksumByte(block[..ChecksumIndex]);
    var e := GenerateFromIntended(template, serial);
    assert |block| == BlockSize && e == block[ChecksumIndex := c] by {
      WithSerialChangesSerialFieldOnly(template, serial);
    }
    assert Sum(e) % 256 == 0 by {
      StoredChecksumSum(block, c);
      assert e[..BlockSize] == e;
    }
    SerialSurvivesChecksumByte(template, serial, c);
    ChecksumAsWrittenVersusIntended(block[..ChecksumIndex]);
  }

  /** For serial 81, where the source panics, the intended checksum byte is 0. */
  lemma Serial81IntendedChecksumIsZero()
    ensures GenerateFromIntended(MonitorEdid, 81)[ChecksumIndex] == 0
  {
    Serial81Fails();
    ChecksumAsWrittenVersusIntended(WithSerial(MonitorEdid, 81)[..ChecksumIndex]);
  }
}
