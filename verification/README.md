# EDID generation for the virtual display driver, in Dafny

The virtual display driver gives every virtual monitor a 128-byte EDID block (the VESA
Extended Display Identification Data base block). It builds that block from one built-in
template, `MONITOR_EDID`. The 32-bit serial number of the monitor is spliced into the
template's header (bytes 12..15, little-endian). Then byte 127 is recomputed so that all
128 bytes add up to a multiple of 256. The driver reads the serial back from a block with
`get_edid_serial`.

This project models `virtual-display-driver/src/edid.rs` and proves properties of it:

- `wrappers.dfy` (`Wrappers`): the `Option` type. A result of `None` stands for the
  source's panic.
- `bytes.dfy` (`Bytes`): bytes, `u16`/`u32` ranges, the byte sum and its algebra, and the
  little-endian codec with both round trips.
- `template.dfy` (`EdidTemplate`): the 128 template bytes, and the proof that bytes 0..126
  add up to 6575 (175 modulo 256) while the serial field and byte 127 are zero.
- `edid.dfy` (`Edid`):
  - the 20-byte `EdidBlob` header record with its decode and encode;
  - `gen_checksum` as a method that updates an array in place;
  - `generate_edid_with` as a method that returns a fresh array, or `None` where the source
    panics;
  - `get_edid_serial`;
  - lemmas about the generated block.
- `findings.dfy` (`EdidFindings`): the checksum as evidently intended (see "## Findings"),
  and the same generation rebuilt on it.

The unwrap in `gen_checksum` (edid.rs line 61) panics when the sum of bytes 0..126 is a
multiple of 256. The model keeps that behaviour as a failure outcome and does not repair
it. With the driver's template this happens exactly for the serials whose four bytes add
up to 81 modulo 256; serial 81 is one of them. The E-EDID base block only requires all 128
bytes to sum to 0 modulo 256, which a checksum byte of 0 satisfies when bytes 0..126 already
do. The model follows the code, and the corrected behaviour lives separately in
`EdidFindings`.

## Model

| member | source | states |
|---|---|---|
| Bytes.Sum | virtual-display-driver/src/edid.rs:60 | the byte sum that `gen_checksum` accumulates; it is at most 255 per byte, so the `u32` accumulator of a 127-byte slice never overflows |
| Bytes.SumAppend | virtual-display-driver/src/edid.rs:60 | the sum of a concatenation is the sum of its parts |
| Bytes.FromToLittleEndian | virtual-display-driver/src/edid.rs:20-21 | encoding a number below 256^n as n little-endian bytes and decoding it gives the number back |
| Bytes.ToFromLittleEndian | virtual-display-driver/src/edid.rs:20-21 | decoding n little-endian bytes and re-encoding them to n bytes gives the same bytes back |
| EdidTemplate.TemplateZeroFields | virtual-display-driver/src/edid.rs:3-12 | in the template, the serial field (bytes 12..15) and the checksum byte 127 are zero |
| EdidTemplate.TemplateSum | virtual-display-driver/src/edid.rs:3-12 | the template's bytes 0..126 add up to 6575, which is 175 modulo 256 |
| Edid.Decode | virtual-display-driver/src/edid.rs:14-26 | reading 20 bytes as an `EdidBlob` gives an 8-byte header and a 2-byte manufacturer id, with the product code and serial read little-endian |
| Edid.Encode | virtual-display-driver/src/edid.rs:33 | the byte image of a well-formed `EdidBlob` is exactly 20 bytes long |
| Edid.EncodeDecode | virtual-display-driver/src/edid.rs:31-33 | reading any 20 bytes as a blob and writing it back reproduces them |
| Edid.DecodeEncode | virtual-display-driver/src/edid.rs:31-33 | writing a well-formed blob and reading it back gives the same blob |
| Edid.SetSerialInHeader | virtual-display-driver/src/edid.rs:30-33 | setting `serial_number` in the decoded header and re-encoding changes exactly bytes 12..15, to the serial in little-endian order |
| Edid.ChecksumByte | virtual-display-driver/src/edid.rs:60-61 | the checksum exists exactly when the sum is not a multiple of 256, and then it brings the sum up to a multiple of 256 |
| Edid.ChecksumByteIsNonZeroBalance | virtual-display-driver/src/edid.rs:61 | the computed checksum is c exactly when c is non-zero and sum + c is a multiple of 256 |
| Edid.GenChecksum | virtual-display-driver/src/edid.rs:52-65 | on a buffer of at least 128 bytes: if it succeeds, only byte 127 changes and bytes 0..127 add up to a multiple of 256; it fails (the panic) exactly when bytes 0..126 already sum to a multiple of 256, and then nothing changes |
| Edid.StoredChecksumSum | virtual-display-driver/src/edid.rs:64 | after storing c at index 127, bytes 0..127 add up to the old sum of bytes 0..126 plus c |
| Edid.WithSerialChangesSerialFieldOnly | virtual-display-driver/src/edid.rs:30-39 | splicing a serial keeps the length, puts the serial's little-endian bytes at 12..15, leaves every other byte unchanged, and changes the sum only by the swapped field |
| Edid.SpliceSerial | virtual-display-driver/src/edid.rs:30-39 | decoding the template header, setting the serial, encoding it and appending template bytes 20.. yields the template with its serial field replaced |
| Edid.SpliceIsWithSerial | virtual-display-driver/src/edid.rs:30-39 | for any template, the header round trip with a new serial followed by the remaining bytes is the template with bytes 12..15 replaced |
| Edid.GenerateEdidWith | virtual-display-driver/src/edid.rs:28-44 | returns a fresh 128-byte array equal to the spliced and checksummed block, and fails exactly when the checksum would panic |
| Edid.GetEdidSerial | virtual-display-driver/src/edid.rs:46-50 | the serial read from a block of at least 20 bytes is the number whose 4 little-endian bytes are bytes 12..15 |
| Edid.GetEdidSerialReadsSerialField | virtual-display-driver/src/edid.rs:46-50 | two blocks give the same serial exactly when their bytes 12..15 agree |
| Edid.GeneratedShape | virtual-display-driver/src/edid.rs:28-44 | a generated block has 128 bytes, equals the template outside bytes 12..15 and 127, carries the serial at 12..15, and sums to a multiple of 256 |
| Edid.GeneratedChecksum | virtual-display-driver/src/edid.rs:41-61 | generation fails exactly when the template's bytes 0..126 outside the serial field plus the serial's bytes sum to a multiple of 256; otherwise byte 127 is 256 minus that sum modulo 256 |
| Edid.GetSerialOfGenerated | virtual-display-driver/src/edid.rs:28-50 | `get_edid_serial` of a generated block gives back the serial it was generated with |
| Edid.GeneratedAgreeOutsideSerial | virtual-display-driver/src/edid.rs:28-44 | two blocks generated from the same template differ at most in bytes 12..15 and 127 |
| Edid.ZeroSerialTemplateChecksum | virtual-display-driver/src/edid.rs:41-61 | for a template whose serial field is zero, generation fails exactly when the template's bytes 0..126 plus the serial's bytes sum to a multiple of 256 |
| Edid.GenerationFailsIff | virtual-display-driver/src/edid.rs:3-61 | with the driver's template, generation fails exactly for serials whose four bytes add up to 81 modulo 256; otherwise byte 127 is 256 - (175 + that sum) mod 256 |
| Edid.Serial81Fails | virtual-display-driver/src/edid.rs:61 | generation with serial 81 (0x51) hits the panic |
| Edid.Serial1Generates | virtual-display-driver/src/edid.rs:28-44 | serial 1 yields a block with bytes 12..15 = 01 00 00 00 and checksum byte 0x50 |
| EdidFindings.IntendedChecksumByte | virtual-display-driver/src/edid.rs:61 | the corrected checksum `(256 - sum % 256) % 256` always exists and always balances the sum to a multiple of 256 |
| EdidFindings.ChecksumAsWrittenVersusIntended | virtual-display-driver/src/edid.rs:61 | the checksum as written agrees with the corrected one wherever it exists, and fails exactly where the corrected one is 0 |
| EdidFindings.GenChecksumIntended | virtual-display-driver/src/edid.rs:52-65 | the corrected `gen_checksum` never fails: it changes only byte 127, and bytes 0..127 then sum to a multiple of 256 |
| EdidFindings.GenerateEdidWithIntended | virtual-display-driver/src/edid.rs:28-44 | the corrected `generate_edid_with` returns a fresh array holding the corrected block for every serial |
| EdidFindings.SerialSurvivesChecksumByte | virtual-display-driver/src/edid.rs:46-64 | storing any checksum byte into a block with a spliced serial leaves that serial readable by `get_edid_serial` |
| EdidFindings.GeneratedIntendedIsValid | virtual-display-driver/src/edid.rs:28-65 | for every serial the corrected block has 128 bytes, sums to a multiple of 256, and reads back as that serial; where the source succeeds it produces the same block |
| EdidFindings.Serial81IntendedChecksumIsZero | virtual-display-driver/src/edid.rs:61 | for serial 81, where the source panics, the corrected checksum byte is 0 |

## Left out

- The source reads and writes the header through `bytemuck` as the host's native memory
  image of a `#[repr(C)]` struct. The model fixes that image as little-endian, which is what
  the driver's Windows targets use; big-endian hosts are not modelled.
- The layout of `EdidBlob` has no padding (8 + 2 + 2 + 4 + 4 × 1 = 20 bytes with natural
  alignment). The model takes the 20-byte size as a constant.
- The meaning of the template's fields (timings, descriptors, the monitor name) is not
  modelled. The template is treated as 128 opaque bytes.
- Edid.GenChecksum: the source's `assert!(data.len() >= 128)` panics on a short buffer. The
  model makes that length a precondition rather than a failure outcome, because every caller
  passes a 128-byte block.
- Edid.GenChecksum: the panic of the `unwrap` on line 61 is modelled as the result `false`
  with the buffer left unchanged. Unwinding and process abort are not modelled.
- Edid.GetEdidSerial: the source panics when the slice is shorter than 20 bytes. The model
  makes that length a precondition.
- Edid.Decode: the source only ever reads exactly 20 bytes into the record, so the model
  requires a 20-byte input.
- The `u32` accumulator on line 60 is not modelled with wrap-around. A 127-byte slice sums to
  at most 127 × 255, so it cannot overflow.
- `Vec`, iterators and `chain`/`collect` are modelled as sequence concatenation copied into a
  fresh array. Aliasing between the caller's buffer and other data is not modelled.
- How the driver stores and uses the generated blocks (monitor arrival, IPC, the settings
  file) is not part of this model.

## Findings

| source | as written | input that shows it | evidently intended | confidence | as-written member | corrected member |
|---|---|---|---|---|---|---|
| virtual-display-driver/src/edid.rs:61 | `u8::try_from(256 - (sum % 256)).unwrap()`: when the sum of bytes 0..126 is a multiple of 256 the value 256 does not fit in a `u8` and the call panics | `generate_edid_with(81)`: the template's bytes 0..126 add up to 175 modulo 256, and serial 81 adds 81, giving 256 | store 0 as the checksum, i.e. `(256 - sum % 256) % 256`, so that every serial yields a valid block | high; not executed | Edid.Serial81Fails | EdidFindings.GeneratedIntendedIsValid |
