/** The constant EDID base block of the virtual monitor (`MONITOR_EDID`) and the facts
    about its bytes that the generator's behaviour depends on. */
module EdidTemplate {
  import opened Bytes

  /** The fixed EDID base block every generated block starts from: header pattern, vendor
      `0D 19`, serial number 0, week 0xFF, year 0x21, EDID version 1.3, then timings and the
      descriptors (among them the monitor name "VirtuDisplay+").  Its byte 127 is 0x00, which
      is not a balancing checksum.  It is written in parts of eight bytes so that proofs can
      evaluate it part by part. */
  const MonitorEdid: seq<Byte> :=
        EdidPart0 + EdidPart1 + EdidPart2 + EdidPart3
      + EdidPart4 + EdidPart5 + EdidPart6 + EdidPart7
      + EdidPart8 + EdidPart9 + EdidPart10 + EdidPart11
      + EdidPart12 + EdidPart13 + EdidPart14 + EdidPart15

  const EdidPart0: seq<Byte> := [0x00, 0xFF, 0xFF, 0xFF, 0xFF, 0xFF, 0xFF, 0x00]
  const EdidPart1: seq<Byte> := [0x0D, 0x19, 0x00, 0x00, 0x00, 0x00, 0x00, 0x00]
  const EdidPart2: seq<Byte> := [0xFF, 0x21, 0x01, 0x03, 0x80, 0x32, 0x1F, 0x78]
  const EdidPart3: seq<Byte> := [0x07, 0xEE, 0x95, 0xA3, 0x54, 0x4C, 0x99, 0x26]
  const EdidPart4: seq<Byte> := [0x0F, 0x50, 0x54, 0x00, 0x00, 0x00, 0x01, 0x01]
  const EdidPart5: seq<Byte> := [0x01, 0x01, 0x01, 0x01, 0x01, 0x01, 0x01, 0x01]
  const EdidPart6: seq<Byte> := [0x01, 0x01, 0x01, 0x01, 0x01, 0x01, 0x02, 0x3A]
  const EdidPart7: seq<Byte> := [0x80, 0x18, 0x71, 0x38, 0x2D, 0x40, 0x58, 0x2C]
  const EdidPart8: seq<Byte> := [0x45, 0x00, 0x00, 0x00, 0x00, 0x00, 0x00, 0x1E]
  const EdidPart9: seq<Byte> := [0x00, 0x00, 0x00, 0xFD, 0x00, 0x17, 0xF0, 0x0F]
  const EdidPart10: seq<Byte> := [0xFF, 0x0F, 0x00, 0x0A, 0x20, 0x20, 0x20, 0x20]
  const EdidPart11: seq<Byte> := [0x20, 0x20, 0x00, 0x00, 0x00, 0xFC, 0x00, 0x56]
  const EdidPart12: seq<Byte> := [0x69, 0x72, 0x74, 0x75, 0x44, 0x69, 0x73, 0x70]
  const EdidPart13: seq<Byte> := [0x6C, 0x61, 0x79, 0x2B, 0x00, 0x00, 0x00, 0x00]
  const EdidPart14: seq<Byte> := [0x00, 0x00, 0x00, 0x00, 0x00, 0x00, 0x00, 0x00]
  const EdidPart15: seq<Byte> := [0x00, 0x00, 0x00, 0x00, 0x00, 0x00, 0x00, 0x00]

  /** The template's serial number field (bytes 12..15) is zero and its byte 127 is 0x00. */
  lemma TemplateZeroFields()
    ensures MonitorEdid[12..16] == [0, 0, 0, 0]
    ensures MonitorEdid[127..128] == [0]
  {
  }

  /** The sums of the eight-byte parts, each stated of an `r` equal to the part so that it is
      evaluated from the part's elements rather than by unfolding `Sum` on the constant. */
  lemma EdidPart0Sum(r: seq<Byte>) requires r == EdidPart0 ensures Sum(r) == 1530 { SumOfEight(r); }
  lemma EdidPart1Sum(r: seq<Byte>) requires r == EdidPart1 ensures Sum(r) == 38 { SumOfEight(r); }
  lemma EdidPart2Sum(r: seq<Byte>) requires r == EdidPart2 ensures Sum(r) == 621 { SumOfEight(r); }
  lemma EdidPart3Sum(r: seq<Byte>) requires r == EdidPart3 ensures Sum(r) == 908 { SumOfEight(r); }
  lemma EdidPart4Sum(r: seq<Byte>) requires r == EdidPart4 ensures Sum(r) == 181 { SumOfEight(r); }
  lemma EdidPart5Sum(r: seq<Byte>) requires r == EdidPart5 ensures Sum(r) == 8 { SumOfEight(r); }
  lemma EdidPart6Sum(r: seq<Byte>) requires r == EdidPart6 ensures Sum(r) == 66 { SumOfEight(r); }
  lemma EdidPart7Sum(r: seq<Byte>) requires r == EdidPart7 ensures Sum(r) == 562 { SumOfEight(r); }
  lemma EdidPart8Sum(r: seq<Byte>) requires r == EdidPart8 ensures Sum(r) == 99 { SumOfEight(r); }
  lemma EdidPart9Sum(r: seq<Byte>) requires r == EdidPart9 ensures Sum(r) == 531 { SumOfEight(r); }
  lemma EdidPart10Sum(r: seq<Byte>) requires r == EdidPart10 ensures Sum(r) == 408 { SumOfEight(r); }
  lemma EdidPart11Sum(r: seq<Byte>) requires r == EdidPart11 ensures Sum(r) == 402 { SumOfEight(r); }
  lemma EdidPart12Sum(r: seq<Byte>) requires r == EdidPart12 ensures Sum(r) == 852 { SumOfEight(r); }
  lemma EdidPart13Sum(r: seq<Byte>) requires r == EdidPart13 ensures Sum(r) == 369 { SumOfEight(r); }
  lemma EdidPart14Sum(r: seq<Byte>) requires r == EdidPart14 ensures Sum(r) == 0 { SumOfEight(r); }
  lemma EdidPart15Sum(r: seq<Byte>) requires r == EdidPart15 ensures Sum(r) == 0 { SumOfEight(r); }

  /** The sums of the first 32, 64 and 96 template bytes, and of all 128: four parts at a
      time, each step building on the previous one. */
  lemma TemplateSum32()
    ensures Sum(EdidPart0 + EdidPart1 + EdidPart2 + EdidPart3) == 3097
  {
    ghost var p := EdidPart0;
    EdidPart0Sum(EdidPart0);
    EdidPart1Sum(EdidPart1); SumAppend(p, EdidPart1); p := p + EdidPart1;
    EdidPart2Sum(EdidPart2); SumAppend(p, EdidPart2); p := p + EdidPart2;
    EdidPart3Sum(EdidPart3); SumAppend(p, EdidPart3); p := p + EdidPart3;
  }

  lemma TemplateSum64()
    ensures Sum(EdidPart0 + EdidPart1 + EdidPart2 + EdidPart3 + EdidPart4 + EdidPart5 + EdidPart6 + EdidPart7) == 3914
  {
    TemplateSum32();
    ghost var p := EdidPart0 + EdidPart1 + EdidPart2 + EdidPart3;
    EdidPart4Sum(EdidPart4); SumAppend(p, EdidPart4); p := p + EdidPart4;
    EdidPart5Sum(EdidPart5); SumAppend(p, EdidPart5); p := p + EdidPart5;
    EdidPart6Sum(EdidPart6); SumAppend(p, EdidPart6); p := p + EdidPart6;
    EdidPart7Sum(EdidPart7); SumAppend(p, EdidPart7); p := p + EdidPart7;
  }

  lemma TemplateSum96()
    ensures Sum(EdidPart0 + EdidPart1 + EdidPart2 + EdidPart3 + EdidPart4 + EdidPart5 + EdidPart6 + EdidPart7 + EdidPart8 + EdidPart9 + EdidPart10 + EdidPart11) == 5354
  {
    TemplateSum64();
    ghost var p := EdidPart0 + EdidPart1 + EdidPart2 + EdidPart3 + EdidPart4 + EdidPart5 + EdidPart6 + EdidPart7;
    EdidPart8Sum(EdidPart8); SumAppend(p, EdidPart8); p := p + EdidPart8;
    EdidPart9Sum(EdidPart9); SumAppend(p, EdidPart9); p := p + EdidPart9;
    EdidPart10Sum(EdidPart10); SumAppend(p, EdidPart10); p := p + EdidPart10;
    EdidPart11Sum(EdidPart11); SumAppend(p, EdidPart11); p := p + EdidPart11;
  }

  lemma TemplateTotal()
    ensures Sum(MonitorEdid) == 6575
  {
    TemplateSum96();
    ghost var p := EdidPart0 + EdidPart1 + EdidPart2 + EdidPart3 + EdidPart4 + EdidPart5 + EdidPart6 + EdidPart7 + EdidPart8 + EdidPart9 + EdidPart10 + EdidPart11;
    EdidPart12Sum(EdidPart12); SumAppend(p, EdidPart12); p := p + EdidPart12;
    EdidPart13Sum(EdidPart13); SumAppend(p, EdidPart13); p := p + EdidPart13;
    EdidPart14Sum(EdidPart14); SumAppend(p, EdidPart14); p := p + EdidPart14;
    EdidPart15Sum(EdidPart15); SumAppend(p, EdidPart15); p := p + EdidPart15;
    assert p == MonitorEdid;
  }

  /** The template's bytes 0..126 add up to 6575 (175 modulo 256). */
  lemma TemplateSum()
    ensures Sum(MonitorEdid[..127]) == 6575
  {
    var t := MonitorEdid;
    TemplateTotal();
    TemplateZeroFields();
    assert t[0..128] == t;
    SumSlices(t, 0, 127, 128);
    assert Sum(t[127..128]) == Sum([0]) == 0;
  }
}
