/** Classification of particular driver reports against the table: each entry
    ahead of the answer is ruled out by a character of its name that the
    upper-cased report lacks. */
module DriverCases {
  import opened JsText
  import opened Drivers

  /** Entry `j` does not occur in the upper-cased report `u` when character `k` of
      its name, upper-cased to `c`, is absent from `u`. */
  lemma EntryLacking(u: string, j: nat, k: nat, c: char)
    requires j < |Table| && k < |Table[j].name|
    requires UpperChar(Table[j].name[k]) == c && c !in u
    ensures !Contains(u, Upper(Table[j].name))
  {
    MissingCharRulesOut(u, Upper(Table[j].name), k);
  }

  /** A report recognising entry `t` and none before it classifies as `t`. */
  lemma FirstRecognised(s: string, u: string, t: nat)
    requires Upper(s) == u && t < |Table|
    requires Contains(u, Upper(Table[t].name))
    requires forall j | 0 <= j < t :: !Contains(u, Upper(Table[j].name))
    ensures FindIndex(s) == t
  {
    assert Recognises(t, s);
  }

  /** A report recognising no entry classifies as the fallback. */
  lemma NoneRecognised(s: string, u: string)
    requires Upper(s) == u
    requires forall j | 0 <= j < |Table| :: !Contains(u, Upper(Table[j].name))
    ensures FindIndex(s) == 0
  {
    var k := FindIndex(s);
    assert !Recognises(k, s);
  }

  lemma Entry0Absent(u: string)
    requires 'U' !in u
    ensures !Contains(u, Upper(Table[0].name))
  {
    EntryLacking(u, 0, 0, 'U');
  }

  lemma Entry1Absent(u: string)
    requires 'F' !in u
    ensures !Contains(u, Upper(Table[1].name))
  {
    EntryLacking(u, 1, 2, 'F');
  }

  lemma Entry2Absent(u: string)
    requires 'V' !in u
    ensures !Contains(u, Upper(Table[2].name))
  {
    EntryLacking(u, 2, 0, 'V');
  }

  lemma Entry3Absent(u: string)
    requires 'C' !in u
    ensures !Contains(u, Upper(Table[3].name))
  {
    EntryLacking(u, 3, 2, 'C');
  }

  lemma Entry4Absent(u: string)
    requires 'C' !in u
    ensures !Contains(u, Upper(Table[4].name))
  {
    EntryLacking(u, 4, 0, 'C');
  }

  lemma Entry5Absent(u: string)
    requires 'B' !in u
    ensures !Contains(u, Upper(Table[5].name))
  {
    EntryLacking(u, 5, 2, 'B');
  }

  lemma Entry6Absent(u: string)
    requires 'B' !in u
    ensures !Contains(u, Upper(Table[6].name))
  {
    EntryLacking(u, 6, 2, 'B');
  }

  lemma Entry7Absent(u: string)
    requires 'B' !in u
    ensures !Contains(u, Upper(Table[7].name))
  {
    EntryLacking(u, 7, 2, 'B');
  }

  lemma Entry8Absent(u: string)
    requires 'M' !in u
    ensures !Contains(u, Upper(Table[8].name))
  {
    EntryLacking(u, 8, 0, 'M');
  }

  lemma Entry9Absent(u: string)
    requires 'M' !in u
    ensures !Contains(u, Upper(Table[9].name))
  {
    EntryLacking(u, 9, 0, 'M');
  }

  lemma Entry10Absent(u: string)
    requires 'T' !in u
    ensures !Contains(u, Upper(Table[10].name))
  {
    EntryLacking(u, 10, 5, 'T');
  }

  lemma Entry11Absent(u: string)
    requires 'F' !in u
    ensures !Contains(u, Upper(Table[11].name))
  {
    EntryLacking(u, 11, 2, 'F');
  }

  lemma Entry12Absent(u: string)
    requires 'M' !in u
    ensures !Contains(u, Upper(Table[12].name))
  {
    EntryLacking(u, 12, 3, 'M');
  }

  lemma Entry13Absent(u: string)
    requires 'C' !in u
    ensures !Contains(u, Upper(Table[13].name))
  {
    EntryLacking(u, 13, 0, 'C');
  }

  lemma Entry14Absent(u: string)
    requires 'B' !in u
    ensures !Contains(u, Upper(Table[14].name))
  {
    EntryLacking(u, 14, 0, 'B');
  }

  lemma Entry15Absent(u: string)
    requires 'A' !in u
    ensures !Contains(u, Upper(Table[15].name))
  {
    EntryLacking(u, 15, 0, 'A');
  }

  lemma Entry16Absent(u: string)
    requires 'O' !in u
    ensures !Contains(u, Upper(Table[16].name))
  {
    EntryLacking(u, 16, 1, 'O');
  }

  lemma Entry17Absent(u: string)
    requires 'O' !in u
    ensures !Contains(u, Upper(Table[17].name))
  {
    EntryLacking(u, 17, 1, 'O');
  }

  lemma Entry18Absent(u: string)
    requires 'O' !in u
    ensures !Contains(u, Upper(Table[18].name))
  {
    EntryLacking(u, 18, 0, 'O');
  }

  lemma Entry19Absent(u: string)
    requires 'F' !in u
    ensures !Contains(u, Upper(Table[19].name))
  {
    EntryLacking(u, 19, 2, 'F');
  }

  lemma Entry20Absent(u: string)
    requires 'O' !in u
    ensures !Contains(u, Upper(Table[20].name))
  {
    EntryLacking(u, 20, 1, 'O');
  }

  lemma Entry21Absent(u: string)
    requires 'M' !in u
    ensures !Contains(u, Upper(Table[21].name))
  {
    EntryLacking(u, 21, 1, 'M');
  }

  lemma Entry22Absent(u: string)
    requires 'C' !in u
    ensures !Contains(u, Upper(Table[22].name))
  {
    EntryLacking(u, 22, 0, 'C');
  }

  lemma Entry23Absent(u: string)
    requires 'M' !in u
    ensures !Contains(u, Upper(Table[23].name))
  {
    EntryLacking(u, 23, 1, 'M');
  }

  lemma Entry24Absent(u: string)
    requires 'C' !in u
    ensures !Contains(u, Upper(Table[24].name))
  {
    EntryLacking(u, 24, 6, 'C');
  }

  lemma Entries0To5Absent(u: string)
    requires 'C' !in u && 'F' !in u && 'U' !in u && 'V' !in u
    ensures forall j | 0 <= j < 5 :: !Contains(u, Upper(Table[j].name))
  {
    Entry0Absent(u); Entry1Absent(u); Entry2Absent(u); Entry3Absent(u); Entry4Absent(u);
  }

  lemma Entries5To10Absent(u: string)
    requires 'B' !in u && 'M' !in u
    ensures forall j | 5 <= j < 10 :: !Contains(u, Upper(Table[j].name))
  {
    Entry5Absent(u); Entry6Absent(u); Entry7Absent(u); Entry8Absent(u); Entry9Absent(u);
  }

  lemma Entries10To15Absent(u: string)
    requires 'B' !in u && 'C' !in u && 'F' !in u && 'M' !in u && 'T' !in u
    ensures forall j | 10 <= j < 15 :: !Contains(u, Upper(Table[j].name))
  {
    Entry10Absent(u); Entry11Absent(u); Entry12Absent(u); Entry13Absent(u); Entry14Absent(u);
  }

  lemma Entries15To20Absent(u: string)
    requires 'A' !in u && 'F' !in u && 'O' !in u
    ensures forall j | 15 <= j < 20 :: !Contains(u, Upper(Table[j].name))
  {
    Entry15Absent(u); Entry16Absent(u); Entry17Absent(u); Entry18Absent(u); Entry19Absent(u);
  }

  lemma Entries20To25Absent(u: string)
    requires 'C' !in u && 'M' !in u && 'O' !in u
    ensures forall j | 20 <= j < 25 :: !Contains(u, Upper(Table[j].name))
  {
    Entry20Absent(u); Entry21Absent(u); Entry22Absent(u); Entry23Absent(u); Entry24Absent(u);
  }

  /** A report lacking these characters recognises none of the entries ahead of
      `ZDesigner`. */
  lemma ZDesignerUnshadowed(u: string)
    requires 'A' !in u && 'B' !in u && 'C' !in u && 'F' !in u && 'M' !in u && 'O' !in u && 'T' !in u && 'U' !in u && 'V' !in u
    ensures forall j | 0 <= j < 25 :: !Contains(u, Upper(Table[j].name))
  {
    Entries0To5Absent(u); Entries5To10Absent(u); Entries10To15Absent(u); Entries15To20Absent(u); Entries20To25Absent(u);
  }


  /** A report containing `ZDESIGNER` (ignoring case) and lacking the letters that
      rule out every earlier entry classifies as entry 25, `ZDesigner`. */
  lemma ZDesignerReport(s: string)
    requires Contains(Upper(s), "ZDESIGNER")
    requires var u := Upper(s); 'A' !in u && 'B' !in u && 'C' !in u && 'F' !in u && 'M' !in u && 'O' !in u && 'T' !in u && 'U' !in u && 'V' !in u
    ensures FindIndex(s) == 25
  {
    ZDesignerUnshadowed(Upper(s));
    ZDesignerEntry();
    FirstRecognised(s, Upper(s), 25);
  }

  lemma ZDesignerEntry()
    ensures Upper(Table[25].name) == "ZDESIGNER"
  {
  }

  lemma ZebraReportUpper()
    ensures Upper("ZDesigner LP 2844.ppd") == "ZDESIGNER LP 2844.PPD"
  {
  }

  lemma ZebraReportOccurs()
    ensures OccursAt("ZDESIGNER LP 2844.PPD", "ZDESIGNER", 0)
  {
  }

  lemma ZebraReportLacks(c: char)
    requires c in "ABCFMOTUV"
    ensures c !in "ZDESIGNER LP 2844.PPD"
  {
  }

  /** `ZDesigner LP 2844.ppd` classifies as entry 25, `ZDesigner`: a Windows printer
      of both kinds. */
  lemma ClassifiesZDesigner()
    ensures FindIndex("ZDesigner LP 2844.ppd") == 25
  {
    ZebraReportUpper();
    ZebraReportOccurs();
    forall c | c in "ABCFMOTUV" ensures c !in "ZDESIGNER LP 2844.PPD" {
      ZebraReportLacks(c);
    }
    ZDesignerReport("ZDesigner LP 2844.ppd");
  }

  /** A report containing `PDFWRITER.PPD` (ignoring case) and no `U` classifies as
      entry 1, the Mac PDF writer. */
  lemma PdfWriterReport(s: string)
    requires Contains(Upper(s), "PDFWRITER.PPD") && 'U' !in Upper(s)
    ensures FindIndex(s) == 1
  {
    EntryLacking(Upper(s), 0, 0, 'U');
    PdfWriterEntry();
    FirstRecognised(s, Upper(s), 1);
  }

  lemma PdfWriterEntry()
    ensures Upper(Table[1].name) == "PDFWRITER.PPD"
  {
  }

  lemma PdfWriterUpper()
    ensures Upper("PDFwriter.ppd") == "PDFWRITER.PPD"
    ensures OccursAt("PDFWRITER.PPD", "PDFWRITER.PPD", 0)
    ensures 'U' !in "PDFWRITER.PPD"
  {
  }

  /** `PDFwriter.ppd` classifies as entry 1, a Mac file printer. */
  lemma ClassifiesPdfWriter()
    ensures FindIndex("PDFwriter.ppd") == 1
  {
    PdfWriterUpper();
    PdfWriterReport("PDFwriter.ppd");
  }

  /** A report shorter than every table name (the shortest, `doPDF`, has five
      characters) recognises nothing and falls back to entry 0, whose OS is null. */
  lemma ShortReportFallsBack(driverName: string)
    requires |driverName| < 5
    ensures FindPrintDriver(driverName) == Table[0]
    ensures FindPrintDriver(driverName).os.None?
  {
    forall j | 0 <= j < |Table| ensures !Recognises(j, driverName) {
      assert |Upper(Table[j].name)| >= 5;
    }
    NoneRecognised(driverName, Upper(driverName));
  }

  /** A report lacking `A`, `B`, `F`, `M`, `P`, `U` and `V` recognises none of the
      entries ahead of `Generic / Text Only`. */
  lemma GenericTextOnlyUnshadowed(u: string)
    requires 'A' !in u && 'B' !in u && 'F' !in u && 'M' !in u && 'P' !in u && 'U' !in u && 'V' !in u
    ensures forall j | 0 <= j < 24 :: !Contains(u, Upper(Table[j].name))
  {
    EntriesBeforeTwelveLack(u);
    EntriesFromTwelveLack(u);
  }

  lemma EntriesBeforeTwelveLack(u: string)
    requires 'B' !in u && 'F' !in u && 'M' !in u && 'P' !in u && 'U' !in u && 'V' !in u
    ensures forall j | 0 <= j < 12 :: !Contains(u, Upper(Table[j].name))
  {
    Entry0Absent(u); Entry1Absent(u); Entry2Absent(u); Entry3LacksP(u); Entry4LacksP(u);
    Entries5To10Absent(u); Entry10LacksM(u); Entry11Absent(u);
  }

  lemma EntriesFromTwelveLack(u: string)
    requires 'A' !in u && 'B' !in u && 'F' !in u && 'M' !in u && 'P' !in u
    ensures forall j | 12 <= j < 24 :: !Contains(u, Upper(Table[j].name))
  {
    Entries12To18Lack(u);
    Entries18To24Lack(u);
  }

  lemma Entries12To18Lack(u: string)
    requires 'A' !in u && 'B' !in u && 'M' !in u && 'P' !in u
    ensures forall j | 12 <= j < 18 :: !Contains(u, Upper(Table[j].name))
  {
    Entry12Absent(u); Entry13LacksP(u); Entry14Absent(u); Entry15Absent(u); Entry16LacksP(u);
    Entry17LacksP(u);
  }

  lemma Entries18To24Lack(u: string)
    requires 'F' !in u && 'M' !in u && 'P' !in u
    ensures forall j | 18 <= j < 24 :: !Contains(u, Upper(Table[j].name))
  {
    Entry18LacksP(u); Entry19Absent(u); Entry20LacksP(u); Entry21Absent(u); Entry22LacksP(u);
    Entry23Absent(u);
  }

  lemma Entry3LacksP(u: string)
    requires 'P' !in u
    ensures !Contains(u, Upper(Table[3].name))
  {
    EntryLacking(u, 3, 0, 'P');
  }

  lemma Entry4LacksP(u: string)
    requires 'P' !in u
    ensures !Contains(u, Upper(Table[4].name))
  {
    EntryLacking(u, 4, 2, 'P');
  }

  lemma Entry10LacksM(u: string)
    requires 'M' !in u
    ensures !Contains(u, Upper(Table[10].name))
  {
    EntryLacking(u, 10, 8, 'M');
  }

  lemma Entry13LacksP(u: string)
    requires 'P' !in u
    ensures !Contains(u, Upper(Table[13].name))
  {
    EntryLacking(u, 13, 4, 'P');
  }

  lemma Entry16LacksP(u: string)
    requires 'P' !in u
    ensures !Contains(u, Upper(Table[16].name))
  {
    EntryLacking(u, 16, 2, 'P');
  }

  lemma Entry17LacksP(u: string)
    requires 'P' !in u
    ensures !Contains(u, Upper(Table[17].name))
  {
    EntryLacking(u, 17, 4, 'P');
  }

  lemma Entry18LacksP(u: string)
    requires 'P' !in u
    ensures !Contains(u, Upper(Table[18].name))
  {
    EntryLacking(u, 18, 1, 'P');
  }

  lemma Entry20LacksP(u: string)
    requires 'P' !in u
    ensures !Contains(u, Upper(Table[20].name))
  {
    EntryLacking(u, 20, 3, 'P');
  }

  lemma Entry22LacksP(u: string)
    requires 'P' !in u
    ensures !Contains(u, Upper(Table[22].name))
  {
    EntryLacking(u, 22, 5, 'P');
  }

  lemma GenericTextOnlyReportUpper()
    ensures Upper("Generic / Text Only") == "GENERIC / TEXT ONLY"
  {
  }

  lemma GenericTextOnlyEntry()
    ensures Upper(Table[24].name) == "GENERIC / TEXT ONLY"
  {
  }

  lemma GenericTextOnlyLacks(c: char)
    requires c in "ABFMPUV"
    ensures c !in "GENERIC / TEXT ONLY"
  {
  }

  /** `Generic / Text Only` classifies as entry 24, the Windows raw-only printer. */
  lemma ClassifiesGenericTextOnly()
    ensures FindIndex("Generic / Text Only") == 24
  {
    GenericTextOnlyReportUpper();
    GenericTextOnlyEntry();
    forall c | c in "ABFMPUV" ensures c !in "GENERIC / TEXT ONLY" {
      GenericTextOnlyLacks(c);
    }
    assert OccursAt("GENERIC / TEXT ONLY", "GENERIC / TEXT ONLY", 0);
    GenericTextOnlyUnshadowed("GENERIC / TEXT ONLY");
    FirstRecognised("Generic / Text Only", "GENERIC / TEXT ONLY", 24);
  }

  /** The Mac PDF writer is a virtual (file) printer. */
  lemma PdfWriterIsVirtual()
    ensures !FindPrintDriver("PDFwriter.ppd").physical
  {
    ClassifiesPdfWriter();
    EntryPhysicality();
  }

  /** The Windows text-only driver is a physical printer. */
  lemma GenericTextOnlyIsPhysical()
    ensures FindPrintDriver("Generic / Text Only").physical
  {
    ClassifiesGenericTextOnly();
    EntryPhysicality();
  }

  lemma EntryPhysicality()
    ensures !Table[1].physical && Table[24].physical
  {
  }
}
