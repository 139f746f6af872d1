/** The printer driver table (`printDrivers`) and the classification of a reported
    driver string against it (`findPrintDriver`). */
module Drivers {
  import opened Results
  import opened JsText
  import opened Flags

  /** One table entry. `os` is `None` only for the fallback entry, whose operating
      system is JavaScript's `null`; `printType` is the `type` attribute. */
  datatype Driver = Driver(name: string, os: Option<bv32>, printType: bv32, physical: bool)

  /** The table in source order; order is precedence. Entry 0 is the fallback. */
  const Table: seq<Driver> := [
    Driver("UNKNOWN", None, PIXEL, true),
    // Mac file printers
    Driver("PDFwriter.PPD", Some(MAC), PIXEL, false),
    Driver("vipriser.PPD", Some(MAC), PIXEL, false),
    Driver("PSCOLOR.PPD", Some(MAC), PIXEL, false),
    // Linux file printers
    Driver("CUPS-PDF.PPD", Some(LINUX), PIXEL, false),
    Driver("Zebra-EPL1-Label.ppd", Some(LINUX), BOTH, true),
    Driver("Zebra-EPL2-Label.ppd", Some(LINUX), BOTH, true),
    Driver("Zebra-ZPL-Label.ppd", Some(LINUX), BOTH, true),
    // Windows file printers
    Driver("Microsoft XPS Document Writer", Some(WINDOWS), PIXEL, false),
    Driver("Microsoft Print To PDF", Some(WINDOWS), PIXEL, false),
    Driver("Send to Microsoft OneNote", Some(WINDOWS), PIXEL, false),
    Driver("PDFCreator", Some(WINDOWS), PIXEL, false),
    Driver("PrimoPDF", Some(WINDOWS), PIXEL, false),
    Driver("CutePDFWriter", Some(WINDOWS), PIXEL, false),
    Driver("Bullzip PDF", Some(WINDOWS), PIXEL, false),
    Driver("Adobe PDF", Some(WINDOWS), PIXEL, false),
    Driver("doPDF", Some(WINDOWS), PIXEL, false),
    Driver("novaPDF", Some(WINDOWS), PIXEL, false),
    Driver("OPTIsend", Some(WINDOWS), PIXEL, false),
    Driver("pdf995", Some(WINDOWS), PIXEL, false),
    Driver("docPrint PDF", Some(WINDOWS), PIXEL, false),
    Driver("EmfPrinter", Some(WINDOWS), PIXEL, false),
    Driver("ColorPlus", Some(WINDOWS), PIXEL, false),
    Driver("ImageRight", Some(WINDOWS), PIXEL, false),
    // Windows raw-only printers
    Driver("Generic / Text Only", Some(WINDOWS), RAW, true),
    // Windows dual-mode printers
    Driver("ZDesigner", Some(WINDOWS), BOTH, true),
    Driver("EPSON TM", Some(WINDOWS), BOTH, true),
    // Mac raw-only printers
    Driver("TEXTONLY.PPD", Some(MAC), RAW, true),
    // Mac dual-mode printers
    Driver("TM-T88V.PPD", Some(MAC), BOTH, true),
    // Linux raw-only printers
    Driver("TEXTONLY.PPD", Some(LINUX), RAW, true),
    // Linux dual-mode printers
    Driver("EPTMBATH.PPD", Some(LINUX), BOTH, true)
  ]

  /** Index of the Mac `TEXTONLY.PPD` entry and of the Linux one it shadows. */
  const MacTextOnly := 27
  const LinuxTextOnly := 29

  /** Every attribute is a single flag bit, and only the fallback has no OS. */
  lemma TableShape()
    ensures |Table| == 31
    ensures forall j | 0 <= j < |Table| :: IsSingleBit(Table[j].printType)
    ensures forall j | 0 <= j < |Table| :: Table[j].os.None? <==> j == 0
    ensures forall j | 0 <= j < |Table| && Table[j].os.Some? :: IsSingleBit(Table[j].os.value)
  {
  }

  /** The test `findPrintDriver` applies to entry `j` of `entries`: the
      upper-cased names are equal, or the entry's name occurs in the reported one. */
  predicate NameHits(entries: seq<Driver>, driverName: string, j: nat)
    requires j < |entries|
  {
    var entry := Upper(entries[j].name);
    var reported := Upper(driverName);
    entry == reported || IndexOf(reported, entry) > -1
  }

  /** Entry `j` of `entries` is recognised in `driverName`: its name is a
      substring of the reported one, ignoring case. */
  predicate Occurs(entries: seq<Driver>, j: nat, driverName: string)
    requires j < |entries|
  {
    Contains(Upper(driverName), Upper(entries[j].name))
  }

  /** Entry `j` of the table is recognised in `driverName`. */
  predicate Recognises(j: nat, driverName: string)
    requires j < |Table|
  {
    Occurs(Table, j, driverName)
  }

  /** The equality disjunct adds nothing to the substring test. */
  lemma NameHitsIsContainment(entries: seq<Driver>, driverName: string, j: nat)
    requires j < |entries|
    ensures NameHits(entries, driverName, j) <==> Occurs(entries, j, driverName)
  {
    var entry := Upper(entries[j].name);
    var reported := Upper(driverName);
    if entry == reported {
      assert OccursAt(reported, entry, 0);
    }
  }

  /** The loop of `findPrintDriver` over `entries` from position `i` on. */
  function FindFrom(entries: seq<Driver>, driverName: string, i: nat): (k: nat)
    requires 0 < |entries| && i <= |entries|
    ensures k < |entries|
    ensures || (i <= k && NameHits(entries, driverName, k) && forall j | i <= j < k :: !NameHits(entries, driverName, j))
            || (k == 0 && forall j | i <= j < |entries| :: !NameHits(entries, driverName, j))
    decreases |entries| - i
  {
    if i == |entries| then 0
    else if NameHits(entries, driverName, i) then i
    else FindFrom(entries, driverName, i + 1)
  }

  /** The position of the entry `findPrintDriver` returns: the first entry whose
      name occurs in the reported driver name ignoring case, or the fallback entry 0
      when there is none. */
  function FindIndex(driverName: string): (k: nat)
    ensures k < |Table|
    ensures || (Recognises(k, driverName) && forall j | 0 <= j < k :: !Recognises(j, driverName))
            || (k == 0 && forall j | 0 <= j < |Table| :: !Recognises(j, driverName))
  {
    var k := FindFrom(Table, driverName, 0);
    forall j | 0 <= j < |Table| ensures NameHits(Table, driverName, j) <==> Recognises(j, driverName) {
      NameHitsIsContainment(Table, driverName, j);
    }
    k
  }

  /** `findPrintDriver`: the entry at `FindIndex`, a single type bit and either a
      single operating-system bit or none. */
  function FindPrintDriver(driverName: string): (d: Driver)
    ensures IsSingleBit(d.printType)
    ensures d.os.None? || IsSingleBit(d.os.value)
  {
    TableShape();
    Table[FindIndex(driverName)]
  }

  /** The result is always an entry of the table, and it has no operating system
      exactly when it is the fallback entry. */
  lemma FindPrintDriverInTable(driverName: string)
    ensures FindPrintDriver(driverName) in Table
    ensures FindPrintDriver(driverName).os.None? <==> FindIndex(driverName) == 0
    ensures FindPrintDriver(driverName).os.None? <==> FindPrintDriver(driverName) == Table[0]
  {
    TableShape();
  }

  /** Only the Linux `TEXTONLY.PPD` entry is a Linux raw-only driver. */
  lemma LinuxRawIsUnique(j: nat)
    requires j < |Table| && Table[j].os == Some(LINUX) && Table[j].printType == RAW
    ensures j == LinuxTextOnly
  {
  }

  /** The Linux `TEXTONLY.PPD` entry is never returned: the Mac entry of the same
      name comes first and is recognised whenever it is. */
  lemma LinuxTextOnlyIsShadowed(driverName: string)
    ensures FindIndex(driverName) != LinuxTextOnly
    ensures FindPrintDriver(driverName) != Table[LinuxTextOnly]
  {
    var k := FindIndex(driverName);
    assert Table[MacTextOnly].name == Table[LinuxTextOnly].name;
    if k == LinuxTextOnly {
      assert Recognises(MacTextOnly, driverName);
      assert false;
    }
    if Table[k] == Table[LinuxTextOnly] {
      LinuxRawIsUnique(k);
    }
  }
}
