/** Laws of the filter engine: what a single key's test decides, the printer
    filter as the conjunction of its keys, the irrelevance of pass order, and the
    way `keep` and `toss` split a list between them. */
module FilterLaws {
  import opened Results
  import opened JsText
  import opened Flags
  import opened Drivers
  import opened Sieves
  import opened Filters
  import opened DriverCases

  // ----- single values against single attributes -----

  /** Against a flag bit, a number matches exactly when it has that bit set: loose
      equality adds nothing to the bit test. */
  lemma FlagMatch(t: bv32, b: bv32)
    requires IsSingleBit(t)
    ensures Matches(AFlag(t), Number(b)) <==> t & b != 0
  {
    SignedInjective(t, b);
    BitOfSingle(t, b);
  }

  /** Reading 32 bits as a signed integer loses nothing. */
  lemma SignedInjective(a: bv32, b: bv32)
    ensures Signed(a) == Signed(b) ==> a == b
  {
    if Signed(a) == Signed(b) {
      assert (a as int) as bv32 == a;
      assert (b as int) as bv32 == b;
    }
  }

  /** The bits a flag shares with any value are a non-negative int32, and a value
      equal to the flag shares it. */
  lemma BitOfSingle(t: bv32, b: bv32)
    requires IsSingleBit(t)
    ensures PositiveInt32(t & b) <==> t & b != 0
    ensures b == t ==> t & b != 0
  {
  }

  /** Against a flag bit, a number and its complement never match together and
      never both fail. */
  lemma FlagComplement(t: bv32, b: bv32)
    requires IsSingleBit(t)
    ensures Matches(AFlag(t), Number(!b)) <==> !Matches(AFlag(t), Number(b))
  {
    FlagMatch(t, b);
    FlagMatch(t, !b);
  }

  /** `null` matches no flag, and its complement `~null`, all bits set, matches
      every flag. */
  lemma NullAgainstFlag(t: bv32)
    requires IsSingleBit(t)
    ensures !Matches(AFlag(t), Null)
    ensures Matches(AFlag(t), Number(!0))
  {
    FlagMatch(t, !0);
  }

  /** The null operating system of the fallback entry matches `null` and
      `undefined` and no number at all. */
  lemma NullOsMatches(v: FilterVal)
    requires Determined(v)
    ensures Matches(ANull, v) <==> v.Null? || v.Undefined?
  {
  }

  /** For `physical`, a boolean value matches exactly the entries with that
      `physical` value: only the equality fires. */
  lemma PhysicalBoolMatch(b: bool, q: bool)
    ensures Matches(ABool(b), Bool(q)) <==> b == q
  {
  }

  // ----- the printer filter as a conjunction of its keys -----

  /** The removal test of a resolved filter, key by key: a record is removed when
      some present key matches its classified driver (`type`, `physical`, `os`) or
      its driver string (`name`). */
  predicate KeyMatches(f: Filter, host: Host, driverName: string)
    requires Admissible(f)
  {
    var e := FindPrintDriver(driverName);
    || (Present(f.printType) && Matches(Attribute(e, TypeKey), f.printType.value))
    || (Present(f.physical) && Matches(Attribute(e, PhysicalKey), f.physical.value))
    || (OsPassRuns(f, host) && Matches(Attribute(e, OsKey), HostOsValue(f.os.value, host)))
    || (Present(f.name) && PatternHits(CompilePattern(NameText(f.name.value)).value, driverName))
  }

  /** The passes of `filter.printers` together remove exactly the records some
      present key matches. */
  lemma PrintersIsConjunction(f: Filter, host: Host, x: Record)
    requires Admissible(f) && x.driver.Some?
    ensures Removed(Passes(f, host), x) <==> KeyMatches(f, host, x.driver.value)
  {
    var d := x.driver.value;
    var t := if Present(f.printType) then [AttrPass(TypeKey, f.printType.value)] else [];
    var ph := if Present(f.physical) then [AttrPass(PhysicalKey, f.physical.value)] else [];
    var o := if OsPassRuns(f, host) then [AttrPass(OsKey, HostOsValue(f.os.value, host))] else [];
    var n := if Present(f.name) then [NamePass(CompilePattern(NameText(f.name.value)).value)] else [];
    assert Passes(f, host) == t + ph + o + n;
    if Present(f.printType) { HitByOne(t[0], d); }
    if Present(f.physical) { HitByOne(ph[0], d); }
    if OsPassRuns(f, host) { HitByOne(o[0], d); }
    if Present(f.name) { HitByOne(n[0], d); }
    HitByConcat(t, ph, d);
    HitByConcat(t + ph, o, d);
    HitByConcat(t + ph + o, n, d);
  }

  /** `toss` on a printer list keeps exactly the records no present key matches. */
  lemma TossIsConjunction(list: seq<Record>, f: Filter, host: Host)
    requires PrinterList(list) && AllHaveDrivers(list) && Admissible(Resolve(f))
    ensures Toss(list, f, host).Success?
    ensures forall x | x in list ::
              x in Toss(list, f, host).value <==> !KeyMatches(Resolve(f), host, x.driver.value)
  {
    forall x | x in list
      ensures Removed(Passes(Resolve(f), host), x) <==> KeyMatches(Resolve(f), host, x.driver.value)
    {
      PrintersIsConjunction(Resolve(f), host, x);
    }
  }

  /** The order in which passes run does not matter, only which passes run. */
  lemma PassOrderIrrelevant(list: seq<Record>, ps: seq<Pass>, qs: seq<Pass>)
    requires AllDetermined(ps) && AllDetermined(qs)
    requires forall p :: p in ps <==> p in qs
    ensures RunPasses(list, ps) == RunPasses(list, qs)
  {
    forall x | x in list ensures RemovedBy(ps)(x) == RemovedBy(qs)(x) {
      if x.driver.Some? {
        var d := x.driver.value;
        if HitByAny(ps, d) {
          var i :| 0 <= i < |ps| && Hits(ps[i], d);
          assert ps[i] in qs;
        }
        if HitByAny(qs, d) {
          var i :| 0 <= i < |qs| && Hits(qs[i], d);
          assert qs[i] in ps;
        }
      }
    }
    SieveAgrees(list, RemovedBy(ps), RemovedBy(qs));
  }

  /** A `name` without metacharacters that names no constant removes exactly the
      records whose driver string contains it, case and all. */
  lemma LiteralNameIsContainment(s: string, driverName: string)
    requires IsLiteral(s) && ParseConst(s).None?
    ensures CompilePattern(NameText(ResolveVal(Text(s)))) == Some(Search(Atoms(s)))
    ensures PatternHits(Search(Atoms(s)), driverName) <==> Contains(driverName, s)
  {
    SearchIsContainment(s, driverName);
  }

  // ----- toss over a list whose records all have drivers -----

  /** Over a list whose records all have driver strings, `toss` succeeds with the
      sieve of its passes. */
  lemma TossPrinters(list: seq<Record>, f: Filter, host: Host)
    requires AllHaveDrivers(list) && Admissible(Resolve(f))
    ensures Toss(list, f, host) == Success(Sieve(list, RemovedBy(Passes(Resolve(f), host))))
  {
    if list != [] {
      assert list[0] in list;
    }
  }

  /** Tossing with the same filter twice is tossing once. */
  lemma TossIdempotent(list: seq<Record>, f: Filter, host: Host)
    requires PrinterList(list) && AllHaveDrivers(list) && Admissible(Resolve(f))
    ensures Toss(list, f, host).Success?
    ensures Toss(Toss(list, f, host).value, f, host) == Toss(list, f, host)
  {
    var removed := RemovedBy(Passes(Resolve(f), host));
    TossPrinters(list, f, host);
    SieveMembers(list, removed);
    TossPrinters(Sieve(list, removed), f, host);
    SieveTwice(list, removed);
  }

  /** Tossing with one filter and then another is tossing in the other order. */
  lemma TossCommutes(list: seq<Record>, f: Filter, g: Filter, host: Host)
    requires PrinterList(list) && AllHaveDrivers(list)
    requires Admissible(Resolve(f)) && Admissible(Resolve(g))
    ensures Toss(list, f, host).Success? && Toss(list, g, host).Success?
    ensures Toss(Toss(list, f, host).value, g, host) == Toss(Toss(list, g, host).value, f, host)
  {
    var rf := RemovedBy(Passes(Resolve(f), host));
    var rg := RemovedBy(Passes(Resolve(g), host));
    TossPrinters(list, f, host);
    TossPrinters(list, g, host);
    SieveMembers(list, rf);
    SieveMembers(list, rg);
    TossPrinters(Sieve(list, rf), g, host);
    TossPrinters(Sieve(list, rg), f, host);
    SieveSieve(list, rf, rg);
    SieveSieve(list, rg, rf);
    SieveAgrees(list, Either(rf, rg), Either(rg, rf));
  }

  // ----- keep against toss -----

  /** A value whose inversion is a complement against every flag bit: a number,
      `null`, `undefined`, or a string naming a constant. */
  predicate FlagPartitioning(v: FilterVal) {
    v.Number? || v.Null? || v.Undefined? || (v.Text? && ParseConst(v.s).Some?)
  }

  /** Against a flag bit, such a value as `toss` resolves it and its inversion as
      `keep` produces it match exactly one of the two. */
  lemma FlagValueSplit(v: FilterVal, t: bv32)
    requires FlagPartitioning(v) && IsSingleBit(t)
    ensures Determined(ResolveVal(v)) && !ResolveVal(InvertVal(v)).Text?
    ensures (!ResolveVal(v).Undefined? && Matches(AFlag(t), ResolveVal(v)))
            != Matches(AFlag(t), ResolveVal(InvertVal(v)))
  {
    if v.Text? {
      ConstantSplit(v.s, t);
    } else {
      FlagComplement(t, if v.Number? then v.bits else 0);
      NullAgainstFlag(t);
    }
  }

  /** A constant name resolves to its flag and inverts to the flag's complement. */
  lemma ConstantResolves(s: string)
    requires ParseConst(s).Some?
    ensures ResolveVal(Text(s)) == Number(ParseConst(s).value)
    ensures ResolveVal(InvertVal(Text(s))) == Number(!ParseConst(s).value)
  {
  }

  /** Against a flag bit, a constant name and its inversion match exactly one of
      the two. */
  lemma ConstantSplit(s: string, t: bv32)
    requires ParseConst(s).Some? && IsSingleBit(t)
    ensures ResolveVal(Text(s)).Number? && ResolveVal(InvertVal(Text(s))).Number?
    ensures Matches(AFlag(t), ResolveVal(Text(s))) != Matches(AFlag(t), ResolveVal(InvertVal(Text(s))))
  {
    ConstantResolves(s);
    FlagComplement(t, ParseConst(s).value);
  }

  /** The filter holding only `type`. */
  function TypeOnly(v: FilterVal): Filter {
    Filter(Some(v), None, None, None)
  }

  /** The filter holding only `physical`. */
  function PhysicalOnly(v: FilterVal): Filter {
    Filter(None, Some(v), None, None)
  }

  /** The filter holding only `os`. */
  function OsOnly(v: FilterVal): Filter {
    Filter(None, None, Some(v), None)
  }

  /** The filter holding only `name`. */
  function NameOnly(v: FilterVal): Filter {
    Filter(None, None, None, Some(v))
  }

  /** What `keep` and `toss` keep between them is the whole list plus the records
      that survive both, when no record is removed by both. */
  lemma KeepTossCount(list: seq<Record>, f: Filter, host: Host)
    requires PrinterList(list) && AllHaveDrivers(list)
    requires Admissible(Resolve(f)) && KeepAdmissible(f) && Admissible(Resolve(InvertFilter(f)))
    requires forall x | x in list :: !(KeyMatches(Resolve(f), host, x.driver.value)
                                        && KeyMatches(Resolve(InvertFilter(f)), host, x.driver.value))
    ensures Toss(list, f, host).Success? && Keep(list, f, host).Success?
    ensures multiset(Toss(list, f, host).value) + multiset(Keep(list, f, host).value)
            == multiset(list) + multiset(Sieve(list, Either(RemovedBy(Passes(Resolve(f), host)),
                                                             RemovedBy(Passes(Resolve(InvertFilter(f)), host)))))
  {
    var g := InvertFilter(f);
    TossPrinters(list, f, host);
    TossPrinters(list, g, host);
    assert Keep(list, f, host) == Toss(list, g, host);
    forall x | x in list
      ensures RemovedBy(Passes(Resolve(f), host))(x) == KeyMatches(Resolve(f), host, x.driver.value)
      ensures RemovedBy(Passes(Resolve(g), host))(x) == KeyMatches(Resolve(g), host, x.driver.value)
    {
      PrintersIsConjunction(Resolve(f), host, x);
      PrintersIsConjunction(Resolve(g), host, x);
    }
    SieveCount(list, RemovedBy(Passes(Resolve(f), host)), RemovedBy(Passes(Resolve(g), host)));
  }

  /** `keep` and `toss` split the list when, record by record, exactly one of the
      filter and its inversion matches. */
  lemma KeepTossSplit(list: seq<Record>, f: Filter, host: Host)
    requires PrinterList(list) && AllHaveDrivers(list)
    requires Admissible(Resolve(f)) && KeepAdmissible(f) && Admissible(Resolve(InvertFilter(f)))
    requires forall x | x in list :: KeyMatches(Resolve(f), host, x.driver.value)
                                     != KeyMatches(Resolve(InvertFilter(f)), host, x.driver.value)
    ensures Toss(list, f, host).Success? && Keep(list, f, host).Success?
    ensures multiset(Toss(list, f, host).value) + multiset(Keep(list, f, host).value) == multiset(list)
  {
    var g := InvertFilter(f);
    KeepTossCount(list, f, host);
    var both := Either(RemovedBy(Passes(Resolve(f), host)), RemovedBy(Passes(Resolve(g), host)));
    forall x | x in list ensures both(x) {
      PrintersIsConjunction(Resolve(f), host, x);
      PrintersIsConjunction(Resolve(g), host, x);
    }
    SieveEverything(list, both);
  }

  /** For one driver string, the `type` filter and its inversion: both runnable,
      and exactly one matches. */
  lemma TypeRecordSplit(v: FilterVal, host: Host, driverName: string)
    requires FlagPartitioning(v)
    ensures Admissible(Resolve(TypeOnly(v))) && Admissible(Resolve(InvertFilter(TypeOnly(v))))
    ensures KeyMatches(Resolve(TypeOnly(v)), host, driverName)
            != KeyMatches(Resolve(InvertFilter(TypeOnly(v))), host, driverName)
  {
    FlagValueSplit(v, FindPrintDriver(driverName).printType);
  }

  /** `type` given as a number, `null`, `undefined` or a constant name: every
      record lands in exactly one of `toss` and `keep`. */
  lemma TypePartition(list: seq<Record>, v: FilterVal, host: Host)
    requires PrinterList(list) && AllHaveDrivers(list) && FlagPartitioning(v)
    ensures Toss(list, TypeOnly(v), host).Success? && Keep(list, TypeOnly(v), host).Success?
    ensures multiset(Toss(list, TypeOnly(v), host).value) + multiset(Keep(list, TypeOnly(v), host).value)
            == multiset(list)
  {
    var f := TypeOnly(v);
    TypeRecordSplit(v, host, list[0].driver.value);
    forall x | x in list
      ensures KeyMatches(Resolve(f), host, x.driver.value) != KeyMatches(Resolve(InvertFilter(f)), host, x.driver.value)
    {
      TypeRecordSplit(v, host, x.driver.value);
    }
    KeepTossSplit(list, f, host);
  }

  /** For one driver string, the `physical` boolean and its negation: exactly one
      matches. */
  lemma PhysicalRecordSplit(q: bool, host: Host, driverName: string)
    ensures Admissible(Resolve(PhysicalOnly(Bool(q)))) && Admissible(Resolve(InvertFilter(PhysicalOnly(Bool(q)))))
    ensures KeyMatches(Resolve(PhysicalOnly(Bool(q))), host, driverName)
            != KeyMatches(Resolve(InvertFilter(PhysicalOnly(Bool(q)))), host, driverName)
  {
    assert InvertFilter(PhysicalOnly(Bool(q))) == PhysicalOnly(Bool(!q));
    PhysicalOnlyMatches(q, host, driverName);
    PhysicalOnlyMatches(!q, host, driverName);
  }

  /** `physical` given as a boolean: every record lands in exactly one of `toss`
      and `keep`. */
  lemma PhysicalPartition(list: seq<Record>, q: bool, host: Host)
    requires PrinterList(list) && AllHaveDrivers(list)
    ensures Toss(list, PhysicalOnly(Bool(q)), host).Success? && Keep(list, PhysicalOnly(Bool(q)), host).Success?
    ensures multiset(Toss(list, PhysicalOnly(Bool(q)), host).value)
            + multiset(Keep(list, PhysicalOnly(Bool(q)), host).value) == multiset(list)
  {
    var f := PhysicalOnly(Bool(q));
    PhysicalRecordSplit(q, host, list[0].driver.value);
    forall x | x in list
      ensures KeyMatches(Resolve(f), host, x.driver.value) != KeyMatches(Resolve(InvertFilter(f)), host, x.driver.value)
    {
      PhysicalRecordSplit(q, host, x.driver.value);
    }
    KeepTossSplit(list, f, host);
  }

  /** The filter holding only a boolean `physical` removes exactly the records
      whose classified driver has that `physical` value. */
  lemma PhysicalOnlyMatches(q: bool, host: Host, driverName: string)
    ensures Admissible(Resolve(PhysicalOnly(Bool(q))))
    ensures KeyMatches(Resolve(PhysicalOnly(Bool(q))), host, driverName)
            <==> FindPrintDriver(driverName).physical == q
  {
    PhysicalBoolMatch(FindPrintDriver(driverName).physical, q);
  }

  /** Of a Mac PDF writer and a Windows text-only printer, `toss` with
      `physical: false` keeps only the text-only printer. */
  lemma TossVirtualPrinters(host: Host)
    ensures Admissible(Resolve(PhysicalOnly(Bool(false))))
    ensures Toss([Record(Some("PDFwriter.ppd"), None), Record(Some("Generic / Text Only"), None)],
                 PhysicalOnly(Bool(false)), host)
            == Success([Record(Some("Generic / Text Only"), None)])
  {
    var a := Record(Some("PDFwriter.ppd"), None);
    var b := Record(Some("Generic / Text Only"), None);
    PdfWriterIsVirtual();
    GenericTextOnlyIsPhysical();
    PhysicalOnlyMatches(false, host, a.driver.value);
    PhysicalOnlyMatches(false, host, b.driver.value);
    TossKeepsSecond(a, b, PhysicalOnly(Bool(false)), host);
  }

  /** `toss` over two printer records keeps the second alone when the filter
      matches the first and not the second. */
  lemma TossKeepsSecond(a: Record, b: Record, f: Filter, host: Host)
    requires a.driver.Some? && b.driver.Some? && Admissible(Resolve(f))
    requires KeyMatches(Resolve(f), host, a.driver.value) && !KeyMatches(Resolve(f), host, b.driver.value)
    ensures Toss([a, b], f, host) == Success([b])
  {
    var list := [a, b];
    PrintersIsConjunction(Resolve(f), host, a);
    PrintersIsConjunction(Resolve(f), host, b);
    assert list[0] in list && list[1] in list;
    TossPrinters(list, f, host);
    var removed := RemovedBy(Passes(Resolve(f), host));
    assert removed(a) && !removed(b);
    assert list[1..] == [b] && [b][1..] == [];
    assert Sieve(list, removed) == [b];
  }

  // ----- the operating system key -----

  /** An `os` value that stands for a set of flag bits: a number, `undefined`, a
      constant name, or a boolean in a browser. */
  predicate OsFlagValue(v: FilterVal, host: Host) {
    (FlagPartitioning(v) && !v.Null?) || (v.Bool? && host.Browser?)
  }

  /** The record's driver classifies to an entry with an operating system. */
  predicate KnownOs(x: Record) {
    x.driver.Some? && FindPrintDriver(x.driver.value).os.Some?
  }

  /** The records of `list` whose driver classifies to the fallback entry. */
  function Unknowns(list: seq<Record>): seq<Record> {
    Sieve(list, KnownOs)
  }

  /** The `os` value a boolean stands for in a browser inverts to the complement. */
  lemma HostOsInverts(q: bool, app: string)
    ensures HostOsValue(Bool(!q), Browser(app)) == Number(!HostOsValue(Bool(q), Browser(app)).bits)
  {
    if q {
      FalseIsComplement(app);
    } else {
      TrueIsComplement(app);
    }
  }

  lemma FalseIsComplement(app: string)
    ensures HostOsValue(Bool(false), Browser(app)) == Number(!HostOsValue(Bool(true), Browser(app)).bits)
  {
  }

  lemma TrueIsComplement(app: string)
    ensures HostOsValue(Bool(true), Browser(app)) == Number(!HostOsValue(Bool(false), Browser(app)).bits)
  {
    ComplementTwice(HostOs(app));
  }

  lemma ComplementTwice(h: bv32)
    ensures !!h == h
  {
  }

  /** Against a flag bit, such an `os` value and its inversion match exactly one of
      the two. */
  lemma OsValueSplit(v: FilterVal, host: Host, o: bv32)
    requires OsFlagValue(v, host) && IsSingleBit(o)
    ensures Determined(ResolveVal(v)) && !ResolveVal(InvertVal(v)).Text?
    ensures (!ResolveVal(v).Undefined? && Matches(AFlag(o), HostOsValue(ResolveVal(v), host)))
            != Matches(AFlag(o), HostOsValue(ResolveVal(InvertVal(v)), host))
  {
    if v.Bool? {
      assert ResolveVal(v) == v && ResolveVal(InvertVal(v)) == Bool(!v.b);
      OsBoolSplit(v.b, host.appVersion, o);
    } else {
      OsFlagSplit(v, host, o);
    }
  }

  /** A browser boolean and its negation stand for complementary OS values. */
  lemma OsBoolSplit(q: bool, app: string, o: bv32)
    requires IsSingleBit(o)
    ensures Matches(AFlag(o), HostOsValue(Bool(q), Browser(app)))
            != Matches(AFlag(o), HostOsValue(Bool(!q), Browser(app)))
  {
    HostOsInverts(q, app);
    FlagComplement(o, HostOsValue(Bool(q), Browser(app)).bits);
  }

  /** A value that is no boolean reaches the `os` pass unchanged. */
  lemma OsFlagSplit(v: FilterVal, host: Host, o: bv32)
    requires FlagPartitioning(v) && !v.Null? && IsSingleBit(o)
    ensures Determined(ResolveVal(v)) && !ResolveVal(InvertVal(v)).Text?
    ensures (!ResolveVal(v).Undefined? && Matches(AFlag(o), HostOsValue(ResolveVal(v), host)))
            != Matches(AFlag(o), HostOsValue(ResolveVal(InvertVal(v)), host))
  {
    var r, i := ResolveVal(v), ResolveVal(InvertVal(v));
    assert HostOsValue(r, host) == r && HostOsValue(i, host) == i;
    FlagValueSplit(v, o);
  }

  /** For one driver string, the `os` filter and its inversion: a record of a
      known operating system is matched by exactly one, a record of the fallback
      entry by neither. */
  lemma OsRecordSplit(v: FilterVal, host: Host, driverName: string)
    requires OsFlagValue(v, host)
    ensures Admissible(Resolve(OsOnly(v))) && Admissible(Resolve(InvertFilter(OsOnly(v))))
    ensures FindPrintDriver(driverName).os.Some? ==>
              KeyMatches(Resolve(OsOnly(v)), host, driverName)
              != KeyMatches(Resolve(InvertFilter(OsOnly(v))), host, driverName)
    ensures FindPrintDriver(driverName).os.None? ==>
              !KeyMatches(Resolve(OsOnly(v)), host, driverName)
              && !KeyMatches(Resolve(InvertFilter(OsOnly(v))), host, driverName)
  {
    var e := FindPrintDriver(driverName);
    OsValueSplit(v, host, MAC);
    InvertedDetermined(v);
    OsOnlyMatches(v, host, driverName);
    OsOnlyMatches(InvertVal(v), host, driverName);
    if e.os.Some? {
      assert Attribute(e, OsKey) == AFlag(e.os.value);
      OsValueSplit(v, host, e.os.value);
    } else {
      assert Attribute(e, OsKey) == ANull;
      NullOsMatches(HostOsValue(ResolveVal(v), host));
      NullOsMatches(HostOsValue(ResolveVal(InvertVal(v)), host));
    }
  }

  /** The filter holding only `os` matches through its one key; inverting it
      inverts that key. */
  lemma OsOnlyMatches(v: FilterVal, host: Host, driverName: string)
    requires Determined(ResolveVal(v))
    ensures InvertFilter(OsOnly(v)) == OsOnly(InvertVal(v))
    ensures Admissible(Resolve(OsOnly(v)))
    ensures KeyMatches(Resolve(OsOnly(v)), host, driverName)
            <==> !ResolveVal(v).Undefined? && (!v.Bool? || host.Browser?)
                 && Matches(Attribute(FindPrintDriver(driverName), OsKey), HostOsValue(ResolveVal(v), host))
  {
    var f := Resolve(OsOnly(v));
    assert f.os == Some(ResolveVal(v)) && f.printType.None? && f.physical.None? && f.name.None?;
    assert OsPassRuns(f, host) <==> !ResolveVal(v).Undefined? && (!v.Bool? || host.Browser?);
  }

  /** Records whose driver classifies to the fallback entry, whose operating system
      is `null`, survive both `toss` and `keep` on such an `os` value. */
  lemma OsUnknownSurvivesBoth(list: seq<Record>, v: FilterVal, host: Host)
    requires PrinterList(list) && AllHaveDrivers(list) && OsFlagValue(v, host)
    ensures Toss(list, OsOnly(v), host).Success? && Keep(list, OsOnly(v), host).Success?
    ensures forall x | x in list && !KnownOs(x) ::
              x in Toss(list, OsOnly(v), host).value && x in Keep(list, OsOnly(v), host).value
  {
    var f := OsOnly(v);
    OsRecordSplit(v, host, list[0].driver.value);
    KeepAdmissibleInverts(f);
    TossIsConjunction(list, f, host);
    TossIsConjunction(list, InvertFilter(f), host);
    assert Keep(list, f, host) == Toss(list, InvertFilter(f), host);
    forall x | x in list && !KnownOs(x)
      ensures !KeyMatches(Resolve(f), host, x.driver.value)
      ensures !KeyMatches(Resolve(InvertFilter(f)), host, x.driver.value)
    {
      OsRecordSplit(v, host, x.driver.value);
    }
  }

  /** On such an `os` value, `toss` and `keep` split the records of known
      operating systems and both keep the rest: together they hold the list once
      and the fallback records a second time. */
  lemma OsKeepTossCount(list: seq<Record>, v: FilterVal, host: Host)
    requires PrinterList(list) && AllHaveDrivers(list) && OsFlagValue(v, host)
    ensures Toss(list, OsOnly(v), host).Success? && Keep(list, OsOnly(v), host).Success?
    ensures multiset(Toss(list, OsOnly(v), host).value) + multiset(Keep(list, OsOnly(v), host).value)
            == multiset(list) + multiset(Unknowns(list))
  {
    var f := OsOnly(v);
    var g := InvertFilter(f);
    OsRecordSplit(v, host, list[0].driver.value);
    forall x | x in list
      ensures !(KeyMatches(Resolve(f), host, x.driver.value) && KeyMatches(Resolve(g), host, x.driver.value))
      ensures Either(RemovedBy(Passes(Resolve(f), host)), RemovedBy(Passes(Resolve(g), host)))(x) == KnownOs(x)
    {
      OsRecordSplit(v, host, x.driver.value);
      PrintersIsConjunction(Resolve(f), host, x);
      PrintersIsConjunction(Resolve(g), host, x);
    }
    KeepTossCount(list, f, host);
    SieveAgrees(list, Either(RemovedBy(Passes(Resolve(f), host)), RemovedBy(Passes(Resolve(g), host))), KnownOs);
  }

  /** For one driver string, `os: null` and its inversion `~null`: `null` matches
      only the fallback entry and `~null` every other entry. */
  lemma OsNullRecordSplit(host: Host, driverName: string)
    ensures Admissible(Resolve(OsOnly(Null))) && Admissible(Resolve(InvertFilter(OsOnly(Null))))
    ensures KeyMatches(Resolve(OsOnly(Null)), host, driverName)
            != KeyMatches(Resolve(InvertFilter(OsOnly(Null))), host, driverName)
  {
    var e := FindPrintDriver(driverName);
    OsOnlyMatches(Null, host, driverName);
    OsOnlyMatches(Number(!0), host, driverName);
    if e.os.Some? {
      NullAgainstFlag(e.os.value);
    } else {
      NullOsMatches(Null);
      NullOsMatches(Number(!0));
    }
  }

  /** `os: null` splits the list exactly: `toss` removes the fallback records and
      `keep` the others. */
  lemma OsNullPartition(list: seq<Record>, host: Host)
    requires PrinterList(list) && AllHaveDrivers(list)
    ensures Toss(list, OsOnly(Null), host).Success? && Keep(list, OsOnly(Null), host).Success?
    ensures multiset(Toss(list, OsOnly(Null), host).value) + multiset(Keep(list, OsOnly(Null), host).value)
            == multiset(list)
  {
    var f := OsOnly(Null);
    OsNullRecordSplit(host, list[0].driver.value);
    forall x | x in list
      ensures KeyMatches(Resolve(f), host, x.driver.value) != KeyMatches(Resolve(InvertFilter(f)), host, x.driver.value)
    {
      OsNullRecordSplit(host, x.driver.value);
    }
    KeepTossSplit(list, f, host);
  }

  // ----- the name key -----

  predicate NoLineTerminator(d: string) {
    forall i | 0 <= i < |d| :: !IsLineTerminator(d[i])
  }

  /** On a driver string without line terminators, the exclusion form of a
      non-empty simple pattern matches exactly when the search does not. */
  lemma ExclusionIsNonSearch(s: string, driverName: string)
    requires IsSimple(s) && s != [] && NoLineTerminator(driverName)
    ensures PatternHits(Exclude(Atoms(s)), driverName) <==> !PatternHits(Search(Atoms(s)), driverName)
  {
    var atoms := Atoms(s);
    if PatternHits(Search(atoms), driverName) {
      var i :| 0 <= i <= |driverName| && MatchAt(atoms, driverName, i);
      assert i < |driverName|;
    }
  }

  /** For one driver string without line terminators, a non-empty simple `name`
      that names no constant, and its exclusion form: exactly one matches. */
  lemma NameRecordSplit(s: string, host: Host, driverName: string)
    requires IsSimple(s) && s != [] && ParseConst(s).None? && NoLineTerminator(driverName)
    ensures Admissible(Resolve(NameOnly(Text(s)))) && Admissible(Resolve(InvertFilter(NameOnly(Text(s)))))
    ensures KeyMatches(Resolve(NameOnly(Text(s))), host, driverName)
            != KeyMatches(Resolve(InvertFilter(NameOnly(Text(s)))), host, driverName)
  {
    ExclusionIsNoConstant(s);
    CompileExclusion(s);
    ExclusionIsNonSearch(s, driverName);
  }

  /** A non-empty simple `name` naming no constant, over drivers without line
      terminators: every record lands in exactly one of `toss` and `keep`. */
  lemma NamePartition(list: seq<Record>, s: string, host: Host)
    requires PrinterList(list) && AllHaveDrivers(list)
    requires IsSimple(s) && s != [] && ParseConst(s).None?
    requires forall x | x in list :: NoLineTerminator(x.driver.value)
    ensures Toss(list, NameOnly(Text(s)), host).Success? && Keep(list, NameOnly(Text(s)), host).Success?
    ensures multiset(Toss(list, NameOnly(Text(s)), host).value)
            + multiset(Keep(list, NameOnly(Text(s)), host).value) == multiset(list)
  {
    var f := NameOnly(Text(s));
    NameRecordSplit(s, host, list[0].driver.value);
    forall x | x in list
      ensures KeyMatches(Resolve(f), host, x.driver.value) != KeyMatches(Resolve(InvertFilter(f)), host, x.driver.value)
    {
      NameRecordSplit(s, host, x.driver.value);
    }
    KeepTossSplit(list, f, host);
  }

  // ----- the boolean os branch, as written and as intended -----

  /** As written, a boolean `os` in a browser always throws: `appVersion` is a
      string, and `appVersion('Mac')` calls it. On a Mac browser, where `true`
      evidently stands for the Mac bit, the corrected branch gives that bit. */
  lemma OsBranchThrowsInBrowser()
    ensures HostOsValueAsWritten(Bool(true), Browser("5.0 (Macintosh)")) == Failure(NotAFunction)
    ensures HostOsValue(Bool(true), Browser("5.0 (Macintosh)")) == Number(MAC)
  {
    assert OccursAt("5.0 (Macintosh)", "Mac", 5);
  }

  /** As written, a boolean `os` without a global `window` throws on
      `typeof(window.navigator)`, before the warning path that turns the value
      into `null` can be reached; the corrected branch reaches it. */
  lemma OsBranchThrowsWithoutWindow(q: bool)
    ensures HostOsValueAsWritten(Bool(q), NoWindow) == Failure(WindowUndeclared)
    ensures HostOsValue(Bool(q), NoWindow) == Null
  {
  }

  /** As written, a boolean `os` on a host without `navigator` warns that `os`
      filtering is disabled, yet leaves `null` behind for the `os` pass of line 186,
      which removes every record of the fallback entry: a lone `xyz` printer is
      tossed. */
  lemma OsNullPassDropsUnknown()
    ensures HostOsValueAsWritten(Bool(true), NoNavigator) == Success(Null)
    ensures Sieve([Record(Some("xyz"), None)], RemovedBy([AttrPass(OsKey, Null)])) == []
  {
    var x := Record(Some("xyz"), None);
    ShortReportFallsBack("xyz");
    NullOsMatches(Null);
    HitByOne(AttrPass(OsKey, Null), "xyz");
    assert RemovedBy([AttrPass(OsKey, Null)])(x);
    assert [x][1..] == [];
  }

  /** Corrected: a boolean `os` on a host that cannot be determined disables `os`
      filtering, so `toss` behaves as if the key were not given. */
  lemma UndeterminedOsIsNoOs(list: seq<Record>, f: Filter, host: Host)
    requires f.os.Some? && f.os.value.Bool? && !host.Browser?
    requires PrinterList(list) ==> Admissible(Resolve(f))
    ensures PrinterList(list) ==> Admissible(Resolve(f.(os := None)))
    ensures Toss(list, f, host) == Toss(list, f.(os := None), host)
  {
    var g := f.(os := None);
    if PrinterList(list) {
      assert Resolve(g) == Resolve(f).(os := None);
      assert Passes(Resolve(f), host) == Passes(Resolve(g), host);
    }
  }

  /** The lone `xyz` printer survives the corrected `toss` with `os: true` on a
      host without `navigator`. */
  lemma UndeterminedOsKeepsUnknown()
    ensures Toss([Record(Some("xyz"), None)], OsOnly(Bool(true)), NoNavigator)
            == Success([Record(Some("xyz"), None)])
  {
    var list := [Record(Some("xyz"), None)];
    UndeterminedOsIsNoOs(list, OsOnly(Bool(true)), NoNavigator);
    assert Passes(Resolve(Filter(None, None, None, None)), NoNavigator) == [];
  }

  /** The corrected branch: against the operating system of a table entry,
      `os: true` matches exactly the entries of the host's operating system and
      `os: false` exactly the others. */
  lemma HostOsMatches(q: bool, app: string, o: bv32)
    requires IsSingleBit(o)
    ensures Matches(AFlag(o), HostOsValue(Bool(q), Browser(app))) <==> (q <==> o == HostOs(app))
  {
    var h := HostOs(app);
    FlagMatch(o, h);
    FlagComplement(o, h);
    if q {
      assert HostOsValue(Bool(q), Browser(app)) == Number(h);
    } else {
      FalseIsComplement(app);
    }
    SingleBitsOverlap(o, h);
  }

  /** Two flag bits share a bit exactly when they are the same flag. */
  lemma SingleBitsOverlap(a: bv32, b: bv32)
    requires IsSingleBit(a) && IsSingleBit(b)
    ensures a & b != 0 <==> a == b
  {
  }
}
