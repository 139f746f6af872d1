/** The filter engine of the printer path: the values a filter object may hold,
    the attribute test of `filter.type`, the name patterns of `filter.printers`,
    the resolution of constant names, the inversion `keep` applies, and the two
    entry points `toss` and `keep`. */
module Filters {
  import opened Results
  import opened JsText
  import opened JsNumber
  import opened Flags
  import opened Drivers
  import opened Sieves

  /** A value stored under a filter key: a number (an int32, the only numbers `~`
      produces), a boolean, a string, `null`, or `undefined` under a key that is
      nevertheless present. */
  datatype FilterVal = Number(bits: bv32) | Bool(b: bool) | Text(s: string) | Null | Undefined

  /** The keys the printer path reads, `None` for a key the filter object lacks.
      Any other key is resolved like these and then ignored. */
  datatype Filter = Filter(printType: Option<FilterVal>, physical: Option<FilterVal>,
                           os: Option<FilterVal>, name: Option<FilterVal>)

  /** `filters[key] !== undefined`. */
  predicate Present(o: Option<FilterVal>) {
    o.Some? && !o.value.Undefined?
  }

  /** A list element, reduced to the two properties `toss` looks at; `None` is
      `undefined`. */
  datatype Record = Record(driver: Option<string>, vendor: Option<string>)

  datatype Error =
    | Unclassifiable    // `toss` cannot tell printers from USB devices
    | DriverMissing     // a pass reads the `driver` of a record that has none
    | WindowUndeclared  // ReferenceError: the global `window` does not exist
    | NotAFunction      // TypeError: `appVersion('Mac')` calls a string

  /** What the `os: true`/`os: false` branch can find out about its host. */
  datatype Host = NoWindow | NoNavigator | Browser(appVersion: string)

  // ----- attribute tests (`filter.type`) -----

  datatype AttrKey = TypeKey | PhysicalKey | OsKey

  /** An attribute of a table entry: a flag number, the `physical` boolean, or the
      fallback entry's `null` operating system. */
  datatype Attr = AFlag(bits: bv32) | ABool(b: bool) | ANull

  function Attribute(d: Driver, key: AttrKey): Attr {
    match key
    case TypeKey => AFlag(d.printType)
    case PhysicalKey => ABool(d.physical)
    case OsKey => if d.os.Some? then AFlag(d.os.value) else ANull
  }

  function BoolNumber(b: bool): int {
    if b then 1 else 0
  }

  /** The number a non-null attribute is compared as. */
  function AttrNumber(a: Attr): int
    requires !a.ANull?
  {
    match a
    case AFlag(x) => Signed(x)
    case ABool(b) => BoolNumber(b)
  }

  /** A value whose part in `==` and `&` the model determines: anything but a
      string with the shape of a numeral. */
  predicate Determined(v: FilterVal) {
    v.Text? ==> ToNumber(v.s) != Unmodelled
  }

  /** `attr == value`, JavaScript's loose equality: `null` equals only `null` and
      `undefined`; a boolean meets a boolean directly and anything else as 0 or 1;
      a string meets a number or boolean as its numeric conversion. */
  predicate LooseEq(a: Attr, v: FilterVal)
    requires Determined(v)
  {
    match v
    case Null => a.ANull?
    case Undefined => a.ANull?
    case Bool(q) => (a.ABool? && a.b == q) || (a.AFlag? && Signed(a.bits) == BoolNumber(q))
    case Number(x) => !a.ANull? && AttrNumber(a) == Signed(x)
    case Text(s) => !a.ANull? && ToNumber(s) == Zero && AttrNumber(a) == 0
  }

  /** The 32 bits an attribute contributes to `&`. */
  function AttrBits(a: Attr): bv32 {
    match a
    case AFlag(x) => x
    case ABool(b) => if b then 1 else 0
    case ANull => 0
  }

  /** The 32 bits a value contributes to `&`; NaN, `null` and `undefined` give 0. */
  function ValueBits(v: FilterVal): bv32
    requires Determined(v)
  {
    match v
    case Number(x) => x
    case Bool(q) => if q then 1 else 0
    case _ => 0
  }

  /** The removal test of `filter.type`: `attr == value || (attr & value) > 0`. */
  predicate Matches(a: Attr, v: FilterVal)
    requires Determined(v)
  {
    LooseEq(a, v) || PositiveInt32(AttrBits(a) & ValueBits(v))
  }

  // ----- name patterns (`new RegExp(filter.name)`) -----

  /** A pattern position: a literal character or `.`, any character but a line
      terminator. */
  datatype Atom = Char(c: char) | AnyChar

  /** The two regular-expression shapes the model covers: a plain search, and the
      negative-lookahead form `keep` builds, which matches the strings in which the
      inner pattern occurs nowhere. */
  datatype Pattern = Search(atoms: seq<Atom>) | Exclude(atoms: seq<Atom>)

  /** A pattern text whose only metacharacter is `.`. */
  predicate IsSimple(s: string) {
    forall i | 0 <= i < |s| :: s[i] == '.' || !IsRegexMeta(s[i])
  }

  function Atoms(s: string): (a: seq<Atom>)
    requires IsSimple(s)
    ensures |a| == |s|
    ensures forall i | 0 <= i < |s| :: a[i] == (if s[i] == '.' then AnyChar else Char(s[i]))
  {
    seq(|s|, i requires 0 <= i < |s| => if s[i] == '.' then AnyChar else Char(s[i]))
  }

  predicate AtomMatches(a: Atom, c: char) {
    match a
    case Char(x) => c == x
    case AnyChar => !IsLineTerminator(c)
  }

  /** The atoms match `d` at position `i`. */
  predicate MatchAt(atoms: seq<Atom>, d: string, i: int) {
    0 <= i && i + |atoms| <= |d| && forall k | 0 <= k < |atoms| :: AtomMatches(atoms[k], d[i + k])
  }

  /** `d.match(regex)` is non-null. A search succeeds at some position; the
      exclusion form `^((?!p).)*$` needs every position of `d` to refuse `p` and to
      hold a character `.` accepts. */
  predicate PatternHits(p: Pattern, d: string) {
    match p
    case Search(atoms) => exists i | 0 <= i <= |d| :: MatchAt(atoms, d, i)
    case Exclude(atoms) => forall i | 0 <= i < |d| :: !MatchAt(atoms, d, i) && !IsLineTerminator(d[i])
  }

  /** The pattern `keep` substitutes for a non-constant string. */
  function ExclusionPattern(s: string): string {
    "^((?!" + s + ").)*$"
  }

  /** `new RegExp(text)` for the two shapes covered; `None` for any other text. */
  function CompilePattern(text: string): (p: Option<Pattern>)
    ensures IsSimple(text) ==> p == Some(Search(Atoms(text)))
    ensures p.Some? && p.value.Search? ==> IsSimple(text)
  {
    if IsSimple(text) then Some(Search(Atoms(text)))
    else if |text| >= 10 && text[..5] == "^((?!" && text[|text| - 5..] == ").)*$"
            && IsSimple(text[5..|text| - 5])
    then Some(Exclude(Atoms(text[5..|text| - 5])))
    else None
  }

  /** The exclusion pattern of a simple text compiles back to that text's atoms. */
  lemma CompileExclusion(s: string)
    requires IsSimple(s)
    ensures CompilePattern(ExclusionPattern(s)) == Some(Exclude(Atoms(s)))
  {
    var e := ExclusionPattern(s);
    assert !IsSimple(e) by { assert e[0] == '^'; }
    assert e[..5] == "^((?!";
    assert e[|e| - 5..] == ").)*$";
    assert e[5..|e| - 5] == s;
  }

  /** A literal search matches exactly the drivers containing the text. */
  lemma SearchIsContainment(s: string, d: string)
    requires IsLiteral(s)
    ensures IsSimple(s)
    ensures PatternHits(Search(Atoms(s)), d) <==> Contains(d, s)
  {
    var atoms := Atoms(s);
    forall i | 0 <= i <= |d| ensures MatchAt(atoms, d, i) <==> OccursAt(d, s, i) {
      if MatchAt(atoms, d, i) {
        assert d[i..i + |s|] == s;
      }
      if OccursAt(d, s, i) {
        forall k | 0 <= k < |atoms| ensures AtomMatches(atoms[k], d[i + k]) {
          assert d[i..i + |s|][k] == d[i + k];
        }
      }
    }
  }

  /** `String(value)`, the text `new RegExp` receives. */
  function NameText(v: FilterVal): string {
    match v
    case Number(x) => NumberText(Signed(x))
    case Bool(q) => if q then "true" else "false"
    case Text(s) => s
    case Null => "null"
    case Undefined => "undefined"
  }

  /** The name of every value other than a string is a literal text. */
  lemma NameTextOfNonString(v: FilterVal)
    requires !v.Text?
    ensures IsLiteral(NameText(v)) && IsSimple(NameText(v))
  {
    assert IsLiteral(NameText(v));
    LiteralIsSimple(NameText(v));
  }

  /** A text without metacharacters is a simple pattern. */
  lemma LiteralIsSimple(s: string)
    requires IsLiteral(s)
    ensures IsSimple(s)
  {
  }

  // ----- resolution and inversion -----

  /** The first loop of `toss`: a string naming a constant becomes its flag. */
  function ResolveVal(v: FilterVal): FilterVal {
    if v.Text? && ParseConst(v.s).Some? then Number(ParseConst(v.s).value) else v
  }

  function ResolveKey(o: Option<FilterVal>): Option<FilterVal> {
    if o.Some? then Some(ResolveVal(o.value)) else None
  }

  /** What the resolution loop does to one key: a string naming a constant becomes
      that constant's flag; every other value, and an absent key, is left alone. */
  predicate ResolvedFrom(after: Option<FilterVal>, before: Option<FilterVal>) {
    if before.Some? && before.value.Text? && ParseConst(before.value.s).Some?
    then after == Some(Number(ParseConst(before.value.s).value))
    else after == before
  }

  function Resolve(f: Filter): (r: Filter)
    ensures forall v | v in [r.printType, r.physical, r.os, r.name] && v.Some? ::
              !(v.value.Text? && ParseConst(v.value.s).Some?)
    ensures ResolvedFrom(r.printType, f.printType) && ResolvedFrom(r.physical, f.physical)
    ensures ResolvedFrom(r.os, f.os) && ResolvedFrom(r.name, f.name)
  {
    Filter(ResolveKey(f.printType), ResolveKey(f.physical), ResolveKey(f.os), ResolveKey(f.name))
  }

  /** Resolving twice is resolving once. */
  lemma ResolveIdempotent(f: Filter)
    ensures Resolve(Resolve(f)) == Resolve(f)
  {
  }

  /** The loop of `keep`: booleans are negated, a constant name becomes its
      complemented flag, any other string the exclusion pattern, and everything else
      (numbers, `null`, `undefined`) is complemented as an int32. */
  function InvertVal(v: FilterVal): FilterVal {
    match v
    case Bool(q) => Bool(!q)
    case Text(s) => if ParseConst(s).Some? then Number(!ParseConst(s).value) else Text(ExclusionPattern(s))
    case Number(x) => Number(!x)
    case Null => Number(!0)
    case Undefined => Number(!0)
  }

  function InvertKey(o: Option<FilterVal>): Option<FilterVal> {
    if o.Some? then Some(InvertVal(o.value)) else None
  }

  function InvertFilter(f: Filter): Filter {
    Filter(InvertKey(f.printType), InvertKey(f.physical), InvertKey(f.os), InvertKey(f.name))
  }

  /** Every key present in the filter is present, and not `undefined`, after
      inversion; an absent key stays absent. */
  lemma InvertPresence(o: Option<FilterVal>)
    ensures Present(InvertKey(o)) <==> o.Some?
  {
  }

  /** An exclusion pattern names no constant: it is longer than every constant name. */
  lemma ExclusionIsNoConstant(s: string)
    ensures ParseConst(ExclusionPattern(s)) == None
  {
    var u := Upper(ExclusionPattern(s));
    assert |u| >= 10;
    assert u !in TypeFlags.Keys + OsFlags.Keys by {
      assert |"PIXEL"| < 10 && |"RAW"| < 10 && |"BOTH"| < 10;
      assert |"MAC"| < 10 && |"LINUX"| < 10 && |"WINDOWS"| < 10;
    }
  }

  /** An exclusion pattern converts to NaN. */
  lemma ExclusionIsNaN(s: string)
    ensures ToNumber(ExclusionPattern(s)) == NaN
  {
    var e := ExclusionPattern(s);
    assert e[0] == '^' && e[|e| - 1] == '$';
    NonNumeralIsNaN(e);
  }

  // ----- the operating-system branch -----

  /** The operating system bit a browser's `navigator.appVersion` reveals. */
  function HostOs(appVersion: string): (o: bv32)
    ensures IsSingleBit(o)
  {
    if IndexOf(appVersion, "Mac") != -1 then MAC
    else if IndexOf(appVersion, "Linux") != -1 || IndexOf(appVersion, "X11") != -1 then LINUX
    else WINDOWS
  }

  /** `Mac` anywhere in `appVersion` means a Mac; otherwise `Linux` or `X11` means
      Linux; anything else is taken for Windows. */
  lemma HostOsReads(appVersion: string)
    ensures HostOs(appVersion) == MAC <==> Contains(appVersion, "Mac")
    ensures HostOs(appVersion) == LINUX <==> (!Contains(appVersion, "Mac")
                             && (Contains(appVersion, "Linux") || Contains(appVersion, "X11")))
    ensures HostOs(appVersion) == WINDOWS <==> (!Contains(appVersion, "Mac") && !Contains(appVersion, "Linux")
                             && !Contains(appVersion, "X11"))
  {
  }

  /** The boolean `os` branch as written: without a global `window` the
      `typeof window.navigator` test throws, in a browser the call
      `appVersion('Mac')` throws, and only a `window` without `navigator` gets as
      far as replacing the value by `null`. */
  function HostOsValueAsWritten(v: FilterVal, host: Host): (r: Result<FilterVal, Error>)
    ensures !v.Bool? ==> r == Success(v)
    ensures v.Bool? ==> (r.Failure? <==> !host.NoNavigator?)
    ensures v.Bool? && host.NoNavigator? ==> r == Success(Null)
  {
    if !v.Bool? then Success(v)
    else match host
      case NoWindow => Failure(WindowUndeclared)
      case NoNavigator => Success(Null)
      case Browser(_) => Failure(NotAFunction)
  }

  /** The boolean `os` branch as evidently intended: `true` stands for the host's
      operating system bit and `false` for its complement; a host that cannot be
      determined turns the value into `null`, as line 182 does. */
  function HostOsValue(v: FilterVal, host: Host): (r: FilterVal)
    ensures !v.Bool? ==> r == v
    ensures v.Bool? && host.Browser? ==> r.Number? && (r.bits == HostOs(host.appVersion) <==> v.b)
    ensures v.Bool? && host.Browser? && !v.b ==> r == Number(!HostOs(host.appVersion))
    ensures v.Bool? && !host.Browser? ==> r == Null
  {
    if !v.Bool? then v
    else match host
      case Browser(app) => if v.b then Number(HostOs(app)) else Number(!HostOs(app))
      case _ => Null
  }

  // ----- passes -----

  /** One removal loop of `filter.printers`. */
  datatype Pass = AttrPass(key: AttrKey, value: FilterVal) | NamePass(pattern: Pattern)

  predicate PassDetermined(p: Pass) {
    p.AttrPass? ==> Determined(p.value)
  }

  predicate AllDetermined(ps: seq<Pass>) {
    forall i | 0 <= i < |ps| :: PassDetermined(ps[i])
  }

  /** The pass removes the record whose driver string is `driverName`. */
  predicate Hits(p: Pass, driverName: string)
    requires PassDetermined(p)
  {
    match p
    case AttrPass(key, v) => Matches(Attribute(FindPrintDriver(driverName), key), v)
    case NamePass(pat) => PatternHits(pat, driverName)
  }

  predicate HitByAny(ps: seq<Pass>, driverName: string)
    requires AllDetermined(ps)
  {
    exists i | 0 <= i < |ps| :: Hits(ps[i], driverName)
  }

  /** A resolved filter the model can run: attribute values are determined and the
      name compiles to a covered pattern. */
  predicate Admissible(f: Filter) {
    && (Present(f.printType) ==> Determined(f.printType.value))
    && (Present(f.physical) ==> Determined(f.physical.value))
    && (Present(f.os) ==> Determined(f.os.value))
    && (Present(f.name) ==> CompilePattern(NameText(f.name.value)).Some?)
  }

  /** Whether `filter.printers` runs its `os` pass, as evidently intended: the key
      is present, and it is no boolean on a host whose operating system cannot be
      determined, since there the warning of line 181 announces that `os`
      filtering is disabled. */
  predicate OsPassRuns(f: Filter, host: Host) {
    Present(f.os) && (!f.os.value.Bool? || host.Browser?)
  }

  /** The passes `filter.printers` runs, in its order: `type`, `physical`, `os`,
      `name`, each only when its key is present (and, for `os`, when the pass is
      not disabled). */
  function Passes(f: Filter, host: Host): (ps: seq<Pass>)
    requires Admissible(f)
    ensures AllDetermined(ps)
    ensures |ps| == 0 <==> !Present(f.printType) && !Present(f.physical) && !OsPassRuns(f, host) && !Present(f.name)
  {
    var t := if Present(f.printType) then [AttrPass(TypeKey, f.printType.value)] else [];
    var ph := if Present(f.physical) then [AttrPass(PhysicalKey, f.physical.value)] else [];
    var o := if OsPassRuns(f, host) then [AttrPass(OsKey, HostOsValue(f.os.value, host))] else [];
    var n := if Present(f.name) then [NamePass(CompilePattern(NameText(f.name.value)).value)] else [];
    AllDeterminedConcat(t, ph);
    AllDeterminedConcat(t + ph, o);
    AllDeterminedConcat(t + ph + o, n);
    t + ph + o + n
  }

  function Ones(b: bool): nat {
    if b then 1 else 0
  }

  /** One pass per key that takes part, each testing that key's value: their
      number is the number of such keys, and each such key's pass is among them. */
  lemma PassesOnePerKey(f: Filter, host: Host)
    requires Admissible(f)
    ensures |Passes(f, host)|
            == Ones(Present(f.printType)) + Ones(Present(f.physical)) + Ones(OsPassRuns(f, host)) + Ones(Present(f.name))
    ensures Present(f.printType) ==> AttrPass(TypeKey, f.printType.value) in Passes(f, host)
    ensures Present(f.physical) ==> AttrPass(PhysicalKey, f.physical.value) in Passes(f, host)
    ensures OsPassRuns(f, host) ==> AttrPass(OsKey, HostOsValue(f.os.value, host)) in Passes(f, host)
    ensures Present(f.name) ==> NamePass(CompilePattern(NameText(f.name.value)).value) in Passes(f, host)
  {
  }

  lemma AllDeterminedConcat(a: seq<Pass>, b: seq<Pass>)
    requires AllDetermined(a) && AllDetermined(b)
    ensures AllDetermined(a + b)
  {
    forall i | 0 <= i < |a + b| ensures PassDetermined((a + b)[i]) {
      if i >= |a| {
        assert (a + b)[i] == b[i - |a|];
      }
    }
  }

  // ----- running passes over a list -----

  predicate AllHaveDrivers(list: seq<Record>) {
    forall x | x in list :: x.driver.Some?
  }

  /** The passes remove record `x`: it has a driver string and one of them hits it. */
  predicate Removed(ps: seq<Pass>, x: Record) {
    x.driver.Some? && AllDetermined(ps) && HitByAny(ps, x.driver.value)
  }

  function RemovedBy(ps: seq<Pass>): Record -> bool {
    x => Removed(ps, x)
  }

  /** A record is removed by a list of passes exactly when the first pass or one
      of the rest removes it. */
  lemma RemovedCons(ps: seq<Pass>, x: Record)
    requires ps != [] && AllDetermined(ps)
    ensures AllDetermined([ps[0]]) && AllDetermined(ps[1..])
    ensures Removed(ps, x) <==> Removed([ps[0]], x) || Removed(ps[1..], x)
  {
    if x.driver.Some? {
      var d := x.driver.value;
      if HitByAny(ps, d) {
        var i :| 0 <= i < |ps| && Hits(ps[i], d);
        if i > 0 {
          assert ps[1..][i - 1] == ps[i];
        }
      }
      if HitByAny([ps[0]], d) {
        assert [ps[0]][0] == ps[0];
        assert Hits(ps[0], d);
      }
      if HitByAny(ps[1..], d) {
        var i :| 0 <= i < |ps[1..]| && Hits(ps[1..][i], d);
        assert ps[1..][i] == ps[i + 1];
      }
    }
  }

  /** The passes run one after the other, each over what the previous one left,
      remove what the passes together remove. */
  function RunPasses(list: seq<Record>, ps: seq<Pass>): (r: seq<Record>)
    requires AllDetermined(ps)
    ensures r == Sieve(list, RemovedBy(ps))
    decreases |ps|
  {
    if ps == [] then
      SieveNothing(list, RemovedBy(ps));
      list
    else
      var first := Sieve(list, RemovedBy([ps[0]]));
      forall x | x in list ensures Either(RemovedBy([ps[0]]), RemovedBy(ps[1..]))(x) == RemovedBy(ps)(x) {
        RemovedCons(ps, x);
      }
      SieveSieve(list, RemovedBy([ps[0]]), RemovedBy(ps[1..]));
      SieveAgrees(list, Either(RemovedBy([ps[0]]), RemovedBy(ps[1..])), RemovedBy(ps));
      RunPasses(first, ps[1..])
  }

  /** A list of one pass hits what that pass hits. */
  lemma HitByOne(p: Pass, driverName: string)
    requires PassDetermined(p)
    ensures AllDetermined([p])
    ensures HitByAny([p], driverName) <==> Hits(p, driverName)
  {
    assert [p][0] == p;
  }

  /** Two lists of passes run together hit what either list hits. */
  lemma HitByConcat(a: seq<Pass>, b: seq<Pass>, driverName: string)
    requires AllDetermined(a) && AllDetermined(b)
    ensures AllDetermined(a + b)
    ensures HitByAny(a + b, driverName) <==> HitByAny(a, driverName) || HitByAny(b, driverName)
  {
    AllDeterminedConcat(a, b);
    if HitByAny(a, driverName) {
      var i :| 0 <= i < |a| && Hits(a[i], driverName);
      assert (a + b)[i] == a[i];
    }
    if HitByAny(b, driverName) {
      var i :| 0 <= i < |b| && Hits(b[i], driverName);
      assert (a + b)[|a| + i] == b[i];
    }
    if HitByAny(a + b, driverName) {
      var i :| 0 <= i < |a + b| && Hits((a + b)[i], driverName);
      if i < |a| {
        assert (a + b)[i] == a[i];
      } else {
        assert (a + b)[i] == b[i - |a|];
      }
    }
  }

  /** `filter.type(list, key, value)`: removes, scanning from the end, every record
      whose classified driver has `key` loosely equal to `value` or sharing a bit
      with it, and nothing else. */
  method FilterType(list: seq<Record>, key: AttrKey, value: FilterVal) returns (r: seq<Record>)
    requires AllHaveDrivers(list) && Determined(value)
    ensures r == Sieve(list, RemovedBy([AttrPass(key, value)]))
    ensures forall x | x in list ::
              x in r <==> !Matches(Attribute(FindPrintDriver(x.driver.value), key), value)
    ensures IsSubsequence(r, list)
  {
    var p := AttrPass(key, value);
    r := RemoveWhere(list, RemovedBy([p]));
    forall x | x in list ensures RemovedBy([p])(x) <==> Matches(Attribute(FindPrintDriver(x.driver.value), key), value) {
      HitByOne(p, x.driver.value);
    }
    SieveIsSubsequence(list, RemovedBy([p]));
  }

  /** The `name` loop of `filter.printers`: removes, scanning from the end, every
      record whose driver string the compiled pattern matches, and nothing else. */
  method FilterName(list: seq<Record>, pattern: Pattern) returns (r: seq<Record>)
    requires AllHaveDrivers(list)
    ensures r == Sieve(list, RemovedBy([NamePass(pattern)]))
    ensures forall x | x in list :: x in r <==> !PatternHits(pattern, x.driver.value)
    ensures IsSubsequence(r, list)
  {
    var p := NamePass(pattern);
    r := RemoveWhere(list, RemovedBy([p]));
    forall x | x in list ensures RemovedBy([p])(x) <==> PatternHits(pattern, x.driver.value) {
      HitByOne(p, x.driver.value);
    }
    SieveIsSubsequence(list, RemovedBy([p]));
  }

  // ----- entry points -----

  /** A non-empty list whose first element has a `driver`: the printer path. */
  predicate PrinterList(list: seq<Record>) {
    list != [] && list[0].driver.Some?
  }

  /** A non-empty list whose first element has no `driver` but a `vendor`. */
  predicate UsbList(list: seq<Record>) {
    list != [] && list[0].driver.None? && list[0].vendor.Some?
  }

  /** `toss(list, filters)`: the records of `list` that no present filter key
      matches. An empty list comes back as it is, a USB list (filtering there is a
      stub) unchanged, a list whose first element is neither printer nor USB device
      is an error, and so is a printer list with a driverless record once some pass
      has to read it. Running the passes one after the other removes what they
      remove together. */
  function Toss(list: seq<Record>, f: Filter, host: Host): (r: Result<seq<Record>, Error>)
    requires PrinterList(list) ==> Admissible(Resolve(f))
    ensures list == [] ==> r == Success(list)
    ensures UsbList(list) ==> r == Success(list)
    ensures r == Failure(Unclassifiable) <==> list != [] && list[0].driver.None? && list[0].vendor.None?
    ensures r == Failure(DriverMissing) <==>
              PrinterList(list) && |Passes(Resolve(f), host)| > 0 && !AllHaveDrivers(list)
    ensures r.Success? || r == Failure(Unclassifiable) || r == Failure(DriverMissing)
    ensures r.Success? ==> IsSubsequence(r.value, list)
    ensures r.Success? && PrinterList(list) ==>
              r.value == Sieve(list, RemovedBy(Passes(Resolve(f), host)))
    ensures r.Success? && PrinterList(list) ==>
              forall x | x in list :: x in r.value <==> !Removed(Passes(Resolve(f), host), x)
  {
    if list == [] then Success(list)
    else if list[0].driver.Some? then
      var ps := Passes(Resolve(f), host);
      SieveMembers(list, RemovedBy(ps));
      SieveIsSubsequence(list, RemovedBy(ps));
      if ps == [] then
        SieveNothing(list, RemovedBy(ps));
        Success(list)
      else if !AllHaveDrivers(list) then Failure(DriverMissing)
      else Success(RunPasses(list, ps))
    else if list[0].vendor.Some? then
      SubsequenceRefl(list);
      Success(list)
    else Failure(Unclassifiable)
  }

  /** What `keep` needs of its filter: a `name` string that is no constant must
      be a simple pattern, for its exclusion form to be covered. */
  predicate KeepAdmissible(f: Filter) {
    f.name.Some? && f.name.value.Text? && ParseConst(f.name.value.s).None? ==> IsSimple(f.name.value.s)
  }

  /** An inverted value, once resolved, is one the model determines. */
  lemma InvertedDetermined(v: FilterVal)
    ensures Determined(ResolveVal(InvertVal(v)))
  {
    if v.Text? && ParseConst(v.s).None? {
      ExclusionIsNoConstant(v.s);
      ExclusionIsNaN(v.s);
    }
  }

  /** An inverted `name`, once resolved, compiles to a covered pattern. */
  lemma InvertedNameCompiles(v: FilterVal)
    requires v.Text? && ParseConst(v.s).None? ==> IsSimple(v.s)
    ensures CompilePattern(NameText(ResolveVal(InvertVal(v)))).Some?
  {
    if v.Text? && ParseConst(v.s).None? {
      ExclusionIsNoConstant(v.s);
      CompileExclusion(v.s);
    } else {
      NameTextOfNonString(ResolveVal(InvertVal(v)));
    }
  }

  /** Every filter `keep` accepts inverts to one `toss` can run. */
  lemma KeepAdmissibleInverts(f: Filter)
    requires KeepAdmissible(f)
    ensures Admissible(Resolve(InvertFilter(f)))
  {
    if f.printType.Some? { InvertedDetermined(f.printType.value); }
    if f.physical.Some? { InvertedDetermined(f.physical.value); }
    if f.os.Some? { InvertedDetermined(f.os.value); }
    if f.name.Some? { InvertedNameCompiles(f.name.value); }
  }

  /** `keep(list, filters)`: `toss` with every present key inverted, so that the
      records kept are those the inverted keys do not match. */
  function Keep(list: seq<Record>, f: Filter, host: Host): (r: Result<seq<Record>, Error>)
    requires PrinterList(list) ==> KeepAdmissible(f)
    ensures list == [] ==> r == Success(list)
    ensures UsbList(list) ==> r == Success(list)
    ensures r == Failure(Unclassifiable) <==> list != [] && list[0].driver.None? && list[0].vendor.None?
    ensures r == Failure(DriverMissing) <==>
              PrinterList(list)
              && (f.printType.Some? || f.physical.Some? || (f.os.Some? && (!f.os.value.Bool? || host.Browser?))
                  || f.name.Some?)
              && !AllHaveDrivers(list)
    ensures r.Success? ==> IsSubsequence(r.value, list)
  {
    InvertPresence(f.printType);
    InvertPresence(f.physical);
    InvertPresence(f.os);
    InvertPresence(f.name);
    if PrinterList(list) then
      KeepAdmissibleInverts(f);
      Toss(list, InvertFilter(f), host)
    else
      Toss(list, InvertFilter(f), host)
  }
}
