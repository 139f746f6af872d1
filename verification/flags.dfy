/** The printer attribute flags (`Types` and `OS`) and the resolution of a filter
    string to one of them (`parseConst`). Each flag is a single bit so that a set
    of allowed values is their bitwise or, membership is a bitwise and, and "every
    value but these" is a bitwise complement; JavaScript performs `~`, `&` and `^`
    on 32-bit two's-complement integers, hence `bv32`. */
module Flags {
  import opened Results
  import opened JsText

  const PIXEL: bv32 := 1
  const RAW: bv32 := 2
  const BOTH: bv32 := 4

  const MAC: bv32 := 1
  const LINUX: bv32 := 2
  const WINDOWS: bv32 := 4

  /** The `Types` namespace, keyed by constant name. */
  const TypeFlags: map<string, bv32> := map["PIXEL" := PIXEL, "RAW" := RAW, "BOTH" := BOTH]

  /** The `OS` namespace, keyed by constant name. */
  const OsFlags: map<string, bv32> := map["MAC" := MAC, "LINUX" := LINUX, "WINDOWS" := WINDOWS]

  predicate IsSingleBit(x: bv32) {
    x == 1 || x == 2 || x == 4
  }

  /** `x > 0` where `x` is read as a signed 32-bit integer. */
  predicate PositiveInt32(x: bv32) {
    x != 0 && x < 0x8000_0000
  }

  /** `x` read as a signed 32-bit integer. */
  function Signed(x: bv32): int {
    if x < 0x8000_0000 then x as int else x as int - 0x1_0000_0000
  }

  /** `parseConst`: the flag named by `s`, ignoring case, looked up among the type
      names first and the operating-system names second; `None` (JavaScript's
      `null`) when `s` names neither. The key the value is meant for plays no part. */
  function ParseConst(s: string): (r: Option<bv32>)
    ensures r.Some? <==> Upper(s) in TypeFlags.Keys + OsFlags.Keys
    ensures r.Some? ==> IsSingleBit(r.value)
    ensures Upper(s) in TypeFlags ==> r == Some(TypeFlags[Upper(s)])
    ensures Upper(s) in OsFlags ==> r == Some(OsFlags[Upper(s)])
  {
    var upp := Upper(s);
    if upp in TypeFlags then Some(TypeFlags[upp])
    else if upp in OsFlags then Some(OsFlags[upp])
    else None
  }

  /** Two strings equal up to case resolve alike. */
  lemma ParseConstIgnoresCase(s: string, t: string)
    requires Upper(s) == Upper(t)
    ensures ParseConst(s) == ParseConst(t)
  {
  }

  /** The namespaces share bit values, so a type name given for the `os` key resolves
      to an operating system bit: `'pixel'` is the `MAC` bit and `'both'` the
      `WINDOWS` bit, and `'any'` is no constant at all. */
  lemma ParseConstIsKeyAgnostic()
    ensures ParseConst("pixel") == Some(MAC)
    ensures ParseConst("Raw") == Some(LINUX)
    ensures ParseConst("both") == Some(WINDOWS)
    ensures ParseConst("windows") == Some(WINDOWS)
    ensures ParseConst("any") == None
  {
    assert Upper("pixel") == "PIXEL";
    assert Upper("Raw") == "RAW";
    assert Upper("both") == "BOTH";
    assert Upper("windows") == "WINDOWS";
    assert Upper("any") == "ANY";
  }
}
