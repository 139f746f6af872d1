# sift.js — classification and filtering core, modelled in Dafny

Sift is a small JavaScript helper that filters lists of locally attached hardware
(printers, USB devices) and decodes the raw report of a USB digital scale. This
project models its core and proves properties of the model:

- **Attribute flags** (`flags.dfy`): the `Types` (`PIXEL`, `RAW`, `BOTH`) and `OS`
  (`MAC`, `LINUX`, `WINDOWS`) namespaces, single bits 1/2/4 as 32-bit patterns,
  and `parseConst`, which resolves a filter string to a flag ignoring case and
  ignoring which key the value belongs to.
- **The driver table and the classifier** (`drivers.dfy`, `driver_cases.dfy`):
  the 31 `printDrivers` entries in source order, and `findPrintDriver`, which
  returns the first entry whose upper-cased name occurs in the upper-cased report
  and falls back to entry 0 (`UNKNOWN`, operating system `null`).
- **The filter engine** (`sieve.dfy`, `filters.dfy`, `filterlaws.dfy`): the
  values a filter object can hold (numbers, booleans, strings, `null`,
  `undefined`), JavaScript's loose `==` and `(attr & value) > 0` test of
  `filter.type`, the `name` key compiled to a regular expression (plain searches
  and the negative-lookahead form `keep` builds), the resolution loop of `toss`,
  the inversion loop of `keep`, the boolean `os` branch, routing on the first
  list element, and the errors `toss` can throw. Every removal loop of the source
  (scan from the end, splice) is one instance of a generic sieve, proved equal to
  the order-preserving filter of the list.
- **The scale decoder** (`scale.dfy`): the idle-frame guard, the status, unit
  and precision decoders and the little-endian weight field of `parse.scale`.

JavaScript semantics the model writes out: `toUpperCase` on ASCII, `indexOf`,
`String(n)`, `Number(s)` for blank and non-numeral strings, `~`, `&` and `^` on
32-bit two's-complement integers (`bv32`), the signed comparison `> 0`, and
`parseInt(s, 16)`. The host the boolean `os` branch inspects (`window`,
`window.navigator.appVersion`) is a parameter of type `Host`. Thrown exceptions
are `Failure` values of a `Result`.

The model follows the code, except at the four faults listed under "Findings":
there the code as written is modelled and exhibited by its own members, and the
rest of the model (`toss`, `keep` and the scale reading) runs the corrected
behaviour. Behaviours of the code that the model keeps as they are: the
classifier also tries entry 0 (harmless, since entry 0 is the fallback anyway); a
record without a `driver` string makes `findPrintDriver` throw instead of falling
back; `filter.usb` is a silent no-op rather than an error; the `os` key does not
split a list into `toss` and `keep` halves, because records of the fallback entry
survive both; and `parse.scale` has no `valid` flag and never produces a
formatted weight (see "Left out").

## Model

| member | source | states |
|---|---|---|
| `Flags.ParseConst` | sift.js:120-127 | a flag comes back exactly when the upper-cased string is a `Types` or `OS` name; a type name wins over an OS name; the result is a single bit |
| `Flags.ParseConstIgnoresCase` | sift.js:120-127 | strings that are equal up to case resolve to the same flag or both to `null` |
| `Flags.ParseConstIsKeyAgnostic` | sift.js:223-230 | `'pixel'` resolves to the `MAC` bit, `'Raw'` to `LINUX`, `'both'` to `WINDOWS`, and `'any'` to `null` |
| `Drivers.TableShape` | sift.js:57-107 | the table has 31 entries; every type is a single bit; only entry 0 has no operating system, and every other OS is a single bit |
| `Drivers.NameHitsIsContainment` | sift.js:132-133 | the equality test adds nothing: an entry is hit exactly when its upper-cased name is a substring of the upper-cased report |
| `Drivers.FindFrom` | sift.js:130-136 | the scan from position `i` returns the first hit at or after `i`, or 0 when nothing from `i` on is hit |
| `Drivers.FindIndex` | sift.js:129-139 | the entry returned is the lowest-index entry recognised in the report, or entry 0 when no entry is recognised |
| `Drivers.FindPrintDriver` | sift.js:129-139 | the entry returned has a single type bit and either a single OS bit or none |
| `Drivers.FindPrintDriverInTable` | sift.js:129-139 | the result is always a table entry, and its OS is `null` exactly when it is the fallback entry 0 |
| `Drivers.LinuxRawIsUnique` | sift.js:102-103 | the Linux `TEXTONLY.PPD` entry is the only Linux raw-only entry |
| `Drivers.LinuxTextOnlyIsShadowed` | sift.js:96-103 | the Linux `TEXTONLY.PPD` entry is never returned, because the Mac entry of the same name comes first |
| `DriverCases.FirstRecognised` | sift.js:129-139 | a report recognising entry `t` and no earlier entry classifies as `t` |
| `DriverCases.NoneRecognised` | sift.js:138 | a report recognising no entry classifies as entry 0 |
| `DriverCases.ZDesignerReport` | sift.js:90-93 | a report containing `ZDESIGNER` and none of the letters that rule out the earlier entries classifies as `ZDesigner` |
| `DriverCases.ClassifiesZDesigner` | tests/stepper.js:116 | `'ZDesigner LP 2844.ppd'` classifies as entry 25, the Windows dual-mode `ZDesigner` |
| `DriverCases.ClassifiesPdfWriter` | tests/stepper.js:115 | `'PDFwriter.ppd'` classifies as entry 1, the Mac PDF writer |
| `DriverCases.ClassifiesGenericTextOnly` | tests/stepper.js:117 | `'Generic / Text Only'` classifies as entry 24, the Windows raw-only printer |
| `DriverCases.PdfWriterIsVirtual` | sift.js:61 | the Mac PDF writer classifies as a file printer, not a physical one |
| `DriverCases.GenericTextOnlyIsPhysical` | sift.js:90 | the Windows text-only driver classifies as a physical printer |
| `DriverCases.ShortReportFallsBack` | sift.js:129-139 | a report shorter than the shortest table name falls back to entry 0, whose OS is `null` |
| `JsText.IndexOf` | sift.js:133 | `indexOf` gives the leftmost occurrence, and -1 exactly when there is none |
| `Sieves.SieveMembers` | sift.js:147-156 | a sieve keeps exactly the elements of the list its test does not pick out |
| `Sieves.SieveIsSubsequence` | sift.js:148-154 | what a removal loop keeps is an order-preserving subsequence of its input |
| `Sieves.RemoveWhere` | sift.js:148-154 | scanning from the end and splicing out picked records removes exactly the picked records and skips none |
| `Sieves.SieveSieve` | sift.js:159-195 | running two removal passes one after the other removes what either removes |
| `Sieves.SieveCount` | sift.js:251-270 | two sieves whose tests never both fire keep, between them, the list once plus what survives both |
| `Sieves.SievePartition` | sift.js:251-270 | two sieves with complementary tests split the list between them |
| `Filters.CompilePattern` | sift.js:189 | a text with `.` as its only metacharacter compiles to a search; a search only ever comes from such a text |
| `Filters.CompileExclusion` | sift.js:262 | the lookahead text `keep` builds from a simple pattern compiles to that pattern's exclusion form |
| `Filters.SearchIsContainment` | sift.js:189-191 | a search for a text without metacharacters matches exactly the drivers containing the text |
| `Filters.Resolve` | sift.js:223-230 | a string naming a constant becomes that constant's flag, every other value and every absent key is left alone, so no key holds a constant name afterwards |
| `Filters.ResolveIdempotent` | sift.js:223-230 | resolving an already resolved filter changes nothing |
| `Filters.InvertPresence` | sift.js:253-268 | every key given before inversion, even as `undefined`, holds a defined value after it, and an absent key stays absent |
| `Filters.ExclusionIsNoConstant` | sift.js:262 | the lookahead text `keep` builds never names a constant, so `toss` leaves it a pattern |
| `Filters.HostOsReads` | sift.js:169-175 | `Mac` anywhere in `appVersion` means Mac; otherwise `Linux` or `X11` means Linux; anything else is Windows |
| `Filters.HostOsValueAsWritten` | sift.js:162-182 | a boolean `os` throws without a global `window`, throws in every browser, and becomes `null` only where `navigator` is missing; other values pass through |
| `Filters.HostOsValue` | sift.js:162-182 | a boolean `os` stands for the host's OS bit (`true`) or exactly its bitwise complement (`false`), and for `null` when the host cannot be determined |
| `Filters.Passes` | sift.js:159-195 | the printer filter runs no pass exactly when no key takes part (the `os` key taking part unless it is a boolean on an undeterminable host); what the passes remove is stated by `FilterLaws.PrintersIsConjunction` |
| `Filters.PassesOnePerKey` | sift.js:159-195 | one pass per key that takes part: their number is the number of such keys, and each such key's test of its own value is among them |
| `Filters.RunPasses` | sift.js:159-195 | the passes run one after the other remove what the passes together remove |
| `Filters.FilterType` | sift.js:147-156 | `filter.type` keeps a record exactly when its classified attribute neither loosely equals the value nor shares a bit with it, in order |
| `Filters.FilterName` | sift.js:186-194 | the `name` loop keeps a record exactly when the compiled pattern does not match its driver string, in order |
| `Filters.Toss` | sift.js:219-241 | an empty list and a USB list come back unchanged; a first element with neither `driver` nor `vendor` throws; a driverless record throws once a pass reads it; otherwise the result keeps exactly the unmatched records, in order |
| `Filters.KeepAdmissibleInverts` | sift.js:253-268 | every filter `keep` accepts inverts to a filter `toss` can run |
| `Filters.Keep` | sift.js:251-271 | `keep` is `toss` on the inverted filter: the same routing and errors, with a driverless record an error whenever any key takes part (every given key, except a boolean `os` on an undeterminable host) |
| `FilterLaws.FlagMatch` | sift.js:152 | against a flag bit, a number matches exactly when it has that bit set |
| `FilterLaws.FlagComplement` | sift.js:152 | against a flag bit, a number's complement matches exactly when the number does not |
| `FilterLaws.NullAgainstFlag` | sift.js:152 | `null` matches no flag, and `~null` matches every flag |
| `FilterLaws.NullOsMatches` | sift.js:58 | the fallback entry's `null` OS matches `null` and `undefined` and nothing else |
| `FilterLaws.PhysicalBoolMatch` | sift.js:152 | for `physical`, a boolean matches exactly the entries with that value |
| `FilterLaws.PrintersIsConjunction` | sift.js:159-195 | the passes remove a record exactly when some present key matches it |
| `FilterLaws.TossIsConjunction` | sift.js:219-241 | `toss` on a printer list keeps exactly the records no present key matches |
| `FilterLaws.PassOrderIrrelevant` | sift.js:159-195 | running the same passes in another order gives the same list |
| `FilterLaws.LiteralNameIsContainment` | tests/stepper.js:162 | a `name` without metacharacters that names no constant removes exactly the drivers containing it, case-sensitively |
| `FilterLaws.TossPrinters` | sift.js:232-233 | over records that all have driver strings, `toss` succeeds with the sieve of its passes |
| `FilterLaws.TossIdempotent` | sift.js:219-241 | tossing the result again with the same filter changes nothing |
| `FilterLaws.TossCommutes` | sift.js:219-241 | tossing with one filter and then another equals tossing in the other order |
| `FilterLaws.FlagValueSplit` | sift.js:257-266 | against a flag bit, a number, `null`, `undefined` or constant name and its inversion match exactly one of the two |
| `FilterLaws.KeepTossCount` | sift.js:251-270 | when no record is matched by both a filter and its inversion, `toss` and `keep` hold the list once plus the records neither matches |
| `FilterLaws.KeepTossSplit` | sift.js:251-270 | when each record is matched by exactly one of a filter and its inversion, `toss` and `keep` split the list |
| `FilterLaws.TypePartition` | tests/stepper.js:130-143 | a `type` given as a number, `null`, `undefined` or constant name splits every printer list between `toss` and `keep` |
| `FilterLaws.PhysicalOnlyMatches` | sift.js:160 | a boolean `physical` removes exactly the records whose classified entry has that `physical` value |
| `FilterLaws.PhysicalPartition` | tests/stepper.js:123-127 | a boolean `physical` splits every printer list between `toss` and `keep` |
| `FilterLaws.TossVirtualPrinters` | tests/stepper.js:123 | tossing `physical: false` from a PDF writer and a text-only printer leaves the text-only printer alone |
| `FilterLaws.TossKeepsSecond` | sift.js:219-241 | over two printer records, a filter matching the first and not the second leaves the second alone |
| `FilterLaws.HostOsInverts` | sift.js:178 | in a browser, `os: false` stands for the complement of what `os: true` stands for |
| `FilterLaws.OsValueSplit` | sift.js:161-184 | against an OS bit, an `os` number, constant name, `undefined`, or browser boolean and its inversion match exactly one of the two |
| `FilterLaws.OsRecordSplit` | sift.js:161-184 | a record of a known OS is matched by exactly one of the `os` filter and its inversion, a fallback record by neither |
| `FilterLaws.OsUnknownSurvivesBoth` | tests/stepper.js:148-159 | records classified as `UNKNOWN` survive both `toss` and `keep` on such an `os` value |
| `FilterLaws.OsKeepTossCount` | sift.js:251-270 | on such an `os` value, `toss` and `keep` hold the list once and the `UNKNOWN` records a second time |
| `FilterLaws.OsNullRecordSplit` | sift.js:186 | `os: null` matches only the fallback entry and its inversion `~null` every other entry |
| `FilterLaws.OsNullPartition` | sift.js:186 | an `os: null` filter splits a printer list exactly between `toss` and `keep` |
| `FilterLaws.ExclusionIsNonSearch` | sift.js:262 | on a driver without line terminators, the lookahead form of a simple non-empty pattern matches exactly when the search does not |
| `FilterLaws.NameRecordSplit` | sift.js:186-194 | a non-empty simple `name` naming no constant and its lookahead form: exactly one matches each such driver |
| `FilterLaws.NamePartition` | tests/stepper.js:162-163 | such a `name` splits a printer list without line terminators between `toss` and `keep` |
| `FilterLaws.OsBranchThrowsInBrowser` | sift.js:170 | as written, `os: true` in a Mac browser throws; the corrected branch gives the Mac bit |
| `FilterLaws.OsBranchThrowsWithoutWindow` | sift.js:166 | as written, a boolean `os` without a global `window` throws; the corrected branch gives `null` |
| `FilterLaws.HostOsMatches` | sift.js:169-178 | corrected: against an entry's OS bit, `os: true` matches exactly the host's OS and `os: false` exactly the others |
| `FilterLaws.OsNullPassDropsUnknown` | sift.js:181-186 | as written, on a host without `navigator` a boolean `os` becomes `null` and the `os` pass still runs, tossing a lone printer of the fallback entry |
| `FilterLaws.UndeterminedOsIsNoOs` | sift.js:181-186 | corrected: a boolean `os` on a host that cannot be determined leaves `toss` exactly as if no `os` key were given |
| `FilterLaws.UndeterminedOsKeepsUnknown` | sift.js:181-186 | corrected: the lone printer of the fallback entry survives `toss` with `os: true` on a host without `navigator` |
| `Scale.ByteText` | sift.js:300 | a byte written as two upper-case hex digits reads back as that byte |
| `Scale.ByteTextInverts` | sift.js:300 | reading an upper-case byte text and writing it back gives the same text |
| `Scale.IdleIsZeroBytes` | sift.js:295-297 | a frame is passed over exactly when it is shorter than 4 bytes, or at least 8 bytes long with bytes 2 to 7 all `00`; a frame of 4 to 7 bytes never is |
| `Scale.StatusOf` | sift.js:300-305 | byte 1 is `Fault`, 2 `Stable (Zero)`, 3 `Busy`, 4 `Stable`, 5 `Underweight`, 6 `Overweight`, 7 `Calibrate`, 8 `Tare`, each exactly; `Unknown` exactly for byte 0 and bytes past the table |
| `Scale.StatusIsFaithful` | sift.js:301 | distinct status bytes within the table give distinct names |
| `Scale.PrecisionAsWritten` | sift.js:308-310 | as written, `raw ^ -256` with the zero fix gives 0 for byte 0 and `raw - 256` for every other byte |
| `Scale.PrecisionAsWrittenOverflows` | sift.js:309 | as written, byte `0x01` gives exponent -255 where the signed reading gives +1 |
| `Scale.Precision` | sift.js:309 | corrected: the exponent is the one value in [-128, 128) congruent to the byte modulo 256 |
| `Scale.PrecisionInverts` | sift.js:309 | the corrected reading inverts two's-complement encoding of every exponent in [-128, 128) |
| `Scale.PrecisionAgrees` | sift.js:309-310 | the corrected and as-written readings agree exactly for byte 0 and bytes 0x80 to 0xFF |
| `Scale.UnitsOf` | sift.js:313-327 | `g` exactly for 2, `kg` exactly for 3, `oz` exactly for 11, and `lbs` for every other unit byte |
| `Scale.ReversedJoinIsLittleEndian` | sift.js:330-331 | reversing the tail bytes and reading the joined digits as hex reads them least significant byte first |
| `Scale.WeightRaw` | sift.js:330-331 | the weight is the tail read little-endian, and `NaN` exactly when the frame has no tail |
| `Scale.Decode` | sift.js:282-331 | a passed-over frame gives the default reading; otherwise byte 1 gives the status, byte 2 the unit, byte 3 the exponent (a signed byte), and the tail from byte 4 the weight, read little-endian |
| `Scale.DecodeFrame` | sift.js:295-331 | a frame built from a status, a non-zero unit code, an exponent in [-128, 128) and weight bytes decodes back to exactly those values |
| `Scale.DecodeIgnoresFirstByte` | sift.js:295-331 | byte 0 of a frame plays no part in its reading |
| `Scale.DecodeStableGrams` | sift.js:295-331 | `["02","04","02","FE","64","00"]` reads as status `Stable`, unit `g`, exponent -2 and weight 100 |
| `Scale.DecodeZeroFrame` | sift.js:295-297 | a frame whose bytes 2 to 7 are `00` gives the default reading |

## Left out

- Filters.Toss: requires, on a printer list, that attribute values be no numeral-shaped strings and that `name` compile to a plain or lookahead pattern whose only metacharacter is `.`, because JavaScript's numeric string conversion and general `RegExp` matching are not modelled (an invalid pattern's `SyntaxError` included).
- Filters.Keep: requires, on a printer list, that a `name` string naming no constant have `.` as its only metacharacter, because `keep` wraps it in a lookahead and general `RegExp` matching is not modelled; every other value inverts to one the model covers (`Filters.KeepAdmissibleInverts`).
- Filters.Toss: runs the corrected boolean-`os` branch (`Filters.HostOsValue`), so it never reports the `ReferenceError` of line 166 or the `TypeError` of line 170; those throws are modelled by `Filters.HostOsValueAsWritten` (see "Findings"). On a host that cannot be determined it skips the `os` pass instead of running it with `null` (lines 181-186, see "Findings").
- Filters.Keep: runs the same corrected boolean-`os` branch as `Filters.Toss`, for the same reason.
- Filters.FilterType: requires every record to have a driver string and the value not to be a numeral-shaped string; the throwing case is modelled in `Filters.Toss`.
- Scale.Decode: requires every byte to be exactly two hexadecimal digits. The idle test (line 295) and the weight (lines 330-331) join the byte texts on the assumption that each is two digits long, and `parseInt(s, 16)` on other texts skips leading whitespace, an optional sign and an optional `0x` prefix, then reads the leading hex digits; frames of any other shape are not modelled.
- Scale.Decode: decodes the exponent with the corrected signed-byte reading `Scale.Precision`, not the `raw ^ -256` of lines 309-310 (see "Findings"); the as-written reading is `Scale.PrecisionAsWritten`.
- Scale.WeightRaw: computes the exact integer; JavaScript's `parseInt` rounds to a double once the tail exceeds six bytes.
- Scale.Decode: stops at `weight.raw`. Line 332 scales the default `0` instead of the raw weight, and line 333 calls `toFixed` on the `weight` object, which throws a `TypeError` for every frame that is not passed over; the formatted weight and `toString` (lines 288-290) involve floating point and are not modelled.
- FilterLaws.TypePartition: covers numbers, `null`, `undefined` and constant names. A boolean `type` and a non-constant string do not split a list: `true` loosely equals the type 1 entries while `false` matches no entry, and a non-numeral string converts to `NaN` on both sides.
- DriverCases: classification is proved for three concrete reports (`ZDesigner LP 2844.ppd`, `PDFwriter.ppd`, `Generic / Text Only`) and for all reports shorter than five characters; the general rule is `Drivers.FindIndex`.
- The absent-list case of `toss` (`!list`), records whose `driver` is not a string (only a missing `driver` is modelled), and list elements other than printer and USB records.
- USB filtering (`usbVendors`, `findUsbVendor`, `filter.usb`, lines 109-116, 141-143, 199-201): stubs with nothing to model beyond the no-op.
- MAC-address filtering: sift.js has no address branch; such lists take the unclassifiable path, which is modelled.
- The in-place mutation of the caller's filter object (lines 227, 256-266): filters are immutable values; reusing one object across calls is not modelled.
- Filter keys other than `type`, `physical`, `os` and `name`: resolved and then ignored by the printer path.
- The `console.warn` of the undeterminable-host branch, `debug` (lines 344-346), the `Object.defineProperties` plumbing and the module-export wrapper (lines 359-367).
- Upper-casing outside ASCII: `toUpperCase` is modelled on `a`-`z` only.
- UTF-16: strings are sequences of Unicode scalar values, whereas JavaScript strings are UTF-16 code units. For a character outside the Basic Multilingual Plane, `indexOf` positions differ and a `.` in a `name` pattern matches the whole character where JavaScript matches one surrogate; drivers and patterns in that range are not modelled faithfully.
- Numbers other than 32-bit integers as filter values: the only numbers the flags and `~` produce.

## Findings

| source | as written | input that shows it | evidently intended | confidence | as-written member | corrected member |
|---|---|---|---|---|---|---|
| sift.js:170 | `appVersion('Mac')` calls the `appVersion` string as a function, so every boolean `os` in a browser throws a `TypeError` | `toss(list, {os: true})` in a browser whose `appVersion` is `5.0 (Macintosh)` | `appVersion.indexOf('Mac')`, making `os: true` the Mac bit there | high, not executed | `FilterLaws.OsBranchThrowsInBrowser` | `FilterLaws.HostOsMatches` |
| sift.js:166 | `typeof(window.navigator)` throws a `ReferenceError` where no global `window` exists, before the warning path that sets `os` to `null` | `toss(list, {os: false})` outside a browser | test `window` before `window.navigator`, so that a host without a browser reaches the warning path and `os` becomes `null` | medium, not executed | `FilterLaws.OsBranchThrowsWithoutWindow` | `Filters.HostOsValue` |
| sift.js:181-186 | the warning says `os` filtering is disabled, but line 182 sets `os` to `null` and line 186 still runs the `os` pass, which removes every record of the fallback entry | `toss([{driver: 'xyz'}], {os: true})` on a host with `window` but no `navigator` returns `[]` | skip the `os` pass, so that the list is filtered as if `os` were not given | medium, not executed | `FilterLaws.OsNullPassDropsUnknown` | `FilterLaws.UndeterminedOsIsNoOs` |
| sift.js:309-310 | `raw ^ -256` turns every byte from `0x01` to `0x7F` into `raw - 256` | a frame with precision byte `01` (exponent +1) decodes to exponent -255 | the signed 8-bit reading the comment announces, giving +1 | medium, not executed | `Scale.PrecisionAsWrittenOverflows` | `Scale.Precision` |
