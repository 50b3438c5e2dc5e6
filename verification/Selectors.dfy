/** Device selectors (crates/plugkill-core/src/allowances.rs): how an
    identity is printed, and how a selector is read back. */
module Selectors {

  import opened Wrappers

  type U16 = n: nat | n < 0x1_0000
  type U32 = n: nat | n < 0x1_0000_0000

  /** A USB device, by vendor and product. */
  datatype UsbId = UsbId(vendor: string, product: string)

  /** A monitor, by what identifies it; its name is not part of that. */
  datatype MonitorId = MonitorId(mfg: string, product: U16, serial: Option<U32>)

  datatype DeviceRef =
    | Usb(id: UsbId)
    | Thunderbolt(uniqueId: string)
    | SdCard(serial: string)
    | Pci(selector: string)
    | Display(monitor: MonitorId)

  datatype ParseError =
    | NotASelector | NotVendorAndProduct | BadUsbId | BadPciSelector
    | BadManufacturer | BadProduct | BadSerial | TooManyFields
    | EventBus | NoIdentity | UnknownBus

  // ----- characters and numbers -----------------------------------------------------

  /** The value of a hex digit of either case, or 16. */
  function DigitValue(c: char): (v: nat)
    ensures v <= 16
  {
    if '0' <= c <= '9' then c as int - '0' as int
    else if 'a' <= c <= 'f' then c as int - 'a' as int + 10
    else if 'A' <= c <= 'F' then c as int - 'A' as int + 10
    else 16
  }

  function DigitChar(v: nat): (c: char)
    requires v < 16
    ensures DigitValue(c) == v && !('A' <= c <= 'Z')
  {
    if v < 10 then ('0' as int + v) as char else ('a' as int + (v - 10)) as char
  }

  predicate AllDigits(s: string, radix: nat) {
    forall i :: 0 <= i < |s| ==> DigitValue(s[i]) < radix
  }

  function Value(s: string, radix: nat): nat {
    if s == "" then 0 else Value(s[..|s| - 1], radix) * radix + DigitValue(s[|s| - 1])
  }

  /** `from_str_radix` on an unsigned type below `limit`: one leading plus sign is
      allowed, then at least one digit, and the value has to fit. */
  function ParseNumber(s: string, radix: nat, limit: nat): (r: Option<nat>)
    ensures r.Some? ==> r.value < limit
  {
    var digits := if s != "" && s[0] == '+' then s[1..] else s;
    if digits == "" || !AllDigits(digits, radix) || Value(digits, radix) >= limit then None
    else Some(Value(digits, radix))
  }

  /** `{:04x}` of a 16-bit number. */
  function PrintHex4(n: U16): string {
    [DigitChar(n / 16 / 16 / 16), DigitChar(n / 16 / 16 % 16), DigitChar(n / 16 % 16), DigitChar(n % 16)]
  }

  function PrintDecimal(n: nat): (s: string)
    ensures s != ""
  {
    if n < 10 then [DigitChar(n)] else PrintDecimal(n / 10) + [DigitChar(n % 10)]
  }

  lemma ValueOfLonger(s: string, c: char, radix: nat)
    ensures Value(s + [c], radix) == Value(s, radix) * radix + DigitValue(c)
  {
  }

  lemma ValueOfFour(a: char, b: char, c: char, d: char)
    ensures Value([a, b, c, d], 16)
            == ((DigitValue(a) * 16 + DigitValue(b)) * 16 + DigitValue(c)) * 16 + DigitValue(d)
  {
    ValueOfLonger("", a, 16);
    ValueOfLonger([a], b, 16);
    ValueOfLonger([a, b], c, 16);
    ValueOfLonger([a, b, c], d, 16);
    assert "" + [a] == [a] && [a] + [b] == [a, b] && [a, b] + [c] == [a, b, c] && [a, b, c] + [d] == [a, b, c, d];
  }

  lemma HexDigits(n: U16)
    ensures ((n / 16 / 16 / 16 * 16 + n / 16 / 16 % 16) * 16 + n / 16 % 16) * 16 + n % 16 == n
    ensures n / 16 / 16 / 16 < 16
  {
  }

  lemma PrintHex4Parses(n: U16)
    ensures ParseNumber(PrintHex4(n), 16, 0x1_0000) == Some(n)
  {
    var s := PrintHex4(n);
    ValueOfFour(s[0], s[1], s[2], s[3]);
    HexDigits(n);
    assert s == [s[0], s[1], s[2], s[3]];
  }

  lemma {:induction false} PrintDecimalParses(n: nat)
    ensures AllDigits(PrintDecimal(n), 10) && Value(PrintDecimal(n), 10) == n
  {
    if n >= 10 {
      PrintDecimalParses(n / 10);
      assert PrintDecimal(n)[..|PrintDecimal(n)| - 1] == PrintDecimal(n / 10);
    } else {
      assert PrintDecimal(n)[..0] == "";
    }
  }

  // ----- splitting ---------------------------------------------------------------------

  /** Where the first colon is, or the length when there is none. */
  function Colon(s: string): (i: nat)
    ensures i <= |s| && ':' !in s[..i] && (i < |s| ==> s[i] == ':')
  {
    if s == "" || s[0] == ':' then 0 else 1 + Colon(s[1..])
  }

  /** `split(':')`: the fields between colons, at least one. */
  function Fields(s: string): (f: seq<string>)
    ensures f != []
  {
    var i := Colon(s);
    if i == |s| then [s] else [s[..i]] + Fields(s[i + 1..])
  }

  lemma {:induction false} ColonAfter(a: string, b: string)
    requires ':' !in a
    ensures Colon(a + ":" + b) == |a|
    ensures (a + ":" + b)[..|a|] == a && (a + ":" + b)[|a| + 1..] == b
  {
    if a != "" {
      ColonAfter(a[1..], b);
      assert (a + ":" + b)[1..] == a[1..] + ":" + b;
    }
  }

  // ----- the printer ---------------------------------------------------------------------

  function PrintMonitor(m: MonitorId): string {
    match m.serial
    case Some(serial) => m.mfg + ":" + (PrintHex4(m.product) + ":" + PrintDecimal(serial))
    case None => m.mfg + ":" + PrintHex4(m.product)
  }

  function Print(d: DeviceRef): string {
    match d
    case Usb(id) => "usb" + ":" + (id.vendor + ":" + id.product)
    case Thunderbolt(uniqueId) => "thunderbolt" + ":" + uniqueId
    case SdCard(serial) => "sdcard" + ":" + serial
    case Pci(selector) => "pci" + ":" + selector
    case Display(monitor) => "display" + ":" + PrintMonitor(monitor)
  }

  // ----- the parser ------------------------------------------------------------------------

  /** A Linux PCI address, such as `0000:01:00.0`. */
  predicate IsPciSelector(s: string) {
    && |s| == 12 && s[4] == ':' && s[7] == ':' && s[10] == '.'
    && forall i :: i in [0, 1, 2, 3, 5, 6, 8, 9, 11] ==> DigitValue(s[i]) < 16
  }

  function LowerChar(c: char): char {
    if 'A' <= c <= 'Z' then (c as int + 32) as char else c
  }

  function Lower(s: string): (t: string)
    ensures |t| == |s| && forall i :: 0 <= i < |s| ==> t[i] == LowerChar(s[i])
  {
    seq(|s|, i requires 0 <= i < |s| => LowerChar(s[i]))
  }

  predicate IsUsbHex(part: string) {
    0 < |part| <= 4 && AllDigits(part, 16)
  }

  predicate IsManufacturer(s: string) {
    |s| == 3 && 'A' <= s[0] <= 'Z' && 'A' <= s[1] <= 'Z' && 'A' <= s[2] <= 'Z'
  }

  function ParseMonitor(rest: string): Result<MonitorId, ParseError> {
    ParseMonitorFields(Fields(rest))
  }

  function ParseMonitorFields(fields: seq<string>): Result<MonitorId, ParseError>
    requires fields != []
  {
    if !IsManufacturer(fields[0]) then Err(BadManufacturer)
    else if |fields| < 2 || ParseNumber(fields[1], 16, 0x1_0000).None? then Err(BadProduct)
    else if |fields| >= 3 && ParseNumber(fields[2], 10, 0x1_0000_0000).None? then Err(BadSerial)
    else if |fields| > 3 then Err(TooManyFields)
    else
      var product := ParseNumber(fields[1], 16, 0x1_0000).value;
      var serial := if |fields| == 3 then Some(ParseNumber(fields[2], 10, 0x1_0000_0000).value) else None;
      Ok(MonitorId(fields[0], product, serial))
  }

  function ParseUsb(rest: string): Result<DeviceRef, ParseError> {
    var i := Colon(rest);
    if i == |rest| then Err(NotVendorAndProduct)
    else if !IsUsbHex(rest[..i]) || !IsUsbHex(rest[i + 1..]) then Err(BadUsbId)
    else Ok(Usb(UsbId(Lower(rest[..i]), Lower(rest[i + 1..]))))
  }

  /** The identity behind a bus prefix. */
  function ParseOnBus(bus: string, rest: string): Result<DeviceRef, ParseError> {
    if bus == "usb" then ParseUsb(rest)
    else if bus == "thunderbolt" then (if rest == "" then Err(NoIdentity) else Ok(Thunderbolt(rest)))
    else if bus == "sdcard" then (if rest == "" then Err(NoIdentity) else Ok(SdCard(rest)))
    else if bus == "pci" then (if IsPciSelector(rest) then Ok(Pci(rest)) else Err(BadPciSelector))
    else if bus == "display" then
      (match ParseMonitor(rest)
       case Ok(monitor) => Ok(Display(monitor))
       case Err(error) => Err(error))
    else if bus == "power" || bus == "network" || bus == "lid" then Err(EventBus)
    else Err(UnknownBus)
  }

  /** The pci and display identities have colons of their own, so only the
      first one separates the bus. */
  function Parse(s: string): Result<DeviceRef, ParseError> {
    var i := Colon(s);
    if i == |s| then Err(NotASelector) else ParseOnBus(s[..i], s[i + 1..])
  }

  // ----- round trips -------------------------------------------------------------------------

  /** A USB id in the spelling the parser leaves alone. */
  predicate IsSysfsUsbId(s: string) {
    IsUsbHex(s) && Lower(s) == s
  }

  /** The identities the parser can give back. */
  predicate WellFormed(d: DeviceRef) {
    match d
    case Usb(id) => IsSysfsUsbId(id.vendor) && IsSysfsUsbId(id.product)
    case Thunderbolt(uniqueId) => uniqueId != ""
    case SdCard(serial) => serial != ""
    case Pci(selector) => IsPciSelector(selector)
    case Display(monitor) => IsManufacturer(monitor.mfg)
  }

  lemma UsbHexHasNoColon(s: string)
    requires IsUsbHex(s)
    ensures ':' !in s
  {
  }

  lemma LowerIsUsbHex(s: string)
    requires IsUsbHex(s)
    ensures IsSysfsUsbId(Lower(s))
  {
  }

  lemma UsbRoundTrip(vendor: string, product: string)
    ensures ParseUsb(vendor + ":" + product) == Ok(Usb(UsbId(vendor, product)))
            <==> IsSysfsUsbId(vendor) && IsSysfsUsbId(product)
  {
    var rest := vendor + ":" + product;
    if ':' !in vendor {
      ColonAfter(vendor, product);
    } else {
      var r := ParseUsb(rest);
      if r.Ok? {
        UsbHexHasNoColon(rest[..Colon(rest)]);
        LowerIsUsbHex(rest[..Colon(rest)]);
        UsbHexHasNoColon(r.value.id.vendor);
      }
    }
  }

  lemma FieldsOfOne(a: string)
    requires ':' !in a
    ensures Fields(a) == [a]
  {
  }

  lemma FieldsOfTwo(a: string, b: string)
    requires ':' !in a && ':' !in b
    ensures Fields(a + ":" + b) == [a, b]
  {
    ColonAfter(a, b);
    FieldsOfOne(b);
  }

  lemma FieldsOfThree(a: string, b: string, c: string)
    requires ':' !in a && ':' !in b && ':' !in c
    ensures Fields(a + ":" + (b + ":" + c)) == [a, b, c]
  {
    ColonAfter(a, b + ":" + c);
    FieldsOfTwo(b, c);
  }

  lemma NumberHasNoColon(s: string, radix: nat)
    requires radix <= 16 && AllDigits(s, radix)
    ensures ':' !in s
  {
  }

  lemma MonitorFields(m: MonitorId)
    requires ':' !in m.mfg
    ensures Fields(PrintMonitor(m))
            == if m.serial.Some? then [m.mfg, PrintHex4(m.product), PrintDecimal(m.serial.value)]
               else [m.mfg, PrintHex4(m.product)]
  {
    NumberHasNoColon(PrintHex4(m.product), 16);
    if m.serial.Some? {
      PrintDecimalParses(m.serial.value);
      NumberHasNoColon(PrintDecimal(m.serial.value), 10);
      FieldsOfThree(m.mfg, PrintHex4(m.product), PrintDecimal(m.serial.value));
    } else {
      FieldsOfTwo(m.mfg, PrintHex4(m.product));
    }
  }

  lemma FirstFieldHasNoColon(s: string)
    ensures ':' !in Fields(s)[0]
  {
  }

  lemma MonitorFieldsParse(m: MonitorId, fields: seq<string>)
    requires |fields| == (if m.serial.Some? then 3 else 2) && fields[0] == m.mfg
    requires ParseNumber(fields[1], 16, 0x1_0000) == Some(m.product)
    requires m.serial.Some? ==> ParseNumber(fields[2], 10, 0x1_0000_0000) == Some(m.serial.value)
    ensures ParseMonitorFields(fields) == if IsManufacturer(m.mfg) then Ok(m) else Err(BadManufacturer)
  {
  }

  lemma MonitorRoundTrip(m: MonitorId)
    ensures ParseMonitor(PrintMonitor(m)) == Ok(m) <==> IsManufacturer(m.mfg)
  {
    var fields := Fields(PrintMonitor(m));
    if ':' !in m.mfg {
      MonitorFields(m);
      PrintHex4Parses(m.product);
      if m.serial.Some? {
        DecimalSerialParses(m.serial.value);
      }
      MonitorFieldsParse(m, fields);
    } else {
      FirstFieldHasNoColon(PrintMonitor(m));
      assert fields[0] != m.mfg;
    }
  }

  lemma DecimalSerialParses(n: U32)
    ensures ParseNumber(PrintDecimal(n), 10, 0x1_0000_0000) == Some(n)
  {
    PrintDecimalParses(n);
  }

  lemma ParseAfterBus(bus: string, rest: string)
    requires ':' !in bus
    ensures Parse(bus + ":" + rest) == ParseOnBus(bus, rest)
  {
    ColonAfter(bus, rest);
  }

  lemma DisplaySelector(text: string, r: Result<MonitorId, ParseError>)
    requires r == ParseMonitor(text)
    ensures Parse("display" + ":" + text) == if r.Ok? then Ok(Display(r.value)) else Err(r.error)
  {
    ParseAfterBus("display", text);
  }

  lemma DisplayRoundTrip(monitor: MonitorId, text: string, parsed: Result<DeviceRef, ParseError>)
    requires text == PrintMonitor(monitor) && parsed == Parse("display" + ":" + text)
    ensures parsed == Ok(Display(monitor)) <==> IsManufacturer(monitor.mfg)
  {
    DisplaySelector(text, ParseMonitor(text));
    MonitorRoundTrip(monitor);
  }

  lemma UsbSelectorRoundTrip(vendor: string, product: string)
    ensures Parse(Print(Usb(UsbId(vendor, product)))) == Ok(Usb(UsbId(vendor, product)))
            <==> IsSysfsUsbId(vendor) && IsSysfsUsbId(product)
  {
    ParseAfterBus("usb", vendor + ":" + product);
    UsbRoundTrip(vendor, product);
  }

  /** The bus words, as printed and as read. */
  lemma ThunderboltWord(rest: string)
    ensures Print(Thunderbolt(rest)) == "thunderbolt" + ":" + rest
    ensures Parse("thunderbolt" + ":" + rest) == if rest == "" then Err(NoIdentity) else Ok(Thunderbolt(rest))
  {
    ParseAfterBus("thunderbolt", rest);
  }

  lemma SdCardWord(rest: string)
    ensures Print(SdCard(rest)) == "sdcard" + ":" + rest
    ensures Parse("sdcard" + ":" + rest) == if rest == "" then Err(NoIdentity) else Ok(SdCard(rest))
  {
    ParseAfterBus("sdcard", rest);
  }

  lemma PciWord(rest: string)
    ensures Print(Pci(rest)) == "pci" + ":" + rest
    ensures Parse("pci" + ":" + rest) == if IsPciSelector(rest) then Ok(Pci(rest)) else Err(BadPciSelector)
  {
    ParseAfterBus("pci", rest);
  }

  /** Events cannot be allowed, and other words name no bus. */
  lemma OtherBusWords(bus: string, rest: string)
    requires ':' !in bus && bus !in {"usb", "thunderbolt", "sdcard", "pci", "display"}
    ensures Parse(bus + ":" + rest) == Err(if bus in {"power", "network", "lid"} then EventBus else UnknownBus)
  {
    ParseAfterBus(bus, rest);
  }

  lemma SerialsLookLike()
    ensures PrintDecimal(12) == "12" && PrintHex4(0x0F9C) == "0f9c" && PrintHex4(0x12) == "0012"
  {
    assert PrintDecimal(12) == PrintDecimal(1) + "2";
  }

  /** What identifies a monitor, in the spelling a user types. */
  lemma MonitorsLookLike()
    ensures Print(Display(MonitorId("SAM", 0x0F9C, Some(12))))
            == "display" + ":" + ("SAM" + ":" + ("0f9c" + ":" + "12"))
    ensures Print(Display(MonitorId("BOE", 0x12, None))) == "display" + ":" + ("BOE" + ":" + "0012")
  {
    SerialsLookLike();
  }

  /** A USB id may be typed in either case and with or without leading zeros;
      capitals are read as small letters, zeros are kept. It is printed as it is. */
  lemma UsbIdsAreRead(vendor: string, product: string)
    requires IsUsbHex(vendor) && IsUsbHex(product)
    ensures Print(Usb(UsbId(vendor, product))) == "usb" + ":" + (vendor + ":" + product)
    ensures Parse("usb" + ":" + (vendor + ":" + product)) == Ok(Usb(UsbId(Lower(vendor), Lower(product))))
  {
    UsbHexHasNoColon(vendor);
    ParseAfterBus("usb", vendor + ":" + product);
    ColonAfter(vendor, product);
  }

  /** Parsing undoes printing for exactly the well-formed identities. */
  lemma PrintThenParse(d: DeviceRef)
    ensures Parse(Print(d)) == Ok(d) <==> WellFormed(d)
  {
    match d
    case Usb(id) => UsbSelectorRoundTrip(id.vendor, id.product);
    case Thunderbolt(uniqueId) => ParseAfterBus("thunderbolt", uniqueId);
    case SdCard(serial) => ParseAfterBus("sdcard", serial);
    case Pci(selector) => ParseAfterBus("pci", selector);
    case Display(monitor) => DisplayRoundTrip(monitor, PrintMonitor(monitor), Parse(Print(d)));
  }

  /** Two devices whose own selectors mean something else or nothing: a PCI
      function in FreeBSD's spelling, and a USB id written with capitals. */
  lemma SomeSelectorsAreLost()
    ensures Parse(Print(Pci("pci0:1:0:0"))) != Ok(Pci("pci0:1:0:0"))
    ensures Parse(Print(Usb(UsbId("04B4", "0033")))) != Ok(Usb(UsbId("04B4", "0033")))
  {
    ShortPciIsLost("pci0:1:0:0");
    CapitalsAreLost("04B4", "0033", 2);
  }

  lemma ShortPciIsLost(selector: string)
    requires |selector| != 12
    ensures Parse(Print(Pci(selector))) != Ok(Pci(selector))
  {
    PrintThenParse(Pci(selector));
  }

  lemma CapitalsAreLost(vendor: string, product: string, i: nat)
    requires i < |vendor| && 'A' <= vendor[i] <= 'Z'
    ensures Parse(Print(Usb(UsbId(vendor, product)))) != Ok(Usb(UsbId(vendor, product)))
  {
    PrintThenParse(Usb(UsbId(vendor, product)));
    assert Lower(vendor)[i] != vendor[i];
  }

  /** Whatever the parser accepts is well-formed. */
  lemma ParsedIsWellFormed(s: string)
    requires Parse(s).Ok?
    ensures WellFormed(Parse(s).value)
  {
    var rest := s[Colon(s) + 1..];
    if s[..Colon(s)] == "usb" {
      LowerIsUsbHex(rest[..Colon(rest)]);
      LowerIsUsbHex(rest[Colon(rest) + 1..]);
    }
  }

  /** The printed form of an accepted selector means the same device. */
  lemma ParseThenPrint(s: string)
    requires Parse(s).Ok?
    ensures Parse(Print(Parse(s).value)) == Parse(s)
  {
    ParsedIsWellFormed(s);
    PrintThenParse(Parse(s).value);
  }

  /** Two different well-formed devices never share a selector, on one bus or
      across buses. */
  lemma SelectorsAreUnique(d: DeviceRef, e: DeviceRef)
    requires WellFormed(d) && WellFormed(e) && Print(d) == Print(e)
    ensures d == e
  {
    PrintThenParse(d);
    PrintThenParse(e);
  }
}
