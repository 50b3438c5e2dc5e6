/** Monitor identities read from EDID blocks (crates/plugkill-core/src/edid.rs). */
module Edid {
  import opened Wrappers
  import opened Utf8
  import opened Selectors
  import Displays

  const EDID_BASE_LEN: nat := 128
  const EDID_HEADER: seq<Byte> := [0x00, 0xFF, 0xFF, 0xFF, 0xFF, 0xFF, 0xFF, 0x00]

  /** `u16::from_be_bytes`, `u16::from_le_bytes` and `u32::from_le_bytes`. */
  function BigWord(high: Byte, low: Byte): U16 {
    high as int * 256 + low
  }

  function LittleWord(low: Byte, high: Byte): U16 {
    BigWord(high, low)
  }

  function LittleDouble(a: Byte, b: Byte, c: Byte, d: Byte): U32 {
    LittleWord(a, b) as int + LittleWord(c, d) as int * 0x1_0000
  }

  /** The letter in five bits of the manufacturer code, 1 for 'A'. */
  function Letter(packed: U16, shift: nat): Option<char> {
    var v := (if shift == 10 then packed / 1024 else if shift == 5 then packed / 32 else packed) % 32;
    if 1 <= v <= 26 then Some(('A' as int + v - 1) as char) else None
  }

  /** Three capitals in one word: five bits each, 1 for 'A', the first letter
      highest. */
  function Packed(mfg: string): nat
    requires IsManufacturer(mfg)
  {
    (mfg[0] as nat - 64) * 1024 + (mfg[1] as nat - 64) * 32 + (mfg[2] as nat - 64)
  }

  lemma FiveBitFields(packed: U16)
    ensures packed % 0x8000 == packed / 1024 % 32 * 1024 + packed / 32 % 32 * 32 + packed % 32
  {
    var high, mid, low := packed / 1024, packed / 32 % 32, packed % 32;
    assert packed == high * 1024 + mid * 32 + low;
    assert high == high / 32 * 32 + high % 32 && high / 32 < 2;
  }

  lemma FieldsAreUnique(a: nat, b: nat, c: nat, d: nat, e: nat, f: nat)
    requires a < 32 && b < 32 && c < 32 && d < 32 && e < 32 && f < 32
    ensures a * 1024 + b * 32 + c == d * 1024 + e * 32 + f <==> a == d && b == e && c == f
  {
  }

  lemma LetterIsField(packed: U16, shift: nat, c: char)
    requires 'A' <= c <= 'Z'
    ensures var v := (if shift == 10 then packed / 1024 else if shift == 5 then packed / 32 else packed) % 32;
            Letter(packed, shift) == Some(c) <==> v == c as nat - 64
  {
  }

  /** Packed letters are read back, whatever the unused top bit says; and letters
      are only read from a word that packs them. */
  lemma LettersArePacked(packed: U16, mfg: string)
    requires IsManufacturer(mfg)
    ensures packed % 0x8000 == Packed(mfg) <==>
            Letter(packed, 10) == Some(mfg[0]) && Letter(packed, 5) == Some(mfg[1]) && Letter(packed, 0) == Some(mfg[2])
  {
    FiveBitFields(packed);
    FieldsAreUnique(packed / 1024 % 32, packed / 32 % 32, packed % 32,
                    mfg[0] as nat - 64, mfg[1] as nat - 64, mfg[2] as nat - 64);
    LetterIsField(packed, 10, mfg[0]);
    LetterIsField(packed, 5, mfg[1]);
    LetterIsField(packed, 0, mfg[2]);
  }

  /** The byte orders. */
  lemma WordsMean(a: Byte, b: Byte, c: Byte, d: Byte)
    ensures BigWord(a, b) as int == a as int * 256 + b
    ensures LittleWord(a, b) as int == a as int + b as int * 256
    ensures LittleDouble(a, b, c, d) as int
            == a as int + b as int * 0x100 + c as int * 0x1_0000 + d as int * 0x100_0000
  {
  }

  predicate IsEdid(bytes: seq<Byte>) {
    |bytes| >= EDID_BASE_LEN && bytes[..8] == EDID_HEADER
  }

  /** Three letters, high bits first; one code out of range rejects them all. */
  method ParseManufacturer(packed: U16) returns (mfg: Option<string>)
    ensures mfg.Some? <==> Letter(packed, 10).Some? && Letter(packed, 5).Some? && Letter(packed, 0).Some?
    ensures mfg.Some? ==> mfg.value == [Letter(packed, 10).value, Letter(packed, 5).value, Letter(packed, 0).value]
    ensures mfg.Some? ==> IsManufacturer(mfg.value) && packed % 0x8000 == Packed(mfg.value)
    ensures forall m :: IsManufacturer(m) && packed % 0x8000 == Packed(m) ==> mfg == Some(m)
  {
    var letters := "";
    var shift := 10;
    while shift >= 0
      invariant -5 <= shift <= 10 && shift % 5 == 0
      invariant |letters| == (10 - shift) / 5
      invariant shift < 10 ==> Letter(packed, 10) == Some(letters[0])
      invariant shift < 5 ==> Letter(packed, 5) == Some(letters[1])
      invariant shift < 0 ==> Letter(packed, 0) == Some(letters[2])
    {
      var letter := Letter(packed, shift);
      if letter.None? {
        forall m | IsManufacturer(m) ensures packed % 0x8000 != Packed(m) {
          LettersArePacked(packed, m);
        }
        return None;
      }
      letters := letters + [letter.value];
      shift := shift - 5;
    }
    LettersAreManufacturer(packed, letters);
    mfg := Some(letters);
    forall m | IsManufacturer(m) && packed % 0x8000 == Packed(m) ensures m == letters {
      LettersArePacked(packed, m);
    }
  }

  lemma LettersAreManufacturer(packed: U16, mfg: string)
    requires |mfg| == 3
    requires Letter(packed, 10) == Some(mfg[0]) && Letter(packed, 5) == Some(mfg[1])
             && Letter(packed, 0) == Some(mfg[2])
    ensures IsManufacturer(mfg) && packed % 0x8000 == Packed(mfg)
  {
    LettersArePacked(packed, mfg);
  }

  // ----- the name, which is no part of the identity -----------------------------------------

  const TAG_MONITOR_NAME: Byte := 0xFC
  const NAME_LENGTH := 13
  const MAX_NAME := 32

  /** The text before the first line feed. */
  function Line(text: seq<Byte>): seq<Byte> {
    if text == [] || text[0] == 0x0A then [] else [text[0]] + Line(text[1..])
  }

  predicate Printable(c: char) {
    ' ' <= c <= '~'
  }

  /** Bytes that are no printable ASCII read as spaces. */
  function Shown(text: seq<Byte>): (s: string)
    ensures |s| == |text| && forall c :: c in s ==> Printable(c)
  {
    if text == [] then ""
    else [if 0x20 <= text[0] as int < 0x7F then text[0] as char else ' '] + Shown(text[1..])
  }

  function Trimmed(s: string): (t: string)
    ensures |t| <= |s| && forall c :: c in t ==> c in s
    ensures t != "" ==> t[0] != ' ' && t[|t| - 1] != ' '
    decreases |s|
  {
    if s == "" then ""
    else if s[0] == ' ' then Trimmed(s[1..])
    else if s[|s| - 1] == ' ' then Trimmed(s[..|s| - 1])
    else s
  }

  function Truncated(s: string, limit: nat): string {
    if |s| <= limit then s else s[..limit]
  }

  /** A descriptor of eighteen bytes that holds a name. */
  predicate NamesMonitor(d: seq<Byte>) {
    |d| == 18 && d[..3] == [0, 0, 0] && d[3] == TAG_MONITOR_NAME
  }

  /** The name in the first descriptor from the `n`-th on that has one. */
  function NameFrom(bytes: seq<Byte>, n: nat): string
    requires |bytes| >= EDID_BASE_LEN && n <= 4
    decreases 4 - n
  {
    if n == 4 then ""
    else
      var d := bytes[54 + 18 * n..72 + 18 * n];
      if NamesMonitor(d) then Trimmed(Shown(Line(d[5..]))) else NameFrom(bytes, n + 1)
  }

  /** The line is what comes before the first line feed; printable ASCII reads as
      itself and every other byte as a space. */
  lemma {:induction false} LineAndShownMean(text: seq<Byte>, i: nat)
    ensures |Line(text)| <= |text| && Line(text) == text[..|Line(text)|] && 0x0A !in Line(text)
    ensures |Line(text)| < |text| ==> text[|Line(text)|] == 0x0A
    ensures i < |text| ==> Shown(text)[i] == if 32 <= text[i] as int <= 126 then text[i] as char else ' '
  {
    if text != [] {
      LineAndShownMean(text[1..], if i > 0 then i - 1 else 0);
      assert text == [text[0]] + text[1..];
    }
  }

  /** Only spaces at the ends are trimmed. */
  lemma {:induction false} TrimmedMeans(s: string) returns (i: nat, j: nat)
    ensures i <= j <= |s| && Trimmed(s) == s[i..j]
    ensures forall k :: 0 <= k < i || j <= k < |s| ==> s[k] == ' '
    decreases |s|
  {
    if s == "" {
      i, j := 0, 0;
    } else if s[0] == ' ' {
      i, j := TrimmedMeans(s[1..]);
      i, j := i + 1, j + 1;
    } else if s[|s| - 1] == ' ' {
      i, j := TrimmedMeans(s[..|s| - 1]);
    } else {
      i, j := 0, |s|;
    }
  }

  /** The name is that of the first of the four descriptors, eighteen bytes each
      from byte 54 on, that starts with three zeros and the tag 0xFC. */
  lemma {:induction false} FirstNameCounts(bytes: seq<Byte>, n: nat, k: nat)
    requires |bytes| >= EDID_BASE_LEN && n <= k < 4
    requires bytes[54 + 18 * k..58 + 18 * k] == [0, 0, 0, 0xFC]
    requires forall j :: n <= j < k ==> bytes[54 + 18 * j..58 + 18 * j] != [0, 0, 0, 0xFC]
    ensures NameFrom(bytes, n) == Trimmed(Shown(Line(bytes[59 + 18 * k..72 + 18 * k])))
    decreases k - n
  {
    var d := bytes[54 + 18 * n..72 + 18 * n];
    assert d[..4] == bytes[54 + 18 * n..58 + 18 * n];
    assert NamesMonitor(d) <==> d[..4] == [0, 0, 0, 0xFC] by {
      if d[..3] == [0, 0, 0] && d[3] == 0xFC {
        assert d[..4] == d[..3] + [d[3]];
      }
      if d[..4] == [0, 0, 0, 0xFC] {
        assert d[..3] == d[..4][..3] && d[3] == d[..4][3];
      }
    }
    if n < k {
      FirstNameCounts(bytes, n + 1, k);
    } else {
      assert d[5..] == bytes[59 + 18 * n..72 + 18 * n];
    }
  }

  /** Where the first line feed is, or the end. */
  method FindLineFeed(text: seq<Byte>) returns (end: nat)
    ensures end <= |text| && Line(text) == text[..end]
  {
    end := 0;
    while end < |text| && text[end] != 0x0A
      invariant end <= |text| && Line(text) == text[..end] + Line(text[end..])
    {
      assert text[end..][1..] == text[end + 1..];
      end := end + 1;
    }
  }

  /** The name of one descriptor; it is too short for the limit to cut anything. */
  method ReadName(d: seq<Byte>) returns (name: string)
    requires |d| == 18
    ensures name == Trimmed(Shown(Line(d[5..]))) && |name| <= NAME_LENGTH
    ensures forall c :: c in name ==> Printable(c)
    ensures name != "" ==> name[0] != ' ' && name[|name| - 1] != ' '
  {
    var text := d[5..];
    var end := FindLineFeed(text);
    name := Truncated(Trimmed(Shown(text[..end])), MAX_NAME);
  }

  method MonitorName(bytes: seq<Byte>) returns (name: string)
    requires |bytes| >= EDID_BASE_LEN
    ensures name == NameFrom(bytes, 0)
    ensures |name| <= NAME_LENGTH && forall c :: c in name ==> Printable(c)
    ensures name != "" ==> name[0] != ' ' && name[|name| - 1] != ' '
  {
    for n := 0 to 4
      invariant NameFrom(bytes, 0) == NameFrom(bytes, n)
    {
      var d := bytes[54 + 18 * n..72 + 18 * n];
      if d[..3] == [0, 0, 0] && d[3] == TAG_MONITOR_NAME {
        name := ReadName(d);
        return;
      }
    }
    name := "";
  }

  /** What an EDID base block says, if it is one: three letters or nothing, the
      product code, a serial unless it is 0, and the name. The selector always
      parses back. */
  method ParseEdid(bytes: seq<Byte>) returns (r: Option<Displays.Edid>)
    ensures r.Some? <==> IsEdid(bytes)
                         && exists m :: IsManufacturer(m) && BigWord(bytes[8], bytes[9]) % 0x8000 == Packed(m)
    ensures r.Some? ==>
              var id := r.value.id;
              var serial := LittleDouble(bytes[12], bytes[13], bytes[14], bytes[15]);
              && IsManufacturer(id.mfg) && BigWord(bytes[8], bytes[9]) % 0x8000 == Packed(id.mfg)
              && id.product == LittleWord(bytes[10], bytes[11])
              && id.serial == (if serial == 0 then None else Some(serial))
              && r.value.name == NameFrom(bytes, 0)
              && Parse(Print(Display(id))) == Ok(Display(id))
  {
    if |bytes| < EDID_BASE_LEN || bytes[..8] != EDID_HEADER {
      return None;
    }
    var mfg := ParseManufacturer(BigWord(bytes[8], bytes[9]));
    if mfg.None? {
      return None;
    }
    var product := LittleWord(bytes[10], bytes[11]);
    var serial := LittleDouble(bytes[12], bytes[13], bytes[14], bytes[15]);
    var id := MonitorId(mfg.value, product, if serial == 0 then None else Some(serial));
    PrintThenParse(Display(id));
    var name := MonitorName(bytes);
    r := Some(Displays.Edid(id, name));
  }
}
