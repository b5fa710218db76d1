/** The USB boot-keyboard report decoder of the keyboard-to-I2C bridge.

    An input report is 8 bytes: byte 0 is the modifier mask, byte 1 is
    reserved and bytes 2..7 are key usage codes of the Keyboard/Keypad page
    (0 marks an empty slot).  The decoder takes the first non-zero slot,
    looks its usage code up in a fixed US-layout table and renders one short
    text token for it.
 */
module KeyDecoder {

  newtype byte = b: int | 0 <= b < 256

  datatype Option<+T> = None | Some(value: T)

  /** Length of a boot-keyboard input report. */
  const ReportLength := 8
  /** Index of the first key-code slot; the last one is ReportLength - 1. */
  const FirstSlot := 2
  /** Left Shift (bit 1) and Right Shift (bit 5) of the modifier byte. */
  const ShiftMask: bv8 := 0x22
  /** The token is formatted into a 16-byte char buffer, NUL included. */
  const MaxTokenLength := 15

  /** Characters that may appear in a token: printable ASCII, space included. */
  predicate IsTokenChar(c: char) {
    ' ' <= c <= '~'
  }

  predicate IsTokenText(s: string) {
    forall i :: 0 <= i < |s| ==> IsTokenChar(s[i])
  }

  /** What the table holds for one usage code: a character pair chosen by
      shift, a key name that shift does not change, or nothing. */
  datatype Entry =
    | Printable(unshifted: char, shifted: char)
    | Named(name: string)
    | Absent

  /** Letter keys, 0x04..0x1D. */
  function LetterEntry(code: byte): (e: Entry)
    requires 0x04 <= code <= 0x1D
    ensures e.Printable? && IsTokenChar(e.unshifted) && IsTokenChar(e.shifted)
    ensures e.unshifted != e.shifted
  {
    match code
    case 0x04 => Printable('a', 'A')
    case 0x05 => Printable('b', 'B')
    case 0x06 => Printable('c', 'C')
    case 0x07 => Printable('d', 'D')
    case 0x08 => Printable('e', 'E')
    case 0x09 => Printable('f', 'F')
    case 0x0A => Printable('g', 'G')
    case 0x0B => Printable('h', 'H')
    case 0x0C => Printable('i', 'I')
    case 0x0D => Printable('j', 'J')
    case 0x0E => Printable('k', 'K')
    case 0x0F => Printable('l', 'L')
    case 0x10 => Printable('m', 'M')
    case 0x11 => Printable('n', 'N')
    case 0x12 => Printable('o', 'O')
    case 0x13 => Printable('p', 'P')
    case 0x14 => Printable('q', 'Q')
    case 0x15 => Printable('r', 'R')
    case 0x16 => Printable('s', 'S')
    case 0x17 => Printable('t', 'T')
    case 0x18 => Printable('u', 'U')
    case 0x19 => Printable('v', 'V')
    case 0x1A => Printable('w', 'W')
    case 0x1B => Printable('x', 'X')
    case 0x1C => Printable('y', 'Y')
    case 0x1D => Printable('z', 'Z')
    case _ => assert false; Absent
  }

  /** The digit row, 0x1E..0x27. */
  function DigitEntry(code: byte): (e: Entry)
    requires 0x1E <= code <= 0x27
    ensures e.Printable? && IsTokenChar(e.unshifted) && IsTokenChar(e.shifted)
    ensures e.unshifted != e.shifted
  {
    match code
    case 0x1E => Printable('1', '!')
    case 0x1F => Printable('2', '@')
    case 0x20 => Printable('3', '#')
    case 0x21 => Printable('4', '$')
    case 0x22 => Printable('5', '%')
    case 0x23 => Printable('6', '^')
    case 0x24 => Printable('7', '&')
    case 0x25 => Printable('8', '*')
    case 0x26 => Printable('9', '(')
    case 0x27 => Printable('0', ')')
    case _ => assert false; Absent
  }

  /** Enter, Esc, Backspace, Tab and Space, 0x28..0x2C. */
  function ControlEntry(code: byte): (e: Entry)
    requires 0x28 <= code <= 0x2C
    ensures e.Named? && 2 <= |e.name| <= 11 && IsTokenText(e.name)
  {
    match code
    case 0x28 => Named("Enter")
    case 0x29 => Named("Esc")
    case 0x2A => Named("Backspace")
    case 0x2B => Named("Tab")
    case 0x2C => Named("Space")
    case _ => assert false; Absent
  }

  /** The punctuation keys, 0x2D..0x38; 0x32 and 0x35 both give '~' when shifted. */
  function PunctuationEntry(code: byte): (e: Entry)
    requires 0x2D <= code <= 0x38
    ensures e.Printable? && IsTokenChar(e.unshifted) && IsTokenChar(e.shifted)
    ensures e.unshifted != e.shifted
  {
    match code
    case 0x2D => Printable('-', '_')
    case 0x2E => Printable('=', '+')
    case 0x2F => Printable('[', '{')
    case 0x30 => Printable(']', '}')
    case 0x31 => Printable('\\', '|')
    case 0x32 => Printable('#', '~')
    case 0x33 => Printable(';', ':')
    case 0x34 => Printable('\'', '"')
    case 0x35 => Printable('`', '~')
    case 0x36 => Printable(',', '<')
    case 0x37 => Printable('.', '>')
    case 0x38 => Printable('/', '?')
    case _ => assert false; Absent
  }

  /** Caps Lock and F1..F12, 0x39..0x45. */
  function FunctionKeyEntry(code: byte): (e: Entry)
    requires 0x39 <= code <= 0x45
    ensures e.Named? && 2 <= |e.name| <= 11 && IsTokenText(e.name)
  {
    match code
    case 0x39 => Named("Caps Lock")
    case 0x3A => Named("F1")
    case 0x3B => Named("F2")
    case 0x3C => Named("F3")
    case 0x3D => Named("F4")
    case 0x3E => Named("F5")
    case 0x3F => Named("F6")
    case 0x40 => Named("F7")
    case 0x41 => Named("F8")
    case 0x42 => Named("F9")
    case 0x43 => Named("F10")
    case 0x44 => Named("F11")
    case 0x45 => Named("F12")
    case _ => assert false; Absent
  }

  /** The arrow keys, 0x4F..0x52. */
  function ArrowEntry(code: byte): (e: Entry)
    requires 0x4F <= code <= 0x52
    ensures e.Named? && 2 <= |e.name| <= 11 && IsTokenText(e.name)
  {
    match code
    case 0x4F => Named("Right Arrow")
    case 0x50 => Named("Left Arrow")
    case 0x51 => Named("Down Arrow")
    case 0x52 => Named("Up Arrow")
    case _ => assert false; Absent
  }

  /** The code-to-text switch of the report callback, entry for entry,
      grouped by the key blocks above.  Codes 0x46..0x4E and everything
      above 0x52 have no entry. */
  function Table(code: byte): (e: Entry)
    ensures e.Printable? ==>
      IsTokenChar(e.unshifted) && IsTokenChar(e.shifted) && e.unshifted != e.shifted
    ensures e.Named? ==> 2 <= |e.name| <= 11 && IsTokenText(e.name)
    ensures !e.Absent? <==> 0x04 <= code <= 0x45 || 0x4F <= code <= 0x52
  {
    if code < 0x04 then Absent
    else if code <= 0x1D then LetterEntry(code)
    else if code <= 0x27 then DigitEntry(code)
    else if code <= 0x2C then ControlEntry(code)
    else if code <= 0x38 then PunctuationEntry(code)
    else if code <= 0x45 then FunctionKeyEntry(code)
    else if code < 0x4F then Absent
    else if code <= 0x52 then ArrowEntry(code)
    else Absent
  }

  /** The digits printf's %x writes: 0-9 and lower-case a-f. */
  predicate IsLowerHex(c: char) {
    '0' <= c <= '9' || 'a' <= c <= 'f'
  }

  /** One lower-case hexadecimal digit, as printf's %x writes it. */
  function HexDigit(n: nat): (c: char)
    requires n < 16
    ensures IsLowerHex(c) && HexValue(c) == n
  {
    if n < 10 then ('0' as int + n) as char else ('a' as int + n - 10) as char
  }

  /** The value of a hexadecimal digit; the inverse of HexDigit. */
  function HexValue(c: char): nat {
    if '0' <= c <= '9' then c as int - '0' as int
    else if 'a' <= c <= 'f' then c as int - 'a' as int + 10
    else 0
  }

  /** A byte as printf's "%02x" renders it: two lower-case hex digits. */
  function Hex2(b: byte): (s: string)
    ensures |s| == 2 && IsLowerHex(s[0]) && IsLowerHex(s[1])
    ensures HexValue(s[0]) * 16 + HexValue(s[1]) == b as int
  {
    [HexDigit(b as int / 16), HexDigit(b as int % 16)]
  }

  const UnknownPrefix := "Unknown (0x"

  /** The text the switch formats for one usage code. */
  function KeyText(code: byte, shift: bool): (t: string)
    ensures 1 <= |t| <= MaxTokenLength
    ensures IsTokenText(t)
  {
    match Table(code)
    case Printable(u, s) => [if shift then s else u]
    case Named(name) => name
    case Absent => UnknownPrefix + Hex2(code) + ")"
  }

  /** The shift test of the report callback: Left or Right Shift held. */
  function Shift(modifiers: byte): (held: bool)
    ensures held <==> (modifiers / 2) % 2 == 1 || (modifiers / 32) % 2 == 1
  {
    (modifiers as bv8) & ShiftMask != 0
  }

  /** The scan of slots i..7: the token of the first non-zero slot. */
  function Scan(report: seq<byte>, i: nat): (r: Option<string>)
    requires |report| >= ReportLength
    ensures r.Some? ==> i < ReportLength && 1 <= |r.value| <= MaxTokenLength && IsTokenText(r.value)
    decreases ReportLength - i
  {
    if i >= ReportLength then None
    else if report[i] == 0 then Scan(report, i + 1)
    else Some(KeyText(report[i], Shift(report[0])))
  }

  /** The token a report yields, or None when every key slot is empty.
      The source reads bytes 0..7 without looking at the length, so
      callers must hand it a full report. */
  function Decode(report: seq<byte>): (r: Option<string>)
    requires |report| >= ReportLength
    ensures r.None? <==> forall j :: FirstSlot <= j < ReportLength ==> report[j] == 0
    ensures r.Some? ==> 1 <= |r.value| <= MaxTokenLength && IsTokenText(r.value)
  {
    ScanNone(report, FirstSlot);
    Scan(report, FirstSlot)
  }

  // ---------------------------------------------------------------------
  // The table against independent descriptions of the US layout

  /** Letter keys give the lower-case letter unshifted and the upper-case
      letter shifted, in alphabetical order from 0x04. */
  lemma LetterKeys(code: byte)
    requires 0x04 <= code <= 0x1D
    ensures KeyText(code, false) == [('a' as int + (code as int - 0x04)) as char]
    ensures KeyText(code, true) == [('A' as int + (code as int - 0x04)) as char]
  {
  }

  /** The digit row gives "1234567890" unshifted and "!@#$%^&*()" shifted. */
  lemma DigitKeys(code: byte)
    requires 0x1E <= code <= 0x27
    ensures KeyText(code, false) == ["1234567890"[code - 0x1E]]
    ensures KeyText(code, true) == ["!@#$%^&*()"[code - 0x1E]]
  {
  }

  /** Shift changes the text of exactly the keys with a character pair;
      named keys and unknown codes read the same either way. */
  lemma ShiftMattersOnlyForPrintable(code: byte)
    ensures KeyText(code, true) != KeyText(code, false) <==> Table(code).Printable?
  {
  }

  /** Enter, Esc, Backspace, Tab, Space, Caps Lock, F1..F12 and the four
      arrows are the named keys, whose text is a word, not one character. */
  lemma NamedKeys(code: byte)
    requires 0x28 <= code <= 0x2C || code == 0x39 || 0x3A <= code <= 0x45 || 0x4F <= code <= 0x52
    ensures Table(code).Named?
    ensures KeyText(code, true) == KeyText(code, false)
    ensures |KeyText(code, false)| >= 2
  {
  }

  /** The two quirks of the table: 0x32 and 0x35 both shift to '~', and the
      block 0x46..0x4E has no entry. */
  lemma TableQuirks(code: byte)
    ensures KeyText(0x32, false) == "#" && KeyText(0x35, false) == "`"
    ensures KeyText(0x32, true) == KeyText(0x35, true) == "~"
    ensures 0x46 <= code <= 0x4E ==> Table(code).Absent?
  {
  }

  /** An unknown code renders as "Unknown (0x" + two hex digits + ")", and
      the two digits read back as the code. */
  lemma UnknownNamesCode(code: byte, shift: bool)
    requires Table(code).Absent?
    ensures var t := KeyText(code, shift);
      |t| == 14 && t[..11] == UnknownPrefix && t[13] == ')' &&
      IsLowerHex(t[11]) && IsLowerHex(t[12]) &&
      HexValue(t[11]) * 16 + HexValue(t[12]) == code as int
  {
    var t := KeyText(code, shift);
    assert t[11..13] == Hex2(code);
  }

  /** Distinct unknown codes give distinct tokens. */
  lemma UnknownTokensDistinct(c1: byte, c2: byte, shift: bool)
    requires Table(c1).Absent? && Table(c2).Absent?
    requires KeyText(c1, shift) == KeyText(c2, shift)
    ensures c1 == c2
  {
    UnknownNamesCode(c1, shift);
    UnknownNamesCode(c2, shift);
  }

  // ---------------------------------------------------------------------
  // The scan

  /** The scan finds nothing exactly when every slot from i on is empty. */
  lemma {:induction false} ScanNone(report: seq<byte>, i: nat)
    requires |report| >= ReportLength && i <= ReportLength
    ensures Scan(report, i).None? <==> forall j :: i <= j < ReportLength ==> report[j] == 0
    decreases ReportLength - i
  {
    if i < ReportLength {
      ScanNone(report, i + 1);
    }
  }

  /** The scan renders the first non-zero slot from i on. */
  lemma {:induction false} ScanFirst(report: seq<byte>, i: nat, k: nat)
    requires |report| >= ReportLength && i <= k < ReportLength
    requires report[k] != 0
    requires forall j :: i <= j < k ==> report[j] == 0
    ensures Scan(report, i) == Some(KeyText(report[k], Shift(report[0])))
    decreases k - i
  {
    if i < k {
      ScanFirst(report, i + 1, k);
    }
  }

  /** The token is that of the lowest-index non-zero slot. */
  lemma DecodeFirstKey(report: seq<byte>, k: nat)
    requires |report| >= ReportLength && FirstSlot <= k < ReportLength
    requires report[k] != 0
    requires forall j :: FirstSlot <= j < k ==> report[j] == 0
    ensures Decode(report) == Some(KeyText(report[k], Shift(report[0])))
  {
    ScanFirst(report, FirstSlot, k);
  }

  /** Every token comes from some slot: the first non-zero one. */
  lemma DecodeHasSlot(report: seq<byte>)
    requires |report| >= ReportLength
    requires Decode(report).Some?
    ensures exists k :: (FirstSlot <= k < ReportLength && report[k] != 0 &&
      (forall j :: FirstSlot <= j < k ==> report[j] == 0) &&
      Decode(report).value == KeyText(report[k], Shift(report[0])))
  {
    var k := FirstSlot;
    while report[k] == 0
      invariant FirstSlot <= k < ReportLength
      invariant forall j :: FirstSlot <= j < k ==> report[j] == 0
      invariant exists j :: k <= j < ReportLength && report[j] != 0
      decreases ReportLength - k
    {
      k := k + 1;
    }
    DecodeFirstKey(report, k);
  }

  /** Slots after the first non-zero one are ignored: two reports that agree
      up to and including it, and on the modifier byte, decode alike. */
  lemma LaterSlotsIgnored(r1: seq<byte>, r2: seq<byte>, k: nat)
    requires |r1| >= ReportLength && |r2| >= ReportLength
    requires FirstSlot <= k < ReportLength && r1[k] != 0
    requires forall j :: FirstSlot <= j < k ==> r1[j] == 0
    requires r1[0] == r2[0] && r1[FirstSlot..k + 1] == r2[FirstSlot..k + 1]
    ensures Decode(r1) == Decode(r2)
  {
    assert forall j :: FirstSlot <= j <= k ==> r1[j] == r1[FirstSlot..k + 1][j - FirstSlot];
    assert forall j :: FirstSlot <= j <= k ==> r2[j] == r2[FirstSlot..k + 1][j - FirstSlot];
    DecodeFirstKey(r1, k);
    DecodeFirstKey(r2, k);
  }

  /** Of the modifier byte only the two shift bits matter. */
  lemma OnlyShiftBitsMatter(r1: seq<byte>, r2: seq<byte>)
    requires |r1| >= ReportLength && |r2| >= ReportLength
    requires r1[FirstSlot..ReportLength] == r2[FirstSlot..ReportLength]
    requires (r1[0] as bv8) & ShiftMask == (r2[0] as bv8) & ShiftMask
    ensures Decode(r1) == Decode(r2)
  {
    assert forall j :: FirstSlot <= j < ReportLength ==>
      r1[j] == r1[FirstSlot..ReportLength][j - FirstSlot] == r2[j];
    if forall j :: FirstSlot <= j < ReportLength ==> r1[j] == 0 {
    } else {
      DecodeHasSlot(r1);
      var k :| FirstSlot <= k < ReportLength && r1[k] != 0 &&
        (forall j :: FirstSlot <= j < k ==> r1[j] == 0) &&
        Decode(r1).value == KeyText(r1[k], Shift(r1[0]));
      DecodeFirstKey(r2, k);
    }
  }
}
