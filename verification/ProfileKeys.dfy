/** The composite key of a local history profile: canonical node ID and canonical SHORT NAME.
    Text is ASCII here: no Unicode whitespace, digits or case mapping. */
module ProfileKeys {
  import opened Common

  predicate Space(c: char) {
    c == ' ' || '\U{9}' <= c <= '\U{D}' || '\U{1C}' <= c <= '\U{1F}'
  }

  function StripLeft(s: string): string {
    if s != [] && Space(s[0]) then StripLeft(s[1..]) else s
  }

  function StripRight(s: string): string {
    if s != [] && Space(s[|s| - 1]) then StripRight(s[..|s| - 1]) else s
  }

  function Strip(s: string): string {
    StripRight(StripLeft(s))
  }

  function Upper(s: string): string {
    seq(|s|, i requires 0 <= i < |s| => if 'a' <= s[i] <= 'z' then (s[i] as int - 32) as char else s[i])
  }

  // ----- Hexadecimal text

  function DigitValue(c: char): Option<nat> {
    if '0' <= c <= '9' then Some(c as int - '0' as int)
    else if 'a' <= c <= 'f' then Some(c as int - 'a' as int + 10)
    else if 'A' <= c <= 'F' then Some(c as int - 'A' as int + 10)
    else None
  }

  /** One or more hexadecimal digits, single underscores between them allowed. */
  function Digits(s: string): Option<nat> {
    if s == [] then None
    else
      var d := DigitValue(s[|s| - 1]);
      if d.None? then None
      else if |s| == 1 then d
      else
        var front := Digits(if s[|s| - 2] == '_' then s[..|s| - 2] else s[..|s| - 1]);
        if front.None? then None else Some(front.value * 16 + d.value)
  }

  function Signed(negative: bool, n: int): int {
    if negative then 0 - n else n
  }

  /** Python's int(s, 16) on ASCII text. */
  function ParseHex(s: string): Option<int> {
    var t := Strip(s);
    var negative := t != [] && t[0] == '-';
    var u := if t != [] && (t[0] == '-' || t[0] == '+') then t[1..] else t;
    var v := if |u| >= 2 && u[0] == '0' && (u[1] == 'x' || u[1] == 'X')
             then (if |u| >= 3 && u[2] == '_' then u[3..] else u[2..])
             else u;
    var n := Digits(v);
    if n.None? then None else Some(Signed(negative, n.value))
  }

  function HexDigit(d: nat): char
    requires d < 16
  {
    if d < 10 then ('0' as int + d) as char else ('a' as int + d - 10) as char
  }

  function HexText(value: nat, width: nat): string
    decreases value, width
  {
    if width == 0 then [] else HexText(value / 16, width - 1) + [HexDigit(value % 16)]
  }

  // ----- Keys

  predicate HexLetter(c: char) {
    'a' <= c <= 'f' || 'A' <= c <= 'F'
  }

  /** The low 32 bits as "!" and eight hexadecimal digits. */
  function IdText(value: int): string {
    "!" + HexText(value % 0x1_0000_0000, 8)
  }

  function Normalize(id: Option<string>): Option<string> {
    if id.None? then None
    else
      var stripped := Strip(id.value);
      var hadPrefix := stripped != [] && stripped[0] == '!';
      var candidate := if hadPrefix then stripped[1..] else stripped;
      if candidate == [] || |candidate| > 8 then None
      else if !hadPrefix && !exists c :: c in candidate && HexLetter(c) then None
      else
        var value := ParseHex(candidate);
        if value.None? then None else Some(IdText(value.value))
  }

  function ShortName(name: Option<string>): string {
    if name.None? then "" else Upper(Strip(name.value))
  }

  function CanonicalKey(id: Option<string>, name: Option<string>): Option<string> {
    var normalized := Normalize(id);
    if normalized.None? || ShortName(name) == "" then None
    else Some(normalized.value + ":" + ShortName(name))
  }

  /** Where the first ':' is, or the length of the text. */
  function Separator(s: string): (n: nat)
    ensures n <= |s|
  {
    if s == [] || s[0] == ':' then 0 else 1 + Separator(s[1..])
  }

  function SplitKey(key: Option<string>): (Option<string>, string) {
    if key.None? || key.value == "" then (None, "")
    else
      var n := Separator(key.value);
      (Normalize(Some(key.value[..n])), if n == |key.value| then "" else key.value[n + 1..])
  }

  /** The node-ID half of a profile key. */
  function NodePart(key: string): Option<string> {
    SplitKey(Some(key)).0
  }

  // ----- Round trips

  ghost predicate HexOnly(s: string) {
    forall c :: c in s ==> '0' <= c <= '9' || 'a' <= c <= 'f'
  }

  function Pow16(n: nat): nat {
    if n == 0 then 1 else 16 * Pow16(n - 1)
  }

  lemma HexDigitReads(d: nat)
    requires d < 16
    ensures DigitValue(HexDigit(d)) == Some(d) && ('0' <= HexDigit(d) <= '9' || 'a' <= HexDigit(d) <= 'f')
  {
  }

  lemma DigitsSnoc(front: string, n: nat, c: char, d: nat)
    requires front != [] && HexOnly(front) && Digits(front) == Some(n) && DigitValue(c) == Some(d)
    ensures Digits(front + [c]) == Some(n * 16 + d)
  {
    assert (front + [c])[..|front|] == front;
    assert (front + [c])[|front| - 1] == front[|front| - 1] && front[|front| - 1] in front;
  }

  lemma Nibbles(value: nat)
    ensures value / 16 * 16 + value % 16 == value
  {
  }

  lemma {:induction false} HexTextReads(value: nat, width: nat)
    requires width >= 1 && value < Pow16(width)
    ensures |HexText(value, width)| == width && HexOnly(HexText(value, width))
    ensures Digits(HexText(value, width)) == Some(value)
  {
    HexDigitReads(value % 16);
    Nibbles(value);
    if width == 1 {
      assert HexText(value, width) == [HexDigit(value % 16)];
    } else {
      HexTextReads(value / 16, width - 1);
      DigitsSnoc(HexText(value / 16, width - 1), value / 16, HexDigit(value % 16), value % 16);
    }
  }

  lemma Pow16Of8()
    ensures Pow16(8) == 0x1_0000_0000
  {
    assert Pow16(4) == 0x1_0000;
    assert Pow16(8) == 16 * Pow16(7) == 16 * 16 * Pow16(6) == 16 * 16 * 16 * Pow16(5) == 16 * 16 * 16 * 16 * Pow16(4);
  }

  lemma {:induction false} StripLeavesAlone(s: string)
    requires s != [] && !Space(s[0]) && !Space(s[|s| - 1])
    ensures Strip(s) == s
  {
  }

  /** Plain digits carry no sign and no "0x". */
  lemma ParseHexOfDigits(text: string)
    requires |text| == 8 && HexOnly(text) && Digits(text).Some?
    ensures ParseHex(text) == Some(Digits(text).value)
  {
    assert text[0] in text && text[1] in text && text[7] in text;
    StripLeavesAlone(text);
  }

  lemma PrefixedStrips(text: string)
    requires |text| == 8 && HexOnly(text)
    ensures Strip("!" + text) == "!" + text && ("!" + text)[1..] == text
  {
    var id := "!" + text;
    assert id[8] == text[7] && text[7] in text;
    StripLeavesAlone(id);
  }

  lemma NormalizeOfPrefixed(id: string, value: nat)
    requires |id| == 9 && id[0] == '!' && Strip(id) == id
    requires ParseHex(id[1..]) == Some(value)
    ensures Normalize(Some(id)) == Some(IdText(value))
  {
  }

  lemma CanonicalIdReads(value: nat, width: nat)
    requires width == 8 && value < 0x1_0000_0000
    ensures var text := HexText(value, width);
      |text| == 8 && HexOnly(text) && Normalize(Some("!" + text)) == Some("!" + text)
  {
    Pow16Of8();
    HexTextReads(value, width);
    assert value % 0x1_0000_0000 == value;
    ParseHexOfDigits(HexText(value, width));
    PrefixedStrips(HexText(value, width));
    NormalizeOfPrefixed("!" + HexText(value, width), value);
  }

  /** A normalised ID is "!" and eight lower-case digits, and normalising it again changes nothing. */
  lemma NormalizeIsIdempotent(id: Option<string>)
    requires Normalize(id).Some?
    ensures var n := Normalize(id).value;
      |n| == 9 && n[0] == '!' && HexOnly(n[1..]) && Normalize(Some(n)) == Some(n)
  {
    var stripped := Strip(id.value);
    var candidate := if stripped != [] && stripped[0] == '!' then stripped[1..] else stripped;
    var value := ParseHex(candidate).value % 0x1_0000_0000;
    CanonicalIdReads(value, 8);
    assert ("!" + HexText(value, 8))[1..] == HexText(value, 8);
  }

  lemma {:induction false} SeparatorAfter(front: string, back: string)
    requires ':' !in front
    ensures Separator(front + ":" + back) == |front|
  {
    var s := front + ":" + back;
    if front == [] {
      assert s[0] == ':';
    } else {
      assert s[1..] == front[1..] + ":" + back;
      SeparatorAfter(front[1..], back);
    }
  }

  /** Splitting a profile key gives back both halves. */
  lemma SplitInvertsCanonicalKey(id: Option<string>, name: Option<string>)
    requires CanonicalKey(id, name).Some?
    ensures SplitKey(CanonicalKey(id, name)) == (Normalize(id), ShortName(name))
    ensures CanonicalKey(id, name).value != ""
  {
    NormalizeIsIdempotent(id);
    var n := Normalize(id).value;
    assert n == [n[0]] + n[1..];
    SeparatorAfter(n, ShortName(name));
    var key := n + ":" + ShortName(name);
    assert key[..|n|] == n && key[|n| + 1..] == ShortName(name);
  }

  /** Two pairings share a key exactly when they are the same radio under the same name. */
  lemma KeysIdentifyPairings(id: Option<string>, name: Option<string>, id': Option<string>, name': Option<string>)
    requires CanonicalKey(id, name).Some? && CanonicalKey(id', name').Some?
    ensures CanonicalKey(id, name) == CanonicalKey(id', name') <==>
            Normalize(id) == Normalize(id') && ShortName(name) == ShortName(name')
  {
    SplitInvertsCanonicalKey(id, name);
    SplitInvertsCanonicalKey(id', name');
  }
}
