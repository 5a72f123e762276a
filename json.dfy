/** JSON values as `JSON.parse` produces them and `JSON.stringify` prints
    them (ECMA-404 grammar). Numbers keep the text they were written with;
    objects keep their members in written order. */
module Json {
  import opened Options

  datatype Json =
    | JNull
    | JBool(b: bool)
    | JNum(lexeme: string)
    | JStr(str: string)
    | JArr(elems: seq<Json>)
    | JObj(members: seq<Member>)

  datatype Member = Member(key: string, value: Json)

  /** Whitespace allowed between JSON tokens (narrower than JavaScript's `\s`). */
  predicate IsJsonSpace(c: char)
  {
    c == ' ' || c == '\t' || c == '\n' || c == '\r'
  }

  predicate AllJsonSpace(s: string)
  {
    forall i :: 0 <= i < |s| ==> IsJsonSpace(s[i])
  }

  predicate IsDigit(c: char)
  {
    '0' <= c <= '9'
  }

  function SkipSpace(s: string): (r: string)
    ensures |r| <= |s|
    ensures |r| == 0 || !IsJsonSpace(r[0])
  {
    if |s| > 0 && IsJsonSpace(s[0]) then SkipSpace(s[1..]) else s
  }

  // ---------------------------------------------------------------- numbers

  /** The end of the run of digits that starts at `i`. */
  function DigitsEnd(s: string, i: nat): (j: nat)
    requires i <= |s|
    ensures i <= j <= |s|
    ensures forall k :: i <= k < j ==> IsDigit(s[k])
    ensures j == |s| || !IsDigit(s[j])
    decreases |s| - i
  {
    if i < |s| && IsDigit(s[i]) then DigitsEnd(s, i + 1) else i
  }

  /** The optional exponent `[eE][+-]?[0-9]+` starting at `j`; the end of the number. */
  function ScanExponent(s: string, j: nat): (r: Option<nat>)
    requires j <= |s|
    ensures r.Some? ==> j <= r.value <= |s|
  {
    if j < |s| && (s[j] == 'e' || s[j] == 'E') then
      var k := if j + 1 < |s| && (s[j + 1] == '+' || s[j + 1] == '-') then j + 2 else j + 1;
      var m := DigitsEnd(s, k);
      if m == k then None else Some(m)
    else Some(j)
  }

  /** The integer part `-?(0|[1-9][0-9]*)` at the start of `s`; its end. */
  function ScanInteger(s: string): (r: Option<nat>)
    ensures r.Some? ==> 0 < r.value <= |s|
  {
    var i := if |s| > 0 && s[0] == '-' then 1 else 0;
    if i >= |s| || !IsDigit(s[i]) then None
    else if s[i] == '0' then Some(i + 1)
    else Some(DigitsEnd(s, i + 1))
  }

  /** The optional fraction `\.[0-9]+` starting at `j`; its end. */
  function ScanFraction(s: string, j: nat): (r: Option<nat>)
    requires j <= |s|
    ensures r.Some? ==> j <= r.value <= |s|
  {
    if j < |s| && s[j] == '.' then
      var k := DigitsEnd(s, j + 1);
      if k == j + 1 then None else Some(k)
    else Some(j)
  }

  /** The length of the number `-?(0|[1-9][0-9]*)(\.[0-9]+)?([eE][+-]?[0-9]+)?`
      at the start of `s`, if one is there. */
  function ScanNumber(s: string): (r: Option<nat>)
    ensures r.Some? ==> 0 < r.value <= |s|
  {
    match ScanInteger(s)
    case None => None
    case Some(j) =>
      match ScanFraction(s, j)
      case None => None
      case Some(k) => ScanExponent(s, k)
  }

  /** `t` is exactly one JSON number. */
  predicate IsNumberText(t: string)
  {
    ScanNumber(t) == Some(|t|)
  }

  // ---------------------------------------------------------------- strings

  function HexValue(c: char): int
  {
    if '0' <= c <= '9' then c as int - '0' as int
    else if 'a' <= c <= 'f' then c as int - 'a' as int + 10
    else if 'A' <= c <= 'F' then c as int - 'A' as int + 10
    else -1
  }

  /** Four hexadecimal digits, as in `\uXXXX`. */
  function Hex4(s: string): (r: Option<nat>)
    ensures r.Some? ==> r.value < 0x10000
  {
    if |s| < 4 || HexValue(s[0]) < 0 || HexValue(s[1]) < 0 || HexValue(s[2]) < 0 || HexValue(s[3]) < 0
    then None
    else Some(((HexValue(s[0]) * 16 + HexValue(s[1])) * 16 + HexValue(s[2])) * 16 + HexValue(s[3]))
  }

  /** The escape after a backslash; a high and a low surrogate escape in a row
      make one character. */
  function ParseEscape(s: string): (r: Option<(char, string)>)
    ensures r.Some? ==> |r.value.1| < |s|
  {
    if |s| == 0 then None
    else if s[0] == '"' then Some(('"', s[1..]))
    else if s[0] == '\\' then Some(('\\', s[1..]))
    else if s[0] == '/' then Some(('/', s[1..]))
    else if s[0] == 'b' then Some(('\U{8}', s[1..]))
    else if s[0] == 'f' then Some(('\U{C}', s[1..]))
    else if s[0] == 'n' then Some(('\n', s[1..]))
    else if s[0] == 'r' then Some(('\r', s[1..]))
    else if s[0] == 't' then Some(('\t', s[1..]))
    else if s[0] == 'u' && |s| >= 5 && Hex4(s[1..5]).Some? then
      var h := Hex4(s[1..5]).value;
      if h < 0xD800 || 0xE000 <= h then Some((h as char, s[5..]))
      else if h < 0xDC00 && |s| >= 11 && s[5] == '\\' && s[6] == 'u' && Hex4(s[7..11]).Some?
              && 0xDC00 <= Hex4(s[7..11]).value < 0xE000 then
        var lo := Hex4(s[7..11]).value;
        Some(((0x10000 + (h - 0xD800) * 0x400 + (lo - 0xDC00)) as char, s[11..]))
      else None
    else None
  }

  /** The characters of a string literal whose opening quote is already read,
      and the text after its closing quote. */
  function ParseString(s: string): (r: Option<(string, string)>)
    ensures r.Some? ==> |r.value.1| < |s|
    decreases |s|
  {
    if |s| == 0 then None
    else if s[0] == '"' then Some(("", s[1..]))
    else if s[0] == '\\' then
      match ParseEscape(s[1..])
      case None => None
      case Some((c, after)) =>
        match ParseString(after)
        case None => None
        case Some((t, rest)) => Some(([c] + t, rest))
    else if s[0] < ' ' then None
    else
      match ParseString(s[1..])
      case None => None
      case Some((t, rest)) => Some(([s[0]] + t, rest))
  }

  // ---------------------------------------------------------------- values

  /** One value at the very start of `s`, and the text after it. */
  function ParseValue(s: string): (r: Option<(Json, string)>)
    ensures r.Some? ==> |r.value.1| < |s|
    decreases |s|, 0
  {
    if |s| == 0 then None
    else if s[0] == '[' then ParseArray(SkipSpace(s[1..]))
    else if s[0] == '{' then ParseObject(SkipSpace(s[1..]))
    else if s[0] == '"' then
      match ParseString(s[1..])
      case None => None
      case Some((t, rest)) => Some((JStr(t), rest))
    else if |s| >= 4 && s[..4] == "true" then Some((JBool(true), s[4..]))
    else if |s| >= 5 && s[..5] == "false" then Some((JBool(false), s[5..]))
    else if |s| >= 4 && s[..4] == "null" then Some((JNull, s[4..]))
    else
      match ScanNumber(s)
      case None => None
      case Some(k) => Some((JNum(s[..k]), s[k..]))
  }

  /** An array whose `[` and the whitespace after it are already read. */
  function ParseArray(s: string): (r: Option<(Json, string)>)
    ensures r.Some? ==> |r.value.1| < |s|
    decreases |s|, 2
  {
    if |s| > 0 && s[0] == ']' then Some((JArr([]), s[1..]))
    else
      match ParseElements(s)
      case None => None
      case Some((es, rest)) => Some((JArr(es), rest))
  }

  /** One or more comma-separated values and the closing `]`. */
  function ParseElements(s: string): (r: Option<(seq<Json>, string)>)
    ensures r.Some? ==> |r.value.1| < |s| && |r.value.0| >= 1
    decreases |s|, 1
  {
    match ParseValue(s)
    case None => None
    case Some((v, after)) =>
      var t := SkipSpace(after);
      if |t| > 0 && t[0] == ',' then
        match ParseElements(SkipSpace(t[1..]))
        case None => None
        case Some((vs, rest)) => Some(([v] + vs, rest))
      else if |t| > 0 && t[0] == ']' then Some(([v], t[1..]))
      else None
  }

  /** An object whose `{` and the whitespace after it are already read. */
  function ParseObject(s: string): (r: Option<(Json, string)>)
    ensures r.Some? ==> |r.value.1| < |s|
    decreases |s|, 2
  {
    if |s| > 0 && s[0] == '}' then Some((JObj([]), s[1..]))
    else
      match ParseMembers(s)
      case None => None
      case Some((ms, rest)) => Some((JObj(ms), rest))
  }

  /** One or more comma-separated `"key": value` members and the closing `}`. */
  function ParseMembers(s: string): (r: Option<(seq<Member>, string)>)
    ensures r.Some? ==> |r.value.1| < |s|
    decreases |s|, 1
  {
    if |s| == 0 || s[0] != '"' then None
    else
      match ParseString(s[1..])
      case None => None
      case Some((key, afterKey)) =>
        var t := SkipSpace(afterKey);
        if |t| == 0 || t[0] != ':' then None
        else
          match ParseValue(SkipSpace(t[1..]))
          case None => None
          case Some((v, afterValue)) =>
            var u := SkipSpace(afterValue);
            if |u| > 0 && u[0] == ',' then
              match ParseMembers(SkipSpace(u[1..]))
              case None => None
              case Some((ms, rest)) => Some(([Member(key, v)] + ms, rest))
            else if |u| > 0 && u[0] == '}' then Some(([Member(key, v)], u[1..]))
            else None
  }

  /** `JSON.parse(s)`: one value surrounded only by whitespace; `None` where
      `JSON.parse` throws. */
  function Decode(s: string): Option<Json>
  {
    match ParseValue(SkipSpace(s))
    case None => None
    case Some((v, rest)) => if SkipSpace(rest) == "" then Some(v) else None
  }

  // ---------------------------------------------------------------- printing

  /** A lower-case hexadecimal digit. */
  function HexDigit(d: nat): (c: char)
    requires d < 16
    ensures HexValue(c) == d
  {
    if d < 10 then ('0' as int + d) as char else ('a' as int + d - 10) as char
  }

  /** How `JSON.stringify` writes one character inside a string literal. */
  function EscapeChar(c: char): string
  {
    if c == '"' then "\\\""
    else if c == '\\' then "\\\\"
    else if c == '\U{8}' then "\\b"
    else if c == '\U{C}' then "\\f"
    else if c == '\n' then "\\n"
    else if c == '\r' then "\\r"
    else if c == '\t' then "\\t"
    else if c < ' ' then "\\u00" + [HexDigit(c as int / 16), HexDigit(c as int % 16)]
    else [c]
  }

  function EscapeChars(s: string): string
  {
    if |s| == 0 then "" else EscapeChar(s[0]) + EscapeChars(s[1..])
  }

  /** A string literal. */
  function Quote(s: string): string
  {
    "\"" + EscapeChars(s) + "\""
  }

  /** The line break and indentation `JSON.stringify` puts between items:
      nothing when the gap is empty. */
  function Break(gap: string, indent: string): string
  {
    if gap == "" then "" else "\n" + indent
  }

  /** `JSON.stringify(v, null, gap)` at the given current indentation. */
  function Serialize(v: Json, gap: string, indent: string): string
    decreases v
  {
    match v
    case JNull => "null"
    case JBool(b) => if b then "true" else "false"
    case JNum(lexeme) => lexeme
    case JStr(t) => Quote(t)
    case JArr(es) =>
      if |es| == 0 then "[]"
      else "[" + Break(gap, indent + gap) + SerializeElems(es, gap, indent + gap) + Break(gap, indent) + "]"
    case JObj(ms) =>
      if |ms| == 0 then "{}"
      else "{" + Break(gap, indent + gap) + SerializeMembers(ms, gap, indent + gap) + Break(gap, indent) + "}"
  }

  function SerializeElems(es: seq<Json>, gap: string, indent: string): string
    decreases es
  {
    if |es| == 0 then ""
    else if |es| == 1 then Serialize(es[0], gap, indent)
    else Serialize(es[0], gap, indent) + "," + Break(gap, indent) + SerializeElems(es[1..], gap, indent)
  }

  function SerializeMember(m: Member, gap: string, indent: string): string
    decreases m
  {
    Quote(m.key) + ":" + (if gap == "" then "" else " ") + Serialize(m.value, gap, indent)
  }

  function SerializeMembers(ms: seq<Member>, gap: string, indent: string): string
    decreases ms
  {
    if |ms| == 0 then ""
    else if |ms| == 1 then SerializeMember(ms[0], gap, indent)
    else SerializeMember(ms[0], gap, indent) + "," + Break(gap, indent) + SerializeMembers(ms[1..], gap, indent)
  }

  /** `JSON.stringify(v)`. */
  function Stringify(v: Json): string
  {
    Serialize(v, "", "")
  }

  // ---------------------------------------------------------------- reading values

  /** Every number in `v` is written as one JSON number; true of everything
      `Decode` returns. */
  predicate WellFormed(v: Json)
    decreases v
  {
    match v
    case JNum(lexeme) => IsNumberText(lexeme)
    case JArr(es) => forall i :: 0 <= i < |es| ==> WellFormed(es[i])
    case JObj(ms) => forall i :: 0 <= i < |ms| ==> WellFormed(ms[i].value)
    case _ => true
  }

  /** `obj[key]` on a parsed object: the last member with that key wins, as
      `JSON.parse` overwrites duplicates. */
  function Lookup(ms: seq<Member>, key: string): (r: Option<Json>)
    ensures r.Some? ==> exists i :: 0 <= i < |ms| && ms[i] == Member(key, r.value)
    ensures r.None? ==> forall i :: 0 <= i < |ms| ==> ms[i].key != key
  {
    if |ms| == 0 then None
    else if ms[|ms| - 1].key == key then Some(ms[|ms| - 1].value)
    else Lookup(ms[..|ms| - 1], key)
  }

  /** A key that occurs once is found at its one position. */
  lemma {:induction false} LookupUnique(ms: seq<Member>, i: nat)
    requires i < |ms|
    requires forall j :: 0 <= j < |ms| && j != i ==> ms[j].key != ms[i].key
    ensures Lookup(ms, ms[i].key) == Some(ms[i].value)
    decreases |ms|
  {
    if i < |ms| - 1 {
      var init := ms[..|ms| - 1];
      assert forall j :: 0 <= j < |init| && j != i ==> init[j].key != init[i].key;
      LookupUnique(init, i);
    }
  }

  /** `v.key` for any value: only objects have own properties here. */
  function Property(v: Json, key: string): Option<Json>
  {
    if v.JObj? then Lookup(v.members, key) else None
  }

  /** The digits before the exponent of a number are all zero. */
  predicate IsZeroNumber(lexeme: string)
  {
    forall i :: 0 <= i < |lexeme| && (forall k :: 0 <= k <= i ==> lexeme[k] != 'e' && lexeme[k] != 'E')
      ==> !('1' <= lexeme[i] <= '9')
  }

  /** JavaScript truthiness of a parsed value. */
  predicate Truthy(v: Json)
  {
    match v
    case JNull => false
    case JBool(b) => b
    case JNum(lexeme) => !IsZeroNumber(lexeme)
    case JStr(t) => |t| > 0
    case _ => true
  }

  /** `v || fallback` on an optional property value (`undefined` is falsy). */
  function OrElse(v: Option<Json>, fallback: Json): Json
  {
    if v.Some? && Truthy(v.value) then v.value else fallback
  }
}
