/** `JSON.parse` reads back exactly what `JSON.stringify` wrote, with or
    without indentation, and everything it returns is well formed. */
module JsonRoundTrip {
  import opened Options
  import opened Json

  /** What may follow a value in serialised text without extending it. */
  predicate Delimited(rest: string)
  {
    |rest| == 0 || rest[0] == ',' || rest[0] == ']' || rest[0] == '}' || IsJsonSpace(rest[0])
  }

  lemma {:induction false} SkipSpaceOver(w: string, t: string)
    requires AllJsonSpace(w)
    requires |t| == 0 || !IsJsonSpace(t[0])
    ensures SkipSpace(w + t) == t
    decreases |w|
  {
    if |w| > 0 {
      assert (w + t)[1..] == w[1..] + t;
      SkipSpaceOver(w[1..], t);
    } else {
      assert w + t == t;
    }
  }

  lemma BreakIsSpace(gap: string, indent: string)
    requires AllJsonSpace(indent)
    ensures AllJsonSpace(Break(gap, indent))
  {
  }

  // ---------------------------------------------------------------- numbers

  /** Cutting a text at `n` cuts its digit runs at `n`. */
  lemma {:induction false} DigitsEndPrefix(s: string, n: nat, i: nat)
    requires i <= n <= |s|
    ensures DigitsEnd(s[..n], i) == if DigitsEnd(s, i) <= n then DigitsEnd(s, i) else n
    decreases n - i
  {
    if i < n && IsDigit(s[i]) {
      DigitsEndPrefix(s, n, i + 1);
    }
  }

  /** A digit run that stops before `n` is the same in the text cut at `n`. */
  lemma DigitsStop(s: string, n: nat, i: nat)
    requires i <= n <= |s|
    requires n == |s| || !IsDigit(s[n])
    ensures DigitsEnd(s, i) <= n
    ensures DigitsEnd(s[..n], i) == DigitsEnd(s, i)
  {
    DigitsEndPrefix(s, n, i);
  }

  lemma ExponentThenDelimiter(t: string, rest: string, m: nat)
    requires m <= |t| && ScanExponent(t, m) == Some(|t|) && Delimited(rest)
    ensures ScanExponent(t + rest, m) == Some(|t|)
  {
    var s := t + rest;
    assert s[..|t|] == t;
    if m < |t| {
      assert t[m] == 'e' || t[m] == 'E';
      var kk := if m + 1 < |t| && (t[m + 1] == '+' || t[m + 1] == '-') then m + 2 else m + 1;
      assert kk < |t|;
      DigitsStop(s, |t|, kk);
    }
  }

  lemma IntegerThenDelimiter(t: string, rest: string, j: nat)
    requires ScanInteger(t) == Some(j) && Delimited(rest)
    ensures ScanInteger(t + rest) == Some(j)
  {
    var s := t + rest;
    assert s[..|t|] == t;
    var i := if s[0] == '-' then 1 else 0;
    if s[i] != '0' {
      DigitsStop(s, |t|, i + 1);
    }
  }

  lemma FractionThenDelimiter(t: string, rest: string, j: nat, k: nat)
    requires j <= |t| && ScanFraction(t, j) == Some(k) && Delimited(rest)
    ensures ScanFraction(t + rest, j) == Some(k)
  {
    var s := t + rest;
    assert s[..|t|] == t;
    if j < |t| && t[j] == '.' {
      DigitsStop(s, |t|, j + 1);
    }
  }

  /** A number followed by a delimiter is scanned up to the delimiter. */
  lemma NumberThenDelimiter(t: string, rest: string)
    requires IsNumberText(t) && Delimited(rest)
    ensures ScanNumber(t + rest) == Some(|t|)
  {
    var j := ScanInteger(t).value;
    var k := ScanFraction(t, j).value;
    IntegerThenDelimiter(t, rest, j);
    FractionThenDelimiter(t, rest, j, k);
    ExponentThenDelimiter(t, rest, k);
  }

  lemma IntegerPrefix(s: string, j: nat, n: nat)
    requires ScanInteger(s) == Some(j) && j <= n <= |s|
    ensures ScanInteger(s[..n]) == Some(j)
  {
    var i := if s[0] == '-' then 1 else 0;
    if s[i] != '0' {
      DigitsEndPrefix(s, n, i + 1);
    }
  }

  lemma FractionPrefix(s: string, j: nat, k: nat, n: nat)
    requires j <= k <= n <= |s| && ScanFraction(s, j) == Some(k)
    ensures ScanFraction(s[..n], j) == Some(k)
  {
    if j < |s| && s[j] == '.' {
      DigitsEndPrefix(s, n, j + 1);
    }
  }

  lemma ExponentPrefix(s: string, m: nat, k: nat)
    requires m <= k <= |s| && ScanExponent(s, m) == Some(k)
    ensures ScanExponent(s[..k], m) == Some(k)
  {
    var t := s[..k];
    if m < |s| && (s[m] == 'e' || s[m] == 'E') {
      var kk := if m + 1 < |s| && (s[m + 1] == '+' || s[m + 1] == '-') then m + 2 else m + 1;
      assert kk < k;
      assert kk == if m + 1 < |t| && (t[m + 1] == '+' || t[m + 1] == '-') then m + 2 else m + 1;
      DigitsEndPrefix(s, k, kk);
    }
  }

  /** The number `ScanNumber` finds is a number on its own. */
  lemma NumberPrefix(s: string)
    requires ScanNumber(s).Some?
    ensures IsNumberText(s[..ScanNumber(s).value])
  {
    var n := ScanNumber(s).value;
    var j := ScanInteger(s).value;
    var k := ScanFraction(s, j).value;
    IntegerPrefix(s, j, n);
    FractionPrefix(s, j, k, n);
    ExponentPrefix(s, k, n);
  }

  // ---------------------------------------------------------------- strings

  lemma EscapeCharRoundTrip(c: char, t: string)
    requires ParseString(t).Some?
    ensures ParseString(EscapeChar(c) + t) == Some(([c] + ParseString(t).value.0, ParseString(t).value.1))
  {
    if c == '"' || c == '\\' || c == '\U{8}' || c == '\U{C}' || c == '\n' || c == '\r' || c == '\t' {
      ShortEscapeRoundTrip(c, t);
    } else if c < ' ' {
      UnicodeEscapeRoundTrip(c, t);
    } else {
      var s := EscapeChar(c) + t;
      assert s[1..] == t;
    }
  }

  lemma ShortEscapeRoundTrip(c: char, t: string)
    requires c == '"' || c == '\\' || c == '\U{8}' || c == '\U{C}' || c == '\n' || c == '\r' || c == '\t'
    requires ParseString(t).Some?
    ensures ParseString(EscapeChar(c) + t) == Some(([c] + ParseString(t).value.0, ParseString(t).value.1))
  {
    var s := EscapeChar(c) + t;
    var e := s[1..];
    assert e == [EscapeChar(c)[1]] + t;
    assert ParseEscape(e) == Some((c, t)) by {
      assert e[1..] == t;
    }
    ParseStringEscape(s, c, t);
  }

  lemma UnicodeEscapeRoundTrip(c: char, t: string)
    requires c < ' ' && c != '\U{8}' && c != '\U{C}' && c != '\n' && c != '\r' && c != '\t'
    requires ParseString(t).Some?
    ensures ParseString(EscapeChar(c) + t) == Some(([c] + ParseString(t).value.0, ParseString(t).value.1))
  {
    var s := EscapeChar(c) + t;
    var h1, h0 := HexDigit(c as int / 16), HexDigit(c as int % 16);
    assert s == ['\\', 'u', '0', '0', h1, h0] + t;
    var e := s[1..];
    assert e == ['u', '0', '0', h1, h0] + t;
    assert ParseEscape(e) == Some((c, t)) by {
      assert e[1..5] == ['0', '0', h1, h0];
      assert Hex4(e[1..5]) == Some(c as int);
      assert (c as int) as char == c;
      assert e[5..] == t;
    }
    ParseStringEscape(s, c, t);
  }

  lemma ParseStringEscape(s: string, c: char, after: string)
    requires |s| > 0 && s[0] == '\\' && ParseEscape(s[1..]) == Some((c, after))
    requires ParseString(after).Some?
    ensures ParseString(s) == Some(([c] + ParseString(after).value.0, ParseString(after).value.1))
  {
  }

  lemma {:induction false} EscapeCharsRoundTrip(str: string, rest: string)
    ensures ParseString(EscapeChars(str) + "\"" + rest) == Some((str, rest))
    decreases |str|
  {
    if |str| == 0 {
      assert EscapeChars(str) + "\"" + rest == "\"" + rest;
      assert ("\"" + rest)[1..] == rest;
    } else {
      EscapeCharsRoundTrip(str[1..], rest);
      EscapeCharRoundTrip(str[0], EscapeChars(str[1..]) + "\"" + rest);
      assert EscapeChars(str) + "\"" + rest == EscapeChar(str[0]) + (EscapeChars(str[1..]) + "\"" + rest);
      assert [str[0]] + str[1..] == str;
    }
  }

  lemma QuoteRoundTrip(str: string, rest: string)
    ensures ParseValue(Quote(str) + rest) == Some((JStr(str), rest))
  {
    var s := Quote(str) + rest;
    assert s == "\"" + (EscapeChars(str) + "\"" + rest);
    assert s[1..] == EscapeChars(str) + "\"" + rest;
    EscapeCharsRoundTrip(str, rest);
  }

  // ---------------------------------------------------------------- parser steps

  lemma ParseOpenBracket(s: string)
    requires |s| > 0 && s[0] == '['
    ensures ParseValue(s) == ParseArray(SkipSpace(s[1..]))
  {
  }

  lemma ParseOpenBrace(s: string)
    requires |s| > 0 && s[0] == '{'
    ensures ParseValue(s) == ParseObject(SkipSpace(s[1..]))
  {
  }

  lemma ParseArrayElements(x: string, es: seq<Json>, r: string)
    requires |x| > 0 && x[0] != ']' && ParseElements(x) == Some((es, r))
    ensures ParseArray(x) == Some((JArr(es), r))
  {
  }

  lemma ParseObjectMembers(x: string, ms: seq<Member>, r: string)
    requires |x| > 0 && x[0] != '}' && ParseMembers(x) == Some((ms, r))
    ensures ParseObject(x) == Some((JObj(ms), r))
  {
  }

  lemma ParseElementsLast(x: string, v: Json, after: string)
    requires ParseValue(x) == Some((v, after))
    requires |SkipSpace(after)| > 0 && SkipSpace(after)[0] == ']'
    ensures ParseElements(x) == Some(([v], SkipSpace(after)[1..]))
  {
  }

  lemma ParseElementsNext(x: string, v: Json, after: string, vs: seq<Json>, r: string)
    requires ParseValue(x) == Some((v, after))
    requires |SkipSpace(after)| > 0 && SkipSpace(after)[0] == ','
    requires ParseElements(SkipSpace(SkipSpace(after)[1..])) == Some((vs, r))
    ensures ParseElements(x) == Some(([v] + vs, r))
  {
  }

  /** The key, the colon and the value of one member; `after` follows the value. */
  predicate MemberAt(x: string, m: Member, after: string)
  {
    |x| > 0 && x[0] == '"' && ParseString(x[1..]).Some? && ParseString(x[1..]).value.0 == m.key
    && var t := SkipSpace(ParseString(x[1..]).value.1);
    |t| > 0 && t[0] == ':' && ParseValue(SkipSpace(t[1..])) == Some((m.value, after))
  }

  lemma ParseMembersLast(x: string, m: Member, after: string)
    requires MemberAt(x, m, after)
    requires |SkipSpace(after)| > 0 && SkipSpace(after)[0] == '}'
    ensures ParseMembers(x) == Some(([m], SkipSpace(after)[1..]))
  {
  }

  lemma ParseMembersNext(x: string, m: Member, after: string, ms: seq<Member>, r: string)
    requires MemberAt(x, m, after)
    requires |SkipSpace(after)| > 0 && SkipSpace(after)[0] == ','
    requires ParseMembers(SkipSpace(SkipSpace(after)[1..])) == Some((ms, r))
    ensures ParseMembers(x) == Some(([m] + ms, r))
  {
  }

  // ---------------------------------------------------------------- values

  /** Serialised text starts with a character that is not whitespace. */
  lemma SerializeStart(v: Json, gap: string, indent: string)
    requires WellFormed(v)
    ensures |Serialize(v, gap, indent)| > 0
    ensures !IsJsonSpace(Serialize(v, gap, indent)[0])
    ensures Serialize(v, gap, indent)[0] != ']' && Serialize(v, gap, indent)[0] != '}'
  {
    if v.JNum? {
      assert ScanNumber(v.lexeme).Some?;
    }
  }

  lemma SerializeElemsStart(es: seq<Json>, gap: string, indent: string)
    requires |es| >= 1 && WellFormed(es[0])
    ensures |SerializeElems(es, gap, indent)| > 0
    ensures !IsJsonSpace(SerializeElems(es, gap, indent)[0])
    ensures SerializeElems(es, gap, indent)[0] != ']'
  {
    SerializeStart(es[0], gap, indent);
  }

  lemma SerializeMembersStart(ms: seq<Member>, gap: string, indent: string)
    requires |ms| >= 1
    ensures |SerializeMembers(ms, gap, indent)| > 0
    ensures SerializeMembers(ms, gap, indent)[0] == '"'
  {
  }

  /** A value serialised in front of a delimiter is parsed back, and
      parsing stops at the delimiter. */
  lemma {:induction false} ValueRoundTrip(v: Json, gap: string, indent: string, rest: string)
    requires WellFormed(v) && AllJsonSpace(gap) && AllJsonSpace(indent) && Delimited(rest)
    ensures ParseValue(Serialize(v, gap, indent) + rest) == Some((v, rest))
    decreases v, 1
  {
    match v
    case JNull => LiteralRoundTrip(v, "null", rest);
    case JBool(b) => LiteralRoundTrip(v, if b then "true" else "false", rest);
    case JNum(lexeme) => NumberRoundTrip(lexeme, rest);
    case JStr(t) => QuoteRoundTrip(t, rest);
    case JArr(es) => ArrayRoundTrip(es, gap, indent, rest);
    case JObj(ms) => ObjectRoundTrip(ms, gap, indent, rest);
  }

  lemma LiteralRoundTrip(v: Json, word: string, rest: string)
    requires (v == JNull && word == "null") || (v == JBool(true) && word == "true")
      || (v == JBool(false) && word == "false")
    ensures ParseValue(word + rest) == Some((v, rest))
  {
    var s := word + rest;
    assert s[..|word|] == word && s[|word|..] == rest;
  }

  lemma NumberRoundTrip(lexeme: string, rest: string)
    requires IsNumberText(lexeme) && Delimited(rest)
    ensures ParseValue(lexeme + rest) == Some((JNum(lexeme), rest))
  {
    var s := lexeme + rest;
    NumberThenDelimiter(lexeme, rest);
    assert s[..|lexeme|] == lexeme && s[|lexeme|..] == rest;
    ParseNumber(s, |lexeme|);
  }

  lemma ParseNumber(s: string, k: nat)
    requires ScanNumber(s) == Some(k)
    ensures ParseValue(s) == Some((JNum(s[..k]), s[k..]))
  {
    assert s[0] == '-' || IsDigit(s[0]);
    NotKeyword(s);
  }

  /** Text starting with a sign or a digit is no literal name. */
  lemma NotKeyword(s: string)
    requires |s| > 0 && (s[0] == '-' || IsDigit(s[0]))
    ensures s[0] != '[' && s[0] != '{' && s[0] != '"'
    ensures !(|s| >= 4 && s[..4] == "true")
    ensures !(|s| >= 5 && s[..5] == "false")
    ensures !(|s| >= 4 && s[..4] == "null")
  {
    if |s| >= 4 {
      assert s[..4][0] == s[0];
    }
    if |s| >= 5 {
      assert s[..5][0] == s[0];
    }
  }

  lemma {:induction false} ArrayRoundTrip(es: seq<Json>, gap: string, indent: string, rest: string)
    requires WellFormed(JArr(es)) && AllJsonSpace(gap) && AllJsonSpace(indent) && Delimited(rest)
    ensures ParseValue(Serialize(JArr(es), gap, indent) + rest) == Some((JArr(es), rest))
    decreases JArr(es), 0
  {
    var s := Serialize(JArr(es), gap, indent) + rest;
    if |es| == 0 {
      EmptyRoundTrip('[', ']', JArr([]), rest);
    } else {
      var inner := indent + gap;
      var body := SerializeElems(es, gap, inner);
      var closing := Break(gap, indent);
      assert AllJsonSpace(inner);
      BreakIsSpace(gap, inner);
      BreakIsSpace(gap, indent);
      ArrayText(es, gap, indent, rest);
      SerializeElemsStart(es, gap, inner);
      ElemsRoundTrip(es, gap, inner, closing, rest);
      OpenArray(Break(gap, inner), body + (closing + "]" + rest), es, rest);
    }
  }

  lemma {:induction false} ObjectRoundTrip(ms: seq<Member>, gap: string, indent: string, rest: string)
    requires WellFormed(JObj(ms)) && AllJsonSpace(gap) && AllJsonSpace(indent) && Delimited(rest)
    ensures ParseValue(Serialize(JObj(ms), gap, indent) + rest) == Some((JObj(ms), rest))
    decreases JObj(ms), 0
  {
    var s := Serialize(JObj(ms), gap, indent) + rest;
    if |ms| == 0 {
      EmptyRoundTrip('{', '}', JObj([]), rest);
    } else {
      var inner := indent + gap;
      var body := SerializeMembers(ms, gap, inner);
      var closing := Break(gap, indent);
      assert AllJsonSpace(inner);
      BreakIsSpace(gap, inner);
      BreakIsSpace(gap, indent);
      ObjectText(ms, gap, indent, rest);
      SerializeMembersStart(ms, gap, inner);
      MembersRoundTrip(ms, gap, inner, closing, rest);
      OpenObject(Break(gap, inner), body + (closing + "}" + rest), ms, rest);
    }
  }

  lemma Assoc5(a: string, b: string, c: string, d: string, e: string)
    ensures a + b + c + d + e == a + (b + (c + (d + e)))
  {
  }

  /** A non-empty array's text: bracket, break, elements, break, bracket. */
  lemma ArrayText(es: seq<Json>, gap: string, indent: string, rest: string)
    requires |es| > 0
    ensures Serialize(JArr(es), gap, indent) + rest
      == "[" + (Break(gap, indent + gap) + (SerializeElems(es, gap, indent + gap) + (Break(gap, indent) + "]" + rest)))
  {
    var b1, body, b2 := Break(gap, indent + gap), SerializeElems(es, gap, indent + gap), Break(gap, indent);
    assert Serialize(Json.JArr(es), gap, indent) == "[" + b1 + body + (b2 + "]");
    Assoc5("[", b1, body, b2 + "]", rest);
  }

  /** A non-empty object's text: brace, break, members, break, brace. */
  lemma ObjectText(ms: seq<Member>, gap: string, indent: string, rest: string)
    requires |ms| > 0
    ensures Serialize(JObj(ms), gap, indent) + rest
      == "{" + (Break(gap, indent + gap) + (SerializeMembers(ms, gap, indent + gap) + (Break(gap, indent) + "}" + rest)))
  {
    var b1, body, b2 := Break(gap, indent + gap), SerializeMembers(ms, gap, indent + gap), Break(gap, indent);
    assert Serialize(Json.JObj(ms), gap, indent) == "{" + b1 + body + (b2 + "}");
    Assoc5("{", b1, body, b2 + "}", rest);
  }

  /** `[]` and `{}`. */
  lemma EmptyRoundTrip(open: char, close: char, v: Json, rest: string)
    requires (open == '[' && close == ']' && v == JArr([])) || (open == '{' && close == '}' && v == JObj([]))
    ensures ParseValue([open, close] + rest) == Some((v, rest))
  {
    var s := [open, close] + rest;
    assert s[1..] == [close] + rest;
    assert SkipSpace(s[1..]) == s[1..];
    assert ([close] + rest)[1..] == rest;
  }

  lemma OpenArray(brk: string, x: string, es: seq<Json>, rest: string)
    requires AllJsonSpace(brk) && |x| > 0 && !IsJsonSpace(x[0]) && x[0] != ']'
    requires ParseElements(x) == Some((es, rest))
    ensures ParseValue("[" + (brk + x)) == Some((JArr(es), rest))
  {
    var s := "[" + (brk + x);
    assert s[1..] == brk + x;
    SkipSpaceOver(brk, x);
    ParseOpenBracket(s);
    ParseArrayElements(x, es, rest);
  }

  lemma OpenObject(brk: string, x: string, ms: seq<Member>, rest: string)
    requires AllJsonSpace(brk) && |x| > 0 && x[0] == '"'
    requires ParseMembers(x) == Some((ms, rest))
    ensures ParseValue("{" + (brk + x)) == Some((JObj(ms), rest))
  {
    var s := "{" + (brk + x);
    assert s[1..] == brk + x;
    SkipSpaceOver(brk, x);
    ParseOpenBrace(s);
    ParseObjectMembers(x, ms, rest);
  }

  /** Whitespace and then a closing bracket may follow a value. */
  lemma CloseDelimited(closing: string, bracket: char, rest: string)
    requires AllJsonSpace(closing) && (bracket == ']' || bracket == '}')
    ensures Delimited(closing + [bracket] + rest)
    ensures SkipSpace(closing + [bracket] + rest) == [bracket] + rest
  {
    assert closing + [bracket] + rest == closing + ([bracket] + rest);
    SkipSpaceOver(closing, [bracket] + rest);
  }

  /** What follows an item that has a successor: the comma, a break, the successor. */
  lemma CommaDelimited(brk: string, tail: string)
    requires AllJsonSpace(brk) && |tail| > 0 && !IsJsonSpace(tail[0])
    ensures Delimited("," + brk + tail)
    ensures SkipSpace("," + brk + tail) == "," + brk + tail
    ensures SkipSpace(("," + brk + tail)[1..]) == tail
  {
    var y := brk + tail;
    var x := [','] + y;
    assert "," + brk + tail == x;
    CommaFirst(x, y);
    SkipSpaceOver(brk, tail);
  }

  lemma CommaFirst(x: string, y: string)
    requires x == [','] + y
    ensures Delimited(x) && SkipSpace(x) == x && x[1..] == y
  {
    assert x[0] == ',';
    NoLeadingSpace(x);
  }

  lemma NoLeadingSpace(x: string)
    requires |x| > 0 && !IsJsonSpace(x[0])
    ensures SkipSpace(x) == x
  {
  }

  lemma LastElement(y: string, v: Json, closing: string, rest: string)
    requires AllJsonSpace(closing)
    requires ParseValue(y + (closing + "]" + rest)) == Some((v, closing + "]" + rest))
    ensures ParseElements(y + (closing + "]" + rest)) == Some(([v], rest))
  {
    CloseDelimited(closing, ']', rest);
    assert ("]" + rest)[1..] == rest;
    ParseElementsLast(y + (closing + "]" + rest), v, closing + "]" + rest);
  }

  lemma NextElement(y: string, v: Json, brk: string, tail: string, vs: seq<Json>, rest: string)
    requires AllJsonSpace(brk) && |tail| > 0 && !IsJsonSpace(tail[0])
    requires ParseValue(y + ("," + brk + tail)) == Some((v, "," + brk + tail))
    requires ParseElements(tail) == Some((vs, rest))
    ensures ParseElements(y + ("," + brk + tail)) == Some(([v] + vs, rest))
  {
    CommaDelimited(brk, tail);
    ParseElementsNext(y + ("," + brk + tail), v, "," + brk + tail, vs, rest);
  }

  lemma LastMember(y: string, m: Member, closing: string, rest: string)
    requires AllJsonSpace(closing)
    requires MemberAt(y + (closing + "}" + rest), m, closing + "}" + rest)
    ensures ParseMembers(y + (closing + "}" + rest)) == Some(([m], rest))
  {
    CloseDelimited(closing, '}', rest);
    assert ("}" + rest)[1..] == rest;
    ParseMembersLast(y + (closing + "}" + rest), m, closing + "}" + rest);
  }

  lemma NextMember(y: string, m: Member, brk: string, tail: string, ms: seq<Member>, rest: string)
    requires AllJsonSpace(brk) && |tail| > 0 && !IsJsonSpace(tail[0])
    requires MemberAt(y + ("," + brk + tail), m, "," + brk + tail)
    requires ParseMembers(tail) == Some((ms, rest))
    ensures ParseMembers(y + ("," + brk + tail)) == Some(([m] + ms, rest))
  {
    CommaDelimited(brk, tail);
    ParseMembersNext(y + ("," + brk + tail), m, "," + brk + tail, ms, rest);
  }

  lemma {:induction false} ElemsRoundTrip(es: seq<Json>, gap: string, indent: string, closing: string, rest: string)
    requires |es| >= 1
    requires forall i :: 0 <= i < |es| ==> WellFormed(es[i])
    requires AllJsonSpace(gap) && AllJsonSpace(indent) && AllJsonSpace(closing)
    ensures ParseElements(SerializeElems(es, gap, indent) + (closing + "]" + rest)) == Some((es, rest))
    decreases es
  {
    var first := Serialize(es[0], gap, indent);
    var after := closing + "]" + rest;
    if |es| == 1 {
      assert SerializeElems(es, gap, indent) == first;
      CloseDelimited(closing, ']', rest);
      ValueRoundTrip(es[0], gap, indent, after);
      LastElement(first, es[0], closing, rest);
      assert es == [es[0]];
    } else {
      var brk := Break(gap, indent);
      var tail := SerializeElems(es[1..], gap, indent) + after;
      ElemsShape(es, gap, indent, after);
      BreakIsSpace(gap, indent);
      SerializeElemsStart(es[1..], gap, indent);
      CommaDelimited(brk, tail);
      ValueRoundTrip(es[0], gap, indent, "," + brk + tail);
      ElemsRoundTrip(es[1..], gap, indent, closing, rest);
      NextElement(first, es[0], brk, tail, es[1..], rest);
      assert [es[0]] + es[1..] == es;
    }
  }

  lemma ElemsShape(es: seq<Json>, gap: string, indent: string, after: string)
    requires |es| >= 2
    ensures SerializeElems(es, gap, indent) + after == Serialize(es[0], gap, indent)
      + ("," + Break(gap, indent) + (SerializeElems(es[1..], gap, indent) + after))
  {
  }

  lemma MembersShape(ms: seq<Member>, gap: string, indent: string, after: string)
    requires |ms| >= 2
    ensures SerializeMembers(ms, gap, indent) + after == SerializeMember(ms[0], gap, indent)
      + ("," + Break(gap, indent) + (SerializeMembers(ms[1..], gap, indent) + after))
  {
  }

  lemma {:induction false} MemberRoundTrip(m: Member, gap: string, indent: string, after: string)
    requires WellFormed(m.value) && AllJsonSpace(gap) && AllJsonSpace(indent) && Delimited(after)
    ensures MemberAt(SerializeMember(m, gap, indent) + after, m, after)
    decreases m, 0
  {
    var sp := if gap == "" then "" else " ";
    var valueText := Serialize(m.value, gap, indent);
    var afterKey := ":" + (sp + (valueText + after));
    MemberShape(m, gap, indent, after);
    EscapeCharsRoundTrip(m.key, afterKey);
    SerializeStart(m.value, gap, indent);
    ValueRoundTrip(m.value, gap, indent, after);
    MemberTail(SerializeMember(m, gap, indent) + after, m, afterKey, sp, valueText, after);
  }

  lemma MemberShape(m: Member, gap: string, indent: string, after: string)
    ensures SerializeMember(m, gap, indent) + after == "\"" + (EscapeChars(m.key) + "\""
      + (":" + ((if gap == "" then "" else " ") + (Serialize(m.value, gap, indent) + after))))
  {
  }

  lemma MemberTail(s: string, m: Member, afterKey: string, sp: string, valueText: string, after: string)
    requires s == "\"" + (EscapeChars(m.key) + "\"" + afterKey)
    requires ParseString(EscapeChars(m.key) + "\"" + afterKey) == Some((m.key, afterKey))
    requires afterKey == ":" + (sp + (valueText + after)) && AllJsonSpace(sp)
    requires |valueText| > 0 && !IsJsonSpace(valueText[0])
    requires ParseValue(valueText + after) == Some((m.value, after))
    ensures MemberAt(s, m, after)
  {
    assert s[1..] == EscapeChars(m.key) + "\"" + afterKey;
    assert SkipSpace(afterKey) == afterKey;
    assert afterKey[1..] == sp + (valueText + after);
    SkipSpaceOver(sp, valueText + after);
  }

  lemma {:induction false} MembersRoundTrip(ms: seq<Member>, gap: string, indent: string, closing: string, rest: string)
    requires |ms| >= 1
    requires forall i :: 0 <= i < |ms| ==> WellFormed(ms[i].value)
    requires AllJsonSpace(gap) && AllJsonSpace(indent) && AllJsonSpace(closing)
    ensures ParseMembers(SerializeMembers(ms, gap, indent) + (closing + "}" + rest)) == Some((ms, rest))
    decreases ms
  {
    var first := SerializeMember(ms[0], gap, indent);
    var after := closing + "}" + rest;
    if |ms| == 1 {
      assert SerializeMembers(ms, gap, indent) == first;
      CloseDelimited(closing, '}', rest);
      MemberRoundTrip(ms[0], gap, indent, after);
      LastMember(first, ms[0], closing, rest);
      assert ms == [ms[0]];
    } else {
      var brk := Break(gap, indent);
      var tail := SerializeMembers(ms[1..], gap, indent) + after;
      MembersShape(ms, gap, indent, after);
      BreakIsSpace(gap, indent);
      SerializeMembersStart(ms[1..], gap, indent);
      CommaDelimited(brk, tail);
      MemberRoundTrip(ms[0], gap, indent, "," + brk + tail);
      MembersRoundTrip(ms[1..], gap, indent, closing, rest);
      NextMember(first, ms[0], brk, tail, ms[1..], rest);
      assert [ms[0]] + ms[1..] == ms;
    }
  }

  /** `JSON.parse(JSON.stringify(v, null, gap)) == v` for any whitespace gap. */
  lemma DecodeSerialize(v: Json, gap: string)
    requires WellFormed(v) && AllJsonSpace(gap)
    ensures Decode(Serialize(v, gap, "")) == Some(v)
  {
    var s := Serialize(v, gap, "");
    SerializeStart(v, gap, "");
    assert s + "" == s;
    ValueRoundTrip(v, gap, "", "");
  }

  /** `JSON.parse(JSON.stringify(v)) == v`. */
  lemma DecodeStringify(v: Json)
    requires WellFormed(v)
    ensures Decode(Stringify(v)) == Some(v)
  {
    DecodeSerialize(v, "");
  }

  // ---------------------------------------------------------------- what is read is well formed

  lemma {:induction false} ValueWellFormed(s: string)
    requires ParseValue(s).Some?
    ensures WellFormed(ParseValue(s).value.0)
    decreases |s|, 0
  {
    if s[0] == '[' {
      ArrayWellFormed(SkipSpace(s[1..]));
    } else if s[0] == '{' {
      ObjectWellFormed(SkipSpace(s[1..]));
    } else if s[0] != '"' && !(|s| >= 4 && s[..4] == "true") && !(|s| >= 5 && s[..5] == "false")
        && !(|s| >= 4 && s[..4] == "null") {
      NumberPrefix(s);
    }
  }

  lemma {:induction false} ArrayWellFormed(s: string)
    requires ParseArray(s).Some?
    ensures WellFormed(ParseArray(s).value.0)
    decreases |s|, 2
  {
    if !(|s| > 0 && s[0] == ']') {
      ElementsWellFormed(s);
    }
  }

  lemma {:induction false} ElementsWellFormed(s: string)
    requires ParseElements(s).Some?
    ensures forall i :: 0 <= i < |ParseElements(s).value.0| ==> WellFormed(ParseElements(s).value.0[i])
    decreases |s|, 1
  {
    ValueWellFormed(s);
    var (v, after) := ParseValue(s).value;
    var t := SkipSpace(after);
    if |t| > 0 && t[0] == ',' {
      ElementsWellFormed(SkipSpace(t[1..]));
    }
  }

  lemma {:induction false} ObjectWellFormed(s: string)
    requires ParseObject(s).Some?
    ensures WellFormed(ParseObject(s).value.0)
    decreases |s|, 2
  {
    if !(|s| > 0 && s[0] == '}') {
      MembersWellFormed(s);
    }
  }

  lemma {:induction false} MembersWellFormed(s: string)
    requires ParseMembers(s).Some?
    ensures forall i :: 0 <= i < |ParseMembers(s).value.0| ==> WellFormed(ParseMembers(s).value.0[i].value)
    decreases |s|, 1
  {
    var (key, afterKey) := ParseString(s[1..]).value;
    var t := SkipSpace(afterKey);
    var x := SkipSpace(t[1..]);
    ValueWellFormed(x);
    var (v, afterValue) := ParseValue(x).value;
    var u := SkipSpace(afterValue);
    if |u| > 0 && u[0] == ',' {
      MembersWellFormed(SkipSpace(u[1..]));
    }
  }

  /** Every value `JSON.parse` returns is well formed. */
  lemma DecodeWellFormed(s: string)
    ensures Decode(s).Some? ==> WellFormed(Decode(s).value)
  {
    if ParseValue(SkipSpace(s)).Some? {
      ValueWellFormed(SkipSpace(s));
    }
  }
}
