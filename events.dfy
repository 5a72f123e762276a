/** The NDJSON events the recognition endpoint streams to the browser
    (`sendProgress`, `sendError`, `sendResult`): one JSON object per event,
    each followed by a line feed. */
module Events {
  import opened Options
  import opened Text
  import opened Json
  import JsonRoundTrip

  /** The `metadata` of a result; the processing time is kept in hundredths of
      a second, the precision `toFixed(2)` leaves. */
  datatype Metadata = Metadata(concurrencyUsed: nat, validAttempts: nat, centis: nat)

  datatype Event =
    | Progress(percent: nat, message: string)
    | Failure(code: string, message: string)
    | Success(items: seq<Json>, metadata: Metadata)

  /** A natural number as `JSON.stringify` writes it. */
  function NumJson(n: nat): Json
  {
    JNum(NatToString(n))
  }

  /** `parseFloat(seconds.toFixed(2))` as `JSON.stringify` writes it: trailing
      zeros of the two decimals are dropped, and so is a bare point. */
  function SecondsText(centis: nat): string
  {
    var whole := NatToString(centis / 100);
    var f := centis % 100;
    if f == 0 then whole
    else if f % 10 == 0 then whole + "." + [DigitChar(f / 10)]
    else whole + "." + [DigitChar(f / 10), DigitChar(f % 10)]
  }

  function MetadataJson(m: Metadata): Json
  {
    JObj([Member("concurrencyUsed", NumJson(m.concurrencyUsed)),
          Member("validAttempts", NumJson(m.validAttempts)),
          Member("processingTime", JNum(SecondsText(m.centis)))])
  }

  /** The object each `send*` helper builds, members in the source's order. */
  function EventJson(ev: Event): Json
  {
    match ev
    case Progress(p, m) =>
      JObj([Member("type", JStr("progress")), Member("progress", NumJson(p)),
            Member("message", JStr(m)), Member("data", JNull)])
    case Failure(code, m) =>
      JObj([Member("type", JStr("error")),
            Member("error", JObj([Member("code", JStr(code)), Member("message", JStr(m))]))])
    case Success(items, md) =>
      JObj([Member("type", JStr("result")), Member("success", JBool(true)),
            Member("data", JObj([Member("items", JArr(items)), Member("metadata", MetadataJson(md))]))])
  }

  /** `JSON.stringify(data) + '\n'`. */
  function EncodeEvent(ev: Event): string
  {
    Stringify(EventJson(ev)) + "\n"
  }

  /** The whole response body: the events one after another. */
  function EncodeAll(evs: seq<Event>): string
  {
    if |evs| == 0 then "" else EncodeEvent(evs[0]) + EncodeAll(evs[1..])
  }

  function TypeName(ev: Event): string
  {
    match ev
    case Progress(_, _) => "progress"
    case Failure(_, _) => "error"
    case Success(_, _) => "result"
  }

  /** Every number an event carries is a JSON number. */
  predicate EventWellFormed(ev: Event)
  {
    ev.Success? ==> forall i :: 0 <= i < |ev.items| ==> WellFormed(ev.items[i])
  }

  // ---------------------------------------------------------------- numbers are JSON numbers

  lemma {:induction false} DigitsEndAt(s: string, i: nat, m: nat)
    requires i <= m <= |s|
    requires forall k :: i <= k < m ==> IsDigit(s[k])
    requires m == |s| || !IsDigit(s[m])
    ensures DigitsEnd(s, i) == m
    decreases m - i
  {
    if i < m {
      DigitsEndAt(s, i + 1, m);
    }
  }

  /** The integer part of a decimal that starts with `whole` ends where `whole` does. */
  lemma WholePart(whole: string, t: string, n: nat)
    requires whole == NatToString(n) && |t| >= |whole| && t[..|whole|] == whole
    requires |t| == |whole| || !IsDigit(t[|whole|])
    ensures ScanInteger(t) == Some(|whole|)
  {
    assert t[0] == whole[0];
    if whole[0] != '0' {
      assert forall k :: 1 <= k < |whole| ==> t[k] == whole[k];
      DigitsEndAt(t, 1, |whole|);
    }
  }

  lemma NatIsNumber(n: nat)
    ensures IsNumberText(NatToString(n))
  {
    var s := NatToString(n);
    assert s[..|s|] == s;
    WholePart(s, s, n);
  }

  lemma SecondsIsNumber(centis: nat)
    ensures IsNumberText(SecondsText(centis))
  {
    var whole := NatToString(centis / 100);
    var f := centis % 100;
    var t := SecondsText(centis);
    if f == 0 {
      NatIsNumber(centis / 100);
    } else {
      var frac := if f % 10 == 0 then [DigitChar(f / 10)] else [DigitChar(f / 10), DigitChar(f % 10)];
      assert t == whole + "." + frac;
      assert t[..|whole|] == whole;
      WholePart(whole, t, centis / 100);
      DigitsEndAt(t, |whole| + 1, |t|);
    }
  }

  lemma SecondsExamples()
    ensures SecondsText(150) == "1.5" && SecondsText(200) == "2" && SecondsText(7) == "0.07"
  {
  }

  lemma EventIsWellFormed(ev: Event)
    requires EventWellFormed(ev)
    ensures WellFormed(EventJson(ev))
  {
    match ev
    case Progress(p, _) => NatIsNumber(p);
    case Failure(_, _) =>
    case Success(items, md) =>
      NatIsNumber(md.concurrencyUsed);
      NatIsNumber(md.validAttempts);
      SecondsIsNumber(md.centis);
      var data := EventJson(ev).members[2].value;
      assert WellFormed(data.members[0].value);
      assert WellFormed(data.members[1].value);
  }

  // ---------------------------------------------------------------- one line per event

  predicate IsNumberChar(c: char)
  {
    IsDigit(c) || c == '-' || c == '+' || c == '.' || c == 'e' || c == 'E'
  }

  /** A JSON number is made of digits, signs, a point and an exponent mark. */
  lemma NumberChars(t: string)
    requires IsNumberText(t)
    ensures forall i :: 0 <= i < |t| ==> IsNumberChar(t[i])
  {
    var j := ScanInteger(t).value;
    var k := ScanFraction(t, j).value;
    forall i | 0 <= i < |t|
      ensures IsNumberChar(t[i])
    {
      if i >= k + 2 {
        var d := if k + 1 < |t| && (t[k + 1] == '+' || t[k + 1] == '-') then k + 2 else k + 1;
        assert d <= i < DigitsEnd(t, d);
      }
    }
  }

  lemma {:induction false} EscapeCharsNoNewline(s: string)
    ensures '\n' !in EscapeChars(s)
    decreases |s|
  {
    if |s| > 0 {
      EscapeCharsNoNewline(s[1..]);
      assert '\n' !in EscapeChar(s[0]);
    }
  }

  /** Without a gap `JSON.stringify` writes no line feed: those inside strings
      are escaped. */
  lemma {:induction false} SerializeNoNewline(v: Json, indent: string)
    requires WellFormed(v)
    ensures '\n' !in Serialize(v, "", indent)
    decreases v, 1
  {
    match v
    case JNum(lexeme) => NumberChars(lexeme);
    case JStr(t) => EscapeCharsNoNewline(t);
    case JArr(es) =>
      if |es| > 0 {
        ElemsNoNewline(es, indent + "");
      }
    case JObj(ms) =>
      if |ms| > 0 {
        MembersNoNewline(ms, indent + "");
      }
    case _ =>
  }

  lemma {:induction false} ElemsNoNewline(es: seq<Json>, indent: string)
    requires forall i :: 0 <= i < |es| ==> WellFormed(es[i])
    ensures '\n' !in SerializeElems(es, "", indent)
    decreases es
  {
    if |es| > 0 {
      SerializeNoNewline(es[0], indent);
      if |es| > 1 {
        ElemsNoNewline(es[1..], indent);
      }
    }
  }

  lemma {:induction false} MembersNoNewline(ms: seq<Member>, indent: string)
    requires forall i :: 0 <= i < |ms| ==> WellFormed(ms[i].value)
    ensures '\n' !in SerializeMembers(ms, "", indent)
    decreases ms
  {
    if |ms| > 0 {
      SerializeNoNewline(ms[0].value, indent);
      EscapeCharsNoNewline(ms[0].key);
      if |ms| > 1 {
        MembersNoNewline(ms[1..], indent);
      }
    }
  }

  /** Every event is one line: a JSON text without line feeds, then exactly
      one line feed, and that text decodes back to the event's object. */
  lemma EncodeEventIsOneLine(ev: Event)
    requires EventWellFormed(ev)
    ensures var line := Stringify(EventJson(ev));
      EncodeEvent(ev) == line + "\n" && '\n' !in line && Decode(line) == Some(EventJson(ev))
  {
    EventIsWellFormed(ev);
    SerializeNoNewline(EventJson(ev), "");
    JsonRoundTrip.DecodeStringify(EventJson(ev));
  }

  /** Each event object is tagged with its kind, and a result carries
      `success: true` and its items and metadata under `data`. */
  lemma EventFields(ev: Event)
    ensures Property(EventJson(ev), "type") == Some(JStr(TypeName(ev)))
    ensures ev.Progress? ==>
      Property(EventJson(ev), "progress") == Some(NumJson(ev.percent))
      && Property(EventJson(ev), "message") == Some(JStr(ev.message))
    ensures ev.Failure? ==>
      Property(EventJson(ev), "error").Some?
      && Property(Property(EventJson(ev), "error").value, "code") == Some(JStr(ev.code))
      && Property(Property(EventJson(ev), "error").value, "message") == Some(JStr(ev.message))
    ensures ev.Success? ==>
      Property(EventJson(ev), "success") == Some(JBool(true))
      && Property(EventJson(ev), "data").Some?
      && Property(Property(EventJson(ev), "data").value, "items") == Some(JArr(ev.items))
      && Property(Property(EventJson(ev), "data").value, "metadata") == Some(MetadataJson(ev.metadata))
  {
    var ms := EventJson(ev).members;
    LookupUnique(ms, 0);
    LookupUnique(ms, 1);
    match ev
    case Progress(_, _) =>
      LookupUnique(ms, 2);
    case Failure(_, _) =>
      var inner := ms[1].value.members;
      LookupUnique(inner, 0);
      LookupUnique(inner, 1);
    case Success(_, _) =>
      LookupUnique(ms, 2);
      var inner := ms[2].value.members;
      LookupUnique(inner, 0);
      LookupUnique(inner, 1);
  }
}
