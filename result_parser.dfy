/** `parseJSONResult`: find the first `[ [ … ] ]` in free model text with the
    regular expression `/\[\s*\[[\s\S]*?\]\s*\]/`, decode it with
    `JSON.parse`, and keep it only when it is a non-empty array. */
module ResultParser {
  import opened Options
  import opened Text
  import opened Json
  import JsonRoundTrip

  // ---------------------------------------------------------------- the pattern

  predicate SpaceBetween(s: string, i: int, j: int)
    requires 0 <= i && j <= |s|
  {
    forall t :: i <= t < j ==> IsJsSpace(s[t])
  }

  /** `s[p..e]` is matched by the pattern, with the second `[` at `q` and the
      first of the two closing `]` at `k`. */
  predicate MatchWith(s: string, p: nat, q: nat, k: nat, e: nat)
  {
    p < q < k && k + 1 < e <= |s|
    && s[p] == '[' && SpaceBetween(s, p + 1, q) && s[q] == '['
    && s[k] == ']' && SpaceBetween(s, k + 1, e - 1) && s[e - 1] == ']'
  }

  /** The pattern matches `s[p..e]` in some way. */
  ghost predicate MatchesAt(s: string, p: nat, e: nat)
  {
    exists q: nat, k: nat :: MatchWith(s, p, q, k, e)
  }

  /** What `String.prototype.match` returns for a non-global pattern: the match
      with the leftmost start and, from there, the one the lazy `[\s\S]*?`
      makes shortest. */
  ghost predicate IsRegexMatch(s: string, p: nat, e: nat)
  {
    MatchesAt(s, p, e)
    && (forall p': nat, e': nat :: p' < p ==> !MatchesAt(s, p', e'))
    && (forall e': nat :: e' < e ==> !MatchesAt(s, p, e'))
  }

  // ---------------------------------------------------------------- the matcher

  /** The first index at or after `i` that is not JavaScript whitespace. */
  function SkipSpaceFrom(s: string, i: nat): (r: nat)
    requires i <= |s|
    ensures i <= r <= |s| && SpaceBetween(s, i, r)
    ensures r < |s| ==> !IsJsSpace(s[r])
    decreases |s| - i
  {
    if i < |s| && IsJsSpace(s[i]) then SkipSpaceFrom(s, i + 1) else i
  }

  /** The lazy body: the first `]` at or after `k` that whitespace and a second
      `]` follow; the position of that `]` and the end of the match. */
  function CloseFrom(s: string, k: nat): (r: Option<(nat, nat)>)
    requires k <= |s|
    ensures r.Some? ==> k <= r.value.0 && r.value.0 + 1 < r.value.1 <= |s|
    decreases |s| - k
  {
    if k == |s| then None
    else if s[k] == ']' then
      var t := SkipSpaceFrom(s, k + 1);
      if t < |s| && s[t] == ']' then Some((k, t + 1)) else CloseFrom(s, k + 1)
    else CloseFrom(s, k + 1)
  }

  /** The end of the match that starts at `p`, if one does. */
  function MatchAt(s: string, p: nat): (r: Option<nat>)
    requires p < |s|
    ensures r.Some? ==> p < r.value <= |s|
  {
    if s[p] != '[' then None
    else
      var q := SkipSpaceFrom(s, p + 1);
      if q < |s| && s[q] == '[' then
        match CloseFrom(s, q + 1)
        case None => None
        case Some((_, e)) => Some(e)
      else None
  }

  function Search(s: string, p: nat): (r: Option<(nat, nat)>)
    requires p <= |s|
    ensures r.Some? ==> p <= r.value.0 < r.value.1 <= |s|
    decreases |s| - p
  {
    if p == |s| then None
    else
      match MatchAt(s, p)
      case Some(e) => Some((p, e))
      case None => Search(s, p + 1)
  }

  /** `text.match(/\[\s*\[[\s\S]*?\]\s*\]/)`: start and end of the match. */
  function FirstMatch(s: string): Option<(nat, nat)>
  {
    Search(s, 0)
  }

  // ---------------------------------------------------------------- parseJSONResult

  /** The acceptance test after `JSON.parse`: a non-empty array. */
  function Accept(decoded: Option<Json>): (r: Option<seq<Json>>)
    ensures r.Some? <==> decoded.Some? && decoded.value.JArr? && |decoded.value.elems| > 0
    ensures r.Some? ==> decoded == Some(JArr(r.value))
  {
    match decoded
    case Some(JArr(rows)) => if |rows| > 0 then Some(rows) else None
    case _ => None
  }

  /** `parseJSONResult(text)`: `None` stands for the `null` it returns, both when
      nothing matches and when `JSON.parse` throws. */
  function ParseJsonResult(text: string): (r: Option<seq<Json>>)
    ensures r.Some? ==> |r.value| > 0
  {
    match FirstMatch(text)
    case None => None
    case Some((p, e)) => Accept(Decode(text[p..e]))
  }

  // ---------------------------------------------------------------- the matcher is the pattern

  lemma CloseFromSound(s: string, k: nat)
    requires k <= |s| && CloseFrom(s, k).Some?
    ensures var (kk, e) := CloseFrom(s, k).value;
      s[kk] == ']' && SpaceBetween(s, kk + 1, e - 1) && s[e - 1] == ']'
    decreases |s| - k
  {
    if s[k] != ']' || CloseFrom(s, k) == CloseFrom(s, k + 1) {
      if k + 1 <= |s| && CloseFrom(s, k + 1).Some? {
        CloseFromSound(s, k + 1);
      }
    }
  }

  /** Any way to close the pattern from `k` on is matched by one that closes at
      or before it. */
  lemma {:induction false} CloseFromComplete(s: string, k: nat, kk: nat, e: nat)
    requires k <= kk && kk + 1 < e <= |s|
    requires s[kk] == ']' && SpaceBetween(s, kk + 1, e - 1) && s[e - 1] == ']'
    ensures CloseFrom(s, k).Some? && CloseFrom(s, k).value.1 <= e
    decreases |s| - k
  {
    if s[k] == ']' {
      var t := SkipSpaceFrom(s, k + 1);
      if k == kk {
        assert t == e - 1 by {
          SkipSpaceStops(s, k + 1, e - 1);
        }
      } else if t < |s| && s[t] == ']' {
        assert t <= kk by {
          SkipSpaceStops(s, k + 1, kk);
        }
      } else {
        CloseFromComplete(s, k + 1, kk, e);
      }
    } else {
      CloseFromComplete(s, k + 1, kk, e);
    }
  }

  /** Skipping whitespace stops at or before any non-whitespace character. */
  lemma SkipSpaceStops(s: string, i: nat, j: nat)
    requires i <= j < |s| && !IsJsSpace(s[j])
    ensures SkipSpaceFrom(s, i) <= j
    ensures SpaceBetween(s, i, j) ==> SkipSpaceFrom(s, i) == j
  {
  }

  lemma MatchAtSound(s: string, p: nat)
    requires p < |s| && MatchAt(s, p).Some?
    ensures MatchesAt(s, p, MatchAt(s, p).value)
  {
    var q := SkipSpaceFrom(s, p + 1);
    CloseFromSound(s, q + 1);
    var (kk, e) := CloseFrom(s, q + 1).value;
    assert MatchWith(s, p, q, kk, e);
  }

  lemma MatchAtComplete(s: string, p: nat, e: nat)
    ensures MatchesAt(s, p, e) ==> p < |s| && MatchAt(s, p).Some? && MatchAt(s, p).value <= e
  {
    if MatchesAt(s, p, e) {
      var q: nat, k: nat :| MatchWith(s, p, q, k, e);
      SkipSpaceStops(s, p + 1, q);
      CloseFromComplete(s, q + 1, k, e);
    }
  }

  lemma {:induction false} SearchSound(s: string, p: nat)
    requires p <= |s|
    requires forall p': nat, e': nat :: p' < p ==> !MatchesAt(s, p', e')
    ensures Search(s, p).Some? ==> IsRegexMatch(s, Search(s, p).value.0, Search(s, p).value.1)
    ensures Search(s, p).None? ==> forall p': nat, e': nat :: !MatchesAt(s, p', e')
    decreases |s| - p
  {
    if p == |s| {
      forall p': nat, e': nat
        ensures !MatchesAt(s, p', e')
      {
        MatchAtComplete(s, p', e');
      }
    } else if MatchAt(s, p).Some? {
      var e := MatchAt(s, p).value;
      MatchAtSound(s, p);
      forall e': nat | e' < e
        ensures !MatchesAt(s, p, e')
      {
        MatchAtComplete(s, p, e');
      }
    } else {
      forall e': nat
        ensures !MatchesAt(s, p, e')
      {
        MatchAtComplete(s, p, e');
      }
      SearchSound(s, p + 1);
    }
  }

  /** `FirstMatch` finds exactly the match the pattern defines, and finds
      nothing only when the pattern matches nowhere. */
  lemma FirstMatchMeaning(s: string)
    ensures FirstMatch(s).Some? ==> IsRegexMatch(s, FirstMatch(s).value.0, FirstMatch(s).value.1)
    ensures FirstMatch(s).None? <==> forall p: nat, e: nat :: !MatchesAt(s, p, e)
  {
    SearchSound(s, 0);
    if FirstMatch(s).Some? {
      var (p, e) := FirstMatch(s).value;
      assert MatchesAt(s, p, e);
    }
  }

  /** There is only one match in the sense of `IsRegexMatch`. */
  lemma RegexMatchUnique(s: string, p1: nat, e1: nat, p2: nat, e2: nat)
    requires IsRegexMatch(s, p1, e1) && IsRegexMatch(s, p2, e2)
    ensures p1 == p2 && e1 == e2
  {
    assert p1 < p2 ==> !MatchesAt(s, p1, e1);
    assert p2 < p1 ==> !MatchesAt(s, p2, e2);
    assert p1 == p2 && e1 < e2 ==> !MatchesAt(s, p2, e1);
    assert p1 == p2 && e2 < e1 ==> !MatchesAt(s, p1, e2);
  }

  /** The one match found is the match in the sense of `IsRegexMatch`. */
  lemma FirstMatchIs(s: string, p: nat, e: nat)
    requires IsRegexMatch(s, p, e)
    ensures FirstMatch(s) == Some((p, e))
  {
    FirstMatchMeaning(s);
    var (p0, e0) := FirstMatch(s).value;
    RegexMatchUnique(s, p, e, p0, e0);
  }

  // ---------------------------------------------------------------- properties of parseJSONResult

  /** `parseJSONResult` decodes exactly the text the pattern matches, and
      returns `null` when the pattern matches nowhere. */
  lemma ParseJsonResultMeaning(text: string)
    ensures (forall p: nat, e: nat :: !MatchesAt(text, p, e)) ==> ParseJsonResult(text) == None
    ensures forall p: nat, e: nat :: IsRegexMatch(text, p, e) ==>
      e <= |text| && ParseJsonResult(text) == Accept(Decode(text[p..e]))
  {
    FirstMatchMeaning(text);
    forall p: nat, e: nat | IsRegexMatch(text, p, e)
      ensures e <= |text| && ParseJsonResult(text) == Accept(Decode(text[p..e]))
    {
      FirstMatchIs(text, p, e);
    }
  }

  lemma SpacePrefix(s: string, u: string, i: nat, j: nat)
    requires j <= |s|
    ensures SpaceBetween(s + u, i, j) == SpaceBetween(s, i, j)
  {
    assert forall t :: i <= t < j ==> (s + u)[t] == s[t];
  }

  /** A match that lies inside `s` is a match of `s + u` and back. */
  lemma MatchWithPrefix(s: string, u: string, p: nat, q: nat, k: nat, e: nat)
    requires e <= |s|
    ensures MatchWith(s + u, p, q, k, e) == MatchWith(s, p, q, k, e)
  {
    if p < q < k && k + 1 < e {
      SpacePrefix(s, u, p + 1, q);
      SpacePrefix(s, u, k + 1, e - 1);
    }
  }

  /** A match of `s + u` that starts before the match `(p, e)` of `s` can be
      cut back to end inside `s`. */
  lemma CutBack(s: string, u: string, p: nat, q: nat, k: nat, e: nat, p': nat, q': nat, k': nat, e': nat)
    requires MatchWith(s, p, q, k, e) && p' < p
    ensures MatchWith(s + u, p', q', k', e') ==>
      MatchWith(s, p', q', k', e') || MatchWith(s, p', q', k, e)
  {
    if MatchWith(s + u, p', q', k', e') {
      if e' <= |s| {
        MatchWithPrefix(s, u, p', q', k', e');
      } else {
        assert q' <= p by {
          SkipSpaceStops(s + u, p' + 1, p);
          SkipSpaceStops(s + u, p' + 1, q');
        }
        SpacePrefix(s, u, p' + 1, q');
      }
    }
  }

  /** Only the leftmost match is tried: once a prefix contains a match, nothing
      appended after it changes the result, even a well-formed array. */
  lemma LaterTextIgnored(s: string, u: string)
    requires FirstMatch(s).Some?
    ensures FirstMatch(s + u) == FirstMatch(s)
    ensures ParseJsonResult(s + u) == ParseJsonResult(s)
  {
    FirstMatchMeaning(s);
    var (p, e) := FirstMatch(s).value;
    var q: nat, k: nat :| MatchWith(s, p, q, k, e);
    var su := s + u;
    MatchWithPrefix(s, u, p, q, k, e);
    assert MatchesAt(su, p, e);
    forall p': nat, e': nat | p' < p
      ensures !MatchesAt(su, p', e')
    {
      forall q': nat, k': nat
        ensures !MatchWith(su, p', q', k', e')
      {
        CutBack(s, u, p, q, k, e, p', q', k', e');
        assert !MatchesAt(s, p', e') && !MatchesAt(s, p', e);
      }
    }
    forall e': nat | e' < e
      ensures !MatchesAt(su, p, e')
    {
      forall q': nat, k': nat
        ensures !MatchWith(su, p, q', k', e')
      {
        MatchWithPrefix(s, u, p, q', k', e');
        assert !MatchesAt(s, p, e');
      }
    }
    FirstMatchIs(su, p, e);
    assert su[p..e] == s[p..e];
  }

  /** `[[]]` is accepted as a table with one empty row: neither the row width
      nor the cell types are checked. */
  lemma EmptyRowAccepted()
    ensures ParseJsonResult("[[]]") == Some([JArr([])])
  {
    var s := "[[]]";
    assert MatchWith(s, 0, 1, 2, 4);
    forall e': nat, q: nat, k: nat | e' < 4
      ensures !MatchWith(s, 0, q, k, e')
    {
    }
    assert IsRegexMatch(s, 0, 4);
    FirstMatchIs(s, 0, 4);
    assert s[0..4] == s;
    JsonRoundTrip.DecodeStringify(JArr([JArr([])]));
    assert Stringify(JArr([JArr([])])) == s;
  }

  lemma MalformedDecode()
    ensures Decode("[[x]]") == None
  {
    var s := "[[x]]";
    assert SkipSpace(s) == s;
    assert s[1..] == "[x]]";
    assert SkipSpace("[x]]") == "[x]]";
    assert "[x]]"[1..] == "x]]";
    assert SkipSpace("x]]") == "x]]";
    assert ScanInteger("x]]") == None;
    assert ParseValue("x]]") == None;
    assert ParseElements("x]]") == None;
    assert ParseValue("[x]]") == None;
  }

  /** A first match that is not JSON hides a well-formed array after it. */
  lemma MalformedMatchHidesLaterArray()
    ensures ParseJsonResult("[[x]]" + " [[\"a\"]]") == None
  {
    MalformedMatch("[[x]]");
    LaterTextIgnored("[[x]]", " [[\"a\"]]");
  }

  lemma MalformedMatch(s: string)
    requires s == "[[x]]"
    ensures FirstMatch(s) == Some((0, 5))
    ensures ParseJsonResult(s) == None
  {
    assert MatchWith(s, 0, 1, 3, 5);
    forall e': nat, q: nat, k: nat | e' < 5
      ensures !MatchWith(s, 0, q, k, e')
    {
    }
    assert IsRegexMatch(s, 0, 5);
    FirstMatchIs(s, 0, 5);
    assert s[0..5] == s;
    MalformedDecode();
  }

  // ---------------------------------------------------------------- round trip for tables of strings

  function Row(cells: seq<string>): Json
  {
    JArr(seq(|cells|, j requires 0 <= j < |cells| => JStr(cells[j])))
  }

  /** A table of strings as the JSON array of arrays the model is asked for. */
  function Table(rows: seq<seq<string>>): Json
  {
    JArr(seq(|rows|, i requires 0 <= i < |rows| => Row(rows[i])))
  }

  predicate NoCloseBracket(rows: seq<seq<string>>)
  {
    forall i, j :: 0 <= i < |rows| && 0 <= j < |rows[i]| ==> ']' !in rows[i][j]
  }

  /** Every `]` except the last two is followed by a comma. */
  predicate ClosersThenComma(t: string)
  {
    forall i :: 0 <= i < |t| - 1 && t[i] == ']' ==> t[i + 1] == ','
  }

  lemma {:induction false} EscapeCharsNoClose(c: string)
    requires ']' !in c
    ensures ']' !in EscapeChars(c)
    decreases |c|
  {
    if |c| > 0 {
      assert ']' !in c[1..];
      EscapeCharsNoClose(c[1..]);
      assert ']' !in EscapeChar(c[0]);
    }
  }

  lemma {:induction false} CellsNoClose(cells: seq<string>)
    requires forall j :: 0 <= j < |cells| ==> ']' !in cells[j]
    ensures ']' !in SerializeElems(Row(cells).elems, "", "")
    decreases |cells|
  {
    var es := Row(cells).elems;
    if |cells| > 0 {
      EscapeCharsNoClose(cells[0]);
      assert Serialize(es[0], "", "") == Quote(cells[0]);
      if |cells| > 1 {
        CellsNoClose(cells[1..]);
        assert Row(cells[1..]).elems == es[1..];
      }
    }
  }

  lemma EmptyBreak()
    ensures Break("", "" + "") == "" && Break("", "") == "" && "" + "" == ""
  {
  }

  lemma RowShape(cells: seq<string>)
    requires forall j :: 0 <= j < |cells| ==> ']' !in cells[j]
    ensures var t := Serialize(Row(cells), "", "");
      |t| >= 2 && t[0] == '[' && t[|t| - 1] == ']' && ']' !in t[..|t| - 1]
  {
    var t := Serialize(Row(cells), "", "");
    if |cells| > 0 {
      CellsNoClose(cells);
      var body := SerializeElems(Row(cells).elems, "", "");
      EmptyBreak();
      assert t == "[" + body + "]";
      assert t[..|t| - 1] == "[" + body;
    }
  }

  lemma {:induction false} RowsShape(rows: seq<seq<string>>)
    requires |rows| >= 1 && NoCloseBracket(rows)
    ensures var t := SerializeElems(Table(rows).elems, "", "");
      |t| >= 2 && t[0] == '[' && t[|t| - 1] == ']' && ClosersThenComma(t)
    decreases |rows|
  {
    var es := Table(rows).elems;
    var first := Serialize(es[0], "", "");
    RowShape(rows[0]);
    if |rows| == 1 {
      assert SerializeElems(es, "", "") == first;
    } else {
      var restRows := rows[1..];
      assert Table(restRows).elems == es[1..];
      RowsShape(restRows);
      var tail := SerializeElems(es[1..], "", "");
      var t := first + "," + tail;
      EmptyBreak();
      assert SerializeElems(es, "", "") == t;
      forall i | 0 <= i < |t| - 1
        ensures t[i] == ']' ==> t[i + 1] == ','
      {
        if i < |first| - 1 {
          assert t[i] == first[..|first| - 1][i];
        } else if i >= |first| + 1 {
          assert t[i] == tail[i - |first| - 1];
          assert t[i + 1] == tail[i + 1 - |first| - 1];
        }
      }
    }
  }

  lemma TableWellFormed(rows: seq<seq<string>>)
    ensures WellFormed(Table(rows))
  {
    forall i | 0 <= i < |rows|
      ensures WellFormed(Table(rows).elems[i])
    {
      assert Table(rows).elems[i] == Row(rows[i]);
    }
  }

  /** A table of strings written by `JSON.stringify` and surrounded by prose is
      read back, provided the prose before it has no `[` and no cell contains
      a `]` (which would end the lazy match early). */
  lemma TableRoundTrip(prose: string, rows: seq<seq<string>>, suffix: string)
    requires '[' !in prose && |rows| >= 1 && NoCloseBracket(rows)
    ensures ParseJsonResult(prose + Stringify(Table(rows)) + suffix) == Some(Table(rows).elems)
  {
    var body := SerializeElems(Table(rows).elems, "", "");
    var t := Stringify(Table(rows));
    RowsShape(rows);
    EmptyBreak();
    assert t == "[" + body + "]";
    var s := prose + t;
    BracketedMatch(prose, body, t);
    assert s[|prose|..|prose| + |t|] == t;
    TableWellFormed(rows);
    JsonRoundTrip.DecodeStringify(Table(rows));
    LaterTextIgnored(s, suffix);
  }

  /** `[` + a body of rows + `]` after prose without `[` is the first match,
      when every `]` of the body but its last is followed by a comma. */
  lemma BracketedMatch(prose: string, body: string, t: string)
    requires '[' !in prose && t == "[" + body + "]"
    requires |body| >= 2 && body[0] == '[' && body[|body| - 1] == ']' && ClosersThenComma(body)
    ensures FirstMatch(prose + t) == Some((|prose|, |prose| + |t|))
  {
    var s := prose + t;
    var p, e := |prose|, |prose| + |t|;
    assert MatchWith(s, p, p + 1, e - 2, e);
    forall p': nat, e': nat, q: nat, k: nat | p' < p
      ensures !MatchWith(s, p', q, k, e')
    {
      assert s[p'] == prose[p'];
    }
    forall e': nat, q: nat, k: nat | e' < e
      ensures !MatchWith(s, p, q, k, e')
    {
      if p < q < k && k + 1 < e' {
        assert s[k] == body[k - p - 1];
        assert s[k + 1] == body[k - p];
      }
    }
    assert IsRegexMatch(s, p, e);
    FirstMatchIs(s, p, e);
  }
}
