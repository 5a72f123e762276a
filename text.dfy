/** String helpers shared by the server and the browser model:
    JavaScript whitespace, `split`, `join` and decimal rendering. */
module Text {

  /** The characters matched by the JavaScript regular-expression class `\s`,
      which are also the characters `String.prototype.trim` removes
      (WhiteSpace and LineTerminator of ECMAScript). */
  predicate IsJsSpace(c: char)
  {
    c == '\t' || c == '\n' || c == '\U{B}' || c == '\U{C}' || c == '\r' || c == ' '
    || c == '\U{A0}' || c == '\U{1680}' || ('\U{2000}' <= c <= '\U{200A}')
    || c == '\U{2028}' || c == '\U{2029}' || c == '\U{202F}' || c == '\U{205F}'
    || c == '\U{3000}' || c == '\U{FEFF}'
  }

  /** `s.trim()` is the empty string, i.e. `s.trim()` is falsy. */
  predicate IsBlank(s: string)
  {
    forall i :: 0 <= i < |s| ==> IsJsSpace(s[i])
  }

  /** `s.split(c)` for a one-character separator: the maximal runs between
      separators, always at least one part. */
  function Split(s: string, c: char): (parts: seq<string>)
    ensures |parts| >= 1
    decreases |s|
  {
    if |s| == 0 then [""]
    else
      var rest := Split(s[1..], c);
      if s[0] == c then [""] + rest
      else [[s[0]] + rest[0]] + rest[1..]
  }

  /** `parts.join(sep)`. */
  function Join(parts: seq<string>, sep: string): string
  {
    if |parts| == 0 then ""
    else if |parts| == 1 then parts[0]
    else parts[0] + sep + Join(parts[1..], sep)
  }

  /** Concatenation of a sequence of strings. */
  function Concat(parts: seq<string>): string
  {
    if |parts| == 0 then "" else parts[0] + Concat(parts[1..])
  }

  /** Concatenating one more part at the end. */
  lemma {:induction false} ConcatSnoc(parts: seq<string>, x: string)
    ensures Concat(parts + [x]) == Concat(parts) + x
    decreases |parts|
  {
    if |parts| == 0 {
      assert parts + [x] == [x];
    } else {
      assert (parts + [x])[1..] == parts[1..] + [x];
      ConcatSnoc(parts[1..], x);
    }
  }

  /** Joining with one more part at the end. */
  lemma {:induction false} JoinSnoc(parts: seq<string>, sep: string)
    requires |parts| >= 2
    ensures Join(parts, sep) == Join(parts[..|parts| - 1], sep) + sep + Last(parts)
    decreases |parts|
  {
    if |parts| > 2 {
      JoinSnoc(parts[1..], sep);
      assert parts[1..][..|parts| - 2] == parts[..|parts| - 1][1..];
    }
  }

  /** Where part `i` starts in `Join(parts, sep)`. */
  function JoinOffset(parts: seq<string>, sep: string, i: nat): nat
    requires i <= |parts|
    decreases i
  {
    if i == 0 then 0 else |parts[0]| + |sep| + JoinOffset(parts[1..], sep, i - 1)
  }

  /** A slice of `a + t` past `a` is the slice of `t`. */
  lemma SliceAfter(a: string, t: string, x: nat, y: nat)
    requires x <= y <= |t|
    ensures (a + t)[|a| + x..|a| + y] == t[x..y]
  {
    assert forall k :: 0 <= k < y - x ==> (a + t)[|a| + x..|a| + y][k] == t[x..y][k];
  }

  /** Part `i + 1` starts after part `i` and one separator. */
  lemma {:induction false} JoinOffsetStep(parts: seq<string>, sep: string, i: nat)
    requires i < |parts|
    ensures JoinOffset(parts, sep, i + 1) == JoinOffset(parts, sep, i) + |parts[i]| + |sep|
    decreases i
  {
    if i > 0 {
      JoinOffsetStep(parts[1..], sep, i - 1);
    }
  }

  /** Part `i` sits at its offset in the joined string. */
  lemma {:induction false} JoinPart(parts: seq<string>, sep: string, i: nat)
    requires i < |parts|
    ensures var o, s := JoinOffset(parts, sep, i), Join(parts, sep);
      o + |parts[i]| <= |s| && s[o..o + |parts[i]|] == parts[i]
    decreases i
  {
    if i == 0 {
      JoinFirst(parts, sep);
    } else {
      JoinPart(parts[1..], sep, i - 1);
      JoinPartTail(parts, sep, i);
    }
  }

  /** The first part starts the joined string. */
  lemma JoinFirst(parts: seq<string>, sep: string)
    requires |parts| > 0
    ensures |parts[0]| <= |Join(parts, sep)| && Join(parts, sep)[..|parts[0]|] == parts[0]
  {
    if |parts| > 1 {
      var t := Join(parts[1..], sep);
      assert Join(parts, sep) == parts[0] + (sep + t);
      SliceBefore(parts[0], sep + t);
    }
  }

  /** A part found in the join of the later parts is found, shifted, in the
      join of all of them. */
  lemma JoinPartTail(parts: seq<string>, sep: string, i: nat)
    requires 0 < i < |parts|
    requires var o, s := JoinOffset(parts[1..], sep, i - 1), Join(parts[1..], sep);
      o + |parts[i]| <= |s| && s[o..o + |parts[i]|] == parts[i]
    ensures var o, s := JoinOffset(parts, sep, i), Join(parts, sep);
      o + |parts[i]| <= |s| && s[o..o + |parts[i]|] == parts[i]
  {
    var t, a := Join(parts[1..], sep), parts[0] + sep;
    var o' := JoinOffset(parts[1..], sep, i - 1);
    assert Join(parts, sep) == a + t;
    SliceAfter(a, t, o', o' + |parts[i]|);
  }

  /** A string is the prefix of itself followed by anything. */
  lemma SliceBefore(a: string, t: string)
    ensures (a + t)[..|a|] == a
  {
  }

  /** The last part ends the joined string. */
  lemma {:induction false} JoinLast(parts: seq<string>, sep: string)
    requires |parts| > 0
    ensures JoinOffset(parts, sep, |parts| - 1) + |Last(parts)| == |Join(parts, sep)|
    decreases |parts|
  {
    if |parts| > 1 {
      JoinLast(parts[1..], sep);
      assert Last(parts[1..]) == Last(parts);
    }
  }

  /** The separator follows every part but the last. */
  lemma {:induction false} JoinGap(parts: seq<string>, sep: string, i: nat)
    requires i + 1 < |parts|
    ensures var e, s := JoinOffset(parts, sep, i) + |parts[i]|, Join(parts, sep);
      e + |sep| <= |s| && s[e..e + |sep|] == sep
    decreases i
  {
    var t := Join(parts[1..], sep);
    var a := parts[0] + sep;
    assert Join(parts, sep) == a + t;
    if i > 0 {
      JoinGap(parts[1..], sep, i - 1);
      var e' := JoinOffset(parts[1..], sep, i - 1) + |parts[i]|;
      assert parts[1..][i - 1] == parts[i];
      SliceAfter(a, t, e', e' + |sep|);
    }
  }

  function Last<T>(s: seq<T>): T
    requires |s| > 0
  {
    s[|s| - 1]
  }

  /** No part produced by `Split` contains the separator. */
  lemma {:induction false} SplitPartsFree(s: string, c: char)
    ensures forall k :: 0 <= k < |Split(s, c)| ==> c !in Split(s, c)[k]
    decreases |s|
  {
    if |s| > 0 {
      SplitPartsFree(s[1..], c);
    }
  }

  /** `split` and `join` with the same separator undo each other. */
  lemma {:induction false} JoinSplit(s: string, c: char)
    ensures Join(Split(s, c), [c]) == s
    decreases |s|
  {
    if |s| > 0 {
      var x, t := s[0], s[1..];
      assert s == [x] + t;
      JoinSplit(t, c);
      SplitCons(x, t, c);
      if x == c {
        JoinSplitAtSeparator(x, t, Split(t, c), c);
      } else {
        JoinSplitInsideLine(x, t, Split(t, c), c);
      }
    }
  }

  /** One unfolding of `Join` on a list given as head and tail. */
  lemma JoinCons(p: string, rest: seq<string>, sep: string)
    requires |rest| >= 1
    ensures Join([p] + rest, sep) == p + sep + Join(rest, sep)
  {
    assert ([p] + rest)[1..] == rest;
  }

  /** The step of `JoinSplit` when the string starts with the separator. */
  lemma JoinSplitAtSeparator(x: char, t: string, rest: seq<string>, c: char)
    requires x == c && |rest| >= 1 && Join(rest, [c]) == t
    ensures Join([""] + rest, [c]) == [x] + t
  {
    JoinCons("", rest, [c]);
  }

  /** The step of `JoinSplit` when the string starts with another character. */
  lemma JoinSplitInsideLine(x: char, t: string, rest: seq<string>, c: char)
    requires |rest| >= 1 && Join(rest, [c]) == t
    ensures Join([[x] + rest[0]] + rest[1..], [c]) == [x] + t
  {
    if |rest| > 1 {
      JoinCons([x] + rest[0], rest[1..], [c]);
      JoinCons(rest[0], rest[1..], [c]);
      assert [rest[0]] + rest[1..] == rest;
    } else {
      assert rest == [rest[0]];
    }
  }

  /** A string without the separator splits into itself. */
  lemma {:induction false} SplitNoSeparator(s: string, c: char)
    requires c !in s
    ensures Split(s, c) == [s]
    decreases |s|
  {
    if |s| > 0 {
      assert c !in s[1..];
      SplitNoSeparator(s[1..], c);
      assert [s[0]] + s[1..] == s;
    }
  }

  /** One unfolding of `Split` on a string given as head and tail. */
  lemma SplitCons(x: char, t: string, c: char)
    ensures Split([x] + t, c) ==
      if x == c then [""] + Split(t, c) else [[x] + Split(t, c)[0]] + Split(t, c)[1..]
  {
    assert ([x] + t)[1..] == t;
  }

  /** Splitting `a + b` splits `a`, then continues from the last part of `a`:
      the law behind a line buffer that keeps its unfinished last line. */
  lemma {:induction false} SplitAppend(a: string, b: string, c: char)
    ensures Split(a + b, c) == Split(a, c)[..|Split(a, c)| - 1] + Split(Last(Split(a, c)) + b, c)
    decreases |a|
  {
    if |a| == 0 {
      assert a + b == b;
    } else {
      var x, t := a[0], a[1..];
      assert a == [x] + t;
      assert a + b == [x] + (t + b);
      SplitAppend(t, b, c);
      SplitAppendStep(x, t, b, c);
    }
  }

  /** The inductive step of `SplitAppend`: one character in front of `t`. */
  lemma SplitAppendStep(x: char, t: string, b: string, c: char)
    requires Split(t + b, c) == Split(t, c)[..|Split(t, c)| - 1] + Split(Last(Split(t, c)) + b, c)
    ensures Split([x] + (t + b), c) ==
      Split([x] + t, c)[..|Split([x] + t, c)| - 1] + Split(Last(Split([x] + t, c)) + b, c)
  {
    if x == c {
      StepSeparatorFirst(x, t, b, c);
    } else {
      StepCharFirst(x, t, b, c);
    }
  }

  /** The step of `SplitAppend` when the first character is the separator. */
  lemma StepSeparatorFirst(x: char, t: string, b: string, c: char)
    requires x == c
    requires Split(t + b, c) == Split(t, c)[..|Split(t, c)| - 1] + Split(Last(Split(t, c)) + b, c)
    ensures Split([x] + (t + b), c) ==
      Split([x] + t, c)[..|Split([x] + t, c)| - 1] + Split(Last(Split([x] + t, c)) + b, c)
  {
    var p := Split(t, c);
    SplitCons(x, t, c);
    SplitCons(x, t + b, c);
    StepAtSeparator(p, Split(Last(p) + b, c), Split([x] + t, c), Split([x] + (t + b), c));
  }

  /** The step of `SplitAppend` when the first character is not the separator. */
  lemma StepCharFirst(x: char, t: string, b: string, c: char)
    requires x != c
    requires Split(t + b, c) == Split(t, c)[..|Split(t, c)| - 1] + Split(Last(Split(t, c)) + b, c)
    ensures Split([x] + (t + b), c) ==
      Split([x] + t, c)[..|Split([x] + t, c)| - 1] + Split(Last(Split([x] + t, c)) + b, c)
  {
    if |Split(t, c)| == 1 {
      StepOneLine(x, t, b, c);
    } else {
      StepManyLines(x, t, b, c);
    }
  }

  lemma StepOneLine(x: char, t: string, b: string, c: char)
    requires x != c && |Split(t, c)| == 1
    requires Split(t + b, c) == Split(t, c)[..|Split(t, c)| - 1] + Split(Last(Split(t, c)) + b, c)
    ensures Split([x] + (t + b), c) ==
      Split([x] + t, c)[..|Split([x] + t, c)| - 1] + Split(Last(Split([x] + t, c)) + b, c)
  {
    var p := Split(t, c);
    SplitCons(x, t, c);
    SplitCons(x, t + b, c);
    assert ([x] + p[0]) + b == [x] + (p[0] + b);
    SplitCons(x, p[0] + b, c);
  }

  lemma StepManyLines(x: char, t: string, b: string, c: char)
    requires x != c && |Split(t, c)| > 1
    requires Split(t + b, c) == Split(t, c)[..|Split(t, c)| - 1] + Split(Last(Split(t, c)) + b, c)
    ensures Split([x] + (t + b), c) ==
      Split([x] + t, c)[..|Split([x] + t, c)| - 1] + Split(Last(Split([x] + t, c)) + b, c)
  {
    var p := Split(t, c);
    SplitCons(x, t, c);
    SplitCons(x, t + b, c);
    StepInsideLine([x], p, Split(Last(p) + b, c), Split([x] + t, c), Split([x] + (t + b), c));
  }

  lemma StepAtSeparator(p: seq<string>, q: seq<string>, sa: seq<string>, sab: seq<string>)
    requires |p| >= 1 && sa == [""] + p && sab == [""] + (p[..|p| - 1] + q)
    ensures sab == sa[..|sa| - 1] + q && Last(sa) == Last(p)
  {
    assert sa[..|sa| - 1] == [""] + p[..|p| - 1];
  }

  lemma StepInsideLine(x: string, p: seq<string>, q: seq<string>, sa: seq<string>, sab: seq<string>)
    requires |p| >= 2 && sa == [x + p[0]] + p[1..]
    requires sab == [x + (p[..|p| - 1] + q)[0]] + (p[..|p| - 1] + q)[1..]
    ensures sab == sa[..|sa| - 1] + q && Last(sa) == Last(p)
  {
    assert (p[..|p| - 1] + q)[0] == p[0];
    assert (p[..|p| - 1] + q)[1..] == p[1..|p| - 1] + q;
    assert sa[..|sa| - 1] == [x + p[0]] + p[1..|p| - 1];
  }

  /** A separator-free line followed by the separator is one whole part. */
  lemma {:induction false} SplitLine(line: string, rest: string, c: char)
    requires c !in line
    ensures Split(line + [c] + rest, c) == [line] + Split(rest, c)
    decreases |line|
  {
    if |line| == 0 {
      assert line + [c] + rest == [c] + rest;
      SplitCons(c, rest, c);
    } else {
      var x, t := line[0], line[1..];
      assert c !in t;
      SplitLine(t, rest, c);
      assert line + [c] + rest == [x] + (t + [c] + rest);
      SplitCons(x, t + [c] + rest, c);
      assert [x] + t == line;
    }
  }

  /** Splitting parts joined with a separator none of them contains gives the
      parts back. */
  lemma {:induction false} SplitJoin(parts: seq<string>, c: char)
    requires |parts| >= 1
    requires forall k :: 0 <= k < |parts| ==> c !in parts[k]
    ensures Split(Join(parts, [c]), c) == parts
    decreases |parts|
  {
    if |parts| == 1 {
      SplitNoSeparator(parts[0], c);
    } else {
      SplitJoin(parts[1..], c);
      SplitLine(parts[0], Join(parts[1..], [c]), c);
      assert [parts[0]] + parts[1..] == parts;
    }
  }

  function DigitChar(d: nat): (c: char)
    requires d < 10
    ensures '0' <= c <= '9'
  {
    ['0', '1', '2', '3', '4', '5', '6', '7', '8', '9'][d]
  }

  /** Decimal rendering of a natural number, as `String(n)` or a template
      literal prints it. */
  function NatToString(n: nat): (s: string)
    ensures |s| >= 1
    ensures forall i :: 0 <= i < |s| ==> '0' <= s[i] <= '9'
    ensures s[0] == '0' ==> n == 0 && s == "0"
  {
    if n < 10 then [DigitChar(n)]
    else NatToString(n / 10) + [DigitChar(n % 10)]
  }
}
