/** The browser's side of the recognition stream (`startRecognition` and
    `handleStreamMessage` in `script.js`): the response body arrives in
    chunks, a buffer reassembles whole lines, and each non-blank line is
    parsed and dispatched on its `type`. */
module StreamClient {
  import opened Options
  import opened Text
  import opened Json
  import opened Events

  /** What handling one message does to the page. */
  datatype Effect =
    | ShowProgress(percent: Option<Json>, text: Option<Json>)
        // `updateProgress(data.progress, data.message)`; `None` is `undefined`
    | ShowError(message: Json)
        // the progress section is hidden and `showError` shows the message
    | ShowResults(items: Json)
        // progress set to 100%, then `displayResults(items)`
    | Unknown
        // a message of another type, only logged
    | Crashed(progressHidden: bool)
        // the handler threw; the line's own `catch` swallows it

  const FailureFallback := "识别失败"
  const MalformedResult := "识别结果格式错误"

  /** `handleStreamMessage(data)`. */
  function HandleMessage(data: Json): Effect
  {
    if data.JNull? then Crashed(false)
    else
      var kind := Property(data, "type");
      if kind == Some(JStr("progress")) then
        ShowProgress(Property(data, "progress"), Property(data, "message"))
      else if kind == Some(JStr("error")) then
        match Property(data, "error")
        case None => Crashed(true)
        case Some(err) =>
          if err.JNull? then Crashed(true)
          else ShowError(OrElse(Property(err, "message"), JStr(FailureFallback)))
      else if kind == Some(JStr("result")) then
        var payload := Property(data, "data");
        var items := if payload.Some? && !payload.value.JNull? then Property(payload.value, "items") else None;
        var success := Property(data, "success");
        if success.Some? && Truthy(success.value) && items.Some? && Truthy(items.value) then ShowResults(items.value)
        else ShowError(JStr(MalformedResult))
      else Unknown
  }

  /** One line of the body: skipped when blank, dropped when `JSON.parse`
      throws, dispatched otherwise. */
  function LineEffects(line: string): (r: seq<Effect>)
    ensures |r| <= 1
    ensures |r| == 1 <==> !IsBlank(line) && Decode(line).Some?
  {
    if IsBlank(line) then []
    else
      match Decode(line)
      case None => []
      case Some(data) => [HandleMessage(data)]
  }

  /** The effects of handling lines one after another, each with `f`. */
  function Gather(f: string -> seq<Effect>, lines: seq<string>): seq<Effect>
  {
    if |lines| == 0 then [] else Gather(f, lines[..|lines| - 1]) + f(Last(lines))
  }

  /** The effects of a sequence of lines of the body. */
  function HandleLines(lines: seq<string>): seq<Effect>
  {
    if |lines| == 0 then [] else HandleLines(lines[..|lines| - 1]) + LineEffects(Last(lines))
  }

  lemma {:induction false} HandleIsGather(lines: seq<string>)
    ensures HandleLines(lines) == Gather(LineEffects, lines)
    decreases |lines|
  {
    if |lines| > 0 {
      HandleIsGather(lines[..|lines| - 1]);
    }
  }

  /** `buffer += chunk; lines = buffer.split('\n'); buffer = lines.pop() || ''`:
      the complete lines, and the unfinished rest kept as the new buffer. */
  function SplitChunk(buffer: string, chunk: string): (seq<string>, string)
  {
    var parts := Split(buffer + chunk, '\n');
    (parts[..|parts| - 1], Last(parts))
  }

  /** The reading loop of `startRecognition`, over the decoded chunks. */
  method ReadStream(chunks: seq<string>) returns (effects: seq<Effect>)
    ensures effects == HandleLines(Split(Concat(chunks), '\n'))
  {
    var buffer := "";
    effects := [];
    ghost var complete: seq<string> := [];
    var i := 0;
    while i < |chunks|
      invariant 0 <= i <= |chunks|
      invariant buffer == Last(Split(Concat(chunks[..i]), '\n'))
      invariant complete + [buffer] == Split(Concat(chunks[..i]), '\n')
      invariant effects == HandleLines(complete)
    {
      var lines, rest := SplitChunk(buffer, chunks[i]).0, SplitChunk(buffer, chunks[i]).1;
      var handled := HandleCompleteLines(lines);
      ReadStep(chunks, i, buffer);
      Advance(complete, lines, effects, handled);
      effects := effects + handled;
      complete := complete + lines;
      buffer := rest;
      i := i + 1;
    }
    assert chunks[..i] == chunks;
    if !IsBlank(buffer) {
      effects := effects + LineEffects(buffer);
    }
    LeftoverStep(complete, buffer);
  }

  /** `for (const line of lines)`: each line in its own `try`. */
  method HandleCompleteLines(lines: seq<string>) returns (effects: seq<Effect>)
    ensures effects == HandleLines(lines)
  {
    effects := [];
    var j := 0;
    while j < |lines|
      invariant 0 <= j <= |lines|
      invariant effects == HandleLines(lines[..j])
    {
      if !IsBlank(lines[j]) {
        effects := effects + LineEffects(lines[j]);
      }
      assert lines[..j + 1][..j] == lines[..j];
      j := j + 1;
    }
    assert lines[..j] == lines;
  }

  // ---------------------------------------------------------------- the loop's proof steps

  lemma {:induction false} GatherAppend(f: string -> seq<Effect>, a: seq<string>, b: seq<string>)
    ensures Gather(f, a + b) == Gather(f, a) + Gather(f, b)
    decreases |b|
  {
    if |b| == 0 {
      assert a + b == a;
    } else {
      assert (a + b)[..|a + b| - 1] == a + b[..|b| - 1];
      GatherAppend(f, a, b[..|b| - 1]);
    }
  }

  /** One chunk moves the buffer on: the complete lines read so far grow by
      the lines the chunk completes, and the new buffer is the last part. */
  lemma ReadStep(chunks: seq<string>, i: nat, buffer: string)
    requires i < |chunks| && buffer == Last(Split(Concat(chunks[..i]), '\n'))
    ensures var s := Split(Concat(chunks[..i]), '\n');
      var t := Split(Concat(chunks[..i + 1]), '\n');
      var (lines, rest) := SplitChunk(buffer, chunks[i]);
      t == s[..|s| - 1] + lines + [rest]
  {
    var s := Split(Concat(chunks[..i]), '\n');
    var q := Split(buffer + chunks[i], '\n');
    assert chunks[..i + 1] == chunks[..i] + [chunks[i]];
    ConcatSnoc(chunks[..i], chunks[i]);
    SplitAppend(Concat(chunks[..i]), chunks[i], '\n');
    assert q == q[..|q| - 1] + [Last(q)];
  }

  lemma Advance(complete: seq<string>, lines: seq<string>, effects: seq<Effect>, handled: seq<Effect>)
    requires effects == HandleLines(complete) && handled == HandleLines(lines)
    ensures effects + handled == HandleLines(complete + lines)
  {
    GatherAppend(LineEffects, complete, lines);
    HandleIsGather(complete);
    HandleIsGather(lines);
    HandleIsGather(complete + lines);
  }

  /** Handling the leftover buffer once completes the handling of all parts. */
  lemma LeftoverStep(complete: seq<string>, buffer: string)
    ensures HandleLines(complete + [buffer]) == HandleLines(complete) + LineEffects(buffer)
  {
    assert (complete + [buffer])[..|complete|] == complete;
  }

  // ---------------------------------------------------------------- the line buffer

  /** The buffer never keeps a line feed; the lines it hands out carry none
      either, and together with the buffer they are exactly what was read. */
  lemma LineBuffer(buffer: string, chunk: string)
    ensures var (lines, rest) := SplitChunk(buffer, chunk);
      '\n' !in rest
      && (forall k :: 0 <= k < |lines| ==> '\n' !in lines[k])
      && (|lines| > 0 ==> Join(lines, "\n") + "\n" + rest == buffer + chunk)
      && (|lines| == 0 ==> rest == buffer + chunk)
  {
    var parts := Split(buffer + chunk, '\n');
    SplitPartsFree(buffer + chunk, '\n');
    JoinSplit(buffer + chunk, '\n');
    assert "\n" == ['\n'];
    if |parts| >= 2 {
      JoinSnoc(parts, "\n");
    }
  }

  /** A blank line has no effect, and neither has a line `JSON.parse`
      rejects; either way the lines after it are still handled. */
  lemma SkippedLines(before: seq<string>, line: string, after: seq<string>)
    requires IsBlank(line) || Decode(line).None?
    ensures HandleLines(before + [line] + after) == HandleLines(before) + HandleLines(after)
  {
    SingleLine(line);
    GatherSkip(LineEffects, before, [line], after);
    HandleIsGather(before + [line] + after);
    HandleIsGather(before);
    HandleIsGather(after);
  }

  lemma GatherSkip(f: string -> seq<Effect>, before: seq<string>, middle: seq<string>, after: seq<string>)
    requires Gather(f, middle) == []
    ensures Gather(f, before + middle + after) == Gather(f, before) + Gather(f, after)
  {
    GatherAppend(f, before + middle, after);
    GatherAppend(f, before, middle);
  }

  lemma SingleLine(line: string)
    requires IsBlank(line) || Decode(line).None?
    ensures HandleLines([line]) == []
  {
    GatherOne(LineEffects, line);
  }

  lemma GatherOne(f: string -> seq<Effect>, line: string)
    ensures Gather(f, [line]) == f(line)
  {
    assert [line][..0] == [];
  }

  // ---------------------------------------------------------------- the server's events, as the browser sees them

  /** What the page does with each event the server sends. */
  function Reaction(ev: Event): Effect
  {
    match ev
    case Progress(p, m) => ShowProgress(Some(NumJson(p)), Some(JStr(m)))
    case Failure(_, m) => ShowError(JStr(if m == "" then FailureFallback else m))
    case Success(items, _) => ShowResults(JArr(items))
  }

  /** Each event's object is dispatched to the reaction meant for it. */
  lemma DispatchEvent(ev: Event)
    ensures HandleMessage(EventJson(ev)) == Reaction(ev)
  {
    EventFields(ev);
  }

  /** The lines of an encoded event sequence, and the empty rest after the
      last line feed. */
  lemma {:induction false} SplitEncoded(evs: seq<Event>)
    requires forall i :: 0 <= i < |evs| ==> EventWellFormed(evs[i])
    ensures Split(EncodeAll(evs), '\n')
      == seq(|evs|, i requires 0 <= i < |evs| => Stringify(EventJson(evs[i]))) + [""]
    decreases |evs|
  {
    if |evs| > 0 {
      var line := Stringify(EventJson(evs[0]));
      EncodeEventIsOneLine(evs[0]);
      SplitEncoded(evs[1..]);
      assert EncodeAll(evs) == line + ['\n'] + EncodeAll(evs[1..]);
      SplitLine(line, EncodeAll(evs[1..]), '\n');
    }
  }

  /** The page's reactions to a sequence of events, in order. */
  function Reactions(evs: seq<Event>): (r: seq<Effect>)
    ensures |r| == |evs|
  {
    seq(|evs|, i requires 0 <= i < |evs| => Reaction(evs[i]))
  }

  /** Reading the body the server wrote shows each event, in order, with
      nothing added or lost. */
  lemma {:induction false} BrowserSeesEvents(evs: seq<Event>)
    requires forall i :: 0 <= i < |evs| ==> EventWellFormed(evs[i])
    ensures HandleLines(Split(EncodeAll(evs), '\n')) == Reactions(evs)
  {
    SplitEncoded(evs);
    var lines := seq(|evs|, i requires 0 <= i < |evs| => Stringify(EventJson(evs[i])));
    forall i | 0 <= i < |evs|
      ensures LineEffects(lines[i]) == [Reactions(evs)[i]]
    {
      EventLine(evs[i], lines[i]);
    }
    OneEffectEach(LineEffects, lines, Reactions(evs));
    HandleIsGather(lines);
    assert (lines + [""])[..|lines|] == lines;
  }

  /** Lines that each have exactly one effect are handled into those effects. */
  lemma {:induction false} OneEffectEach(f: string -> seq<Effect>, lines: seq<string>, effects: seq<Effect>)
    requires |lines| == |effects|
    requires forall i :: 0 <= i < |lines| ==> f(lines[i]) == [effects[i]]
    ensures Gather(f, lines) == effects
    decreases |lines|
  {
    if |lines| > 0 {
      var k := |lines| - 1;
      OneEffectEach(f, lines[..k], effects[..k]);
      assert effects == effects[..k] + [effects[k]];
    }
  }

  /** The line of one event dispatches to that event's reaction. */
  lemma EventLine(ev: Event, line: string)
    requires EventWellFormed(ev) && line == Stringify(EventJson(ev))
    ensures LineEffects(line) == [Reaction(ev)]
  {
    EncodeEventIsOneLine(ev);
    DispatchEvent(ev);
    assert line[0] == '{';
  }
}
