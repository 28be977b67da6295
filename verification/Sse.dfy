/** The admin web client's incremental Server-Sent Events parser.

A `char` stands for one UTF-16 code unit.  `SseParser` is the mutable parser state; `Consumed` is
the function its `Consume` method refines, and the theorems are about feeding that function.
*/
module Sse {
  import opened Sequences

  const CR: char := '\r'
  const LF: char := '\n'

  datatype Frame = Frame(event: string, data: string)

  datatype State = State(buffer: string, event: string, data: seq<string>, lastCr: bool)

  /** The result of one call: its frames, or the size exception, with the state it leaves. */
  datatype Outcome = Ok(frames: seq<Frame>, state: State) | Thrown(state: State)

  const INITIAL: State := State("", "", [], false)

  // ---- the string operations the parser is written with ----

  /** Position of the first `c`, or the length when there is none. */
  function IndexOf(s: string, c: char): (i: nat)
    ensures i <= |s|
  {
    if s == "" || s[0] == c then 0 else 1 + IndexOf(s[1..], c)
  }

  predicate EndsWithCr(s: string) {
    s != "" && s[|s| - 1] == CR
  }

  /** A leading LF is the second half of a CRLF whose CR ended the previous chunk. */
  function DropPairedLf(chunk: string, lastCr: bool): string {
    if lastCr && chunk != "" && chunk[0] == LF then chunk[1..] else chunk
  }

  /** Code units of the next character, counting CRLF as one. */
  function NextWidth(text: string): (width: nat)
    requires text != ""
    ensures 1 <= width <= |text|
  {
    if text[0] == CR && |text| > 1 && text[1] == LF then 2 else 1
  }

  /** Every CRLF and every lone CR becomes one LF. */
  function NormalizeNewlines(text: string): string {
    if text == "" then ""
    else [if text[0] == CR then LF else text[0]] + NormalizeNewlines(text[NextWidth(text)..])
  }

  function JoinLf(parts: seq<string>): string {
    if parts == [] then ""
    else if |parts| == 1 then parts[0]
    else parts[0] + ([LF] + JoinLf(parts[1..]))
  }

  function TotalLength(parts: seq<string>): nat {
    if parts == [] then 0 else TotalLength(parts[..|parts| - 1]) + |parts[|parts| - 1]|
  }

  function DropOneSpace(s: string): string {
    if s != "" && s[0] == ' ' then s[1..] else s
  }

  // ---- one line, then all complete lines ----

  /** The pending event after a line, the frame the line completed, and whether the cap was hit. */
  datatype LineEffect = LineEffect(frames: seq<Frame>, event: string, data: seq<string>, thrown: bool)

  datatype Drained = Drained(frames: seq<Frame>, buffer: string, event: string, data: seq<string>, thrown: bool)

  function TakeLine(line: string, event: string, data: seq<string>, maxFrameChars: nat): LineEffect {
    if line == "" then
      LineEffect(if event != "" || |data| > 0
                 then [Frame(if event != "" then event else "message", JoinLf(data))] else [], "", [], false)
    else if line[0] == ':' then
      LineEffect([], event, data, false)
    else
      TakeField(line, IndexOf(line, ':'), event, data, maxFrameChars)
  }

  function TakeField(line: string, colon: nat, event: string, data: seq<string>, maxFrameChars: nat): LineEffect
    requires colon <= |line|
  {
    var field := line[..colon];
    var value := if colon == |line| then "" else DropOneSpace(line[colon + 1..]);
    if field == "event" then LineEffect([], value, data, false)
    else if field == "data" then
      LineEffect([], event, data + [value], TotalLength(data + [value]) > maxFrameChars)
    else LineEffect([], event, data, false)
  }

  function Drain(buffer: string, event: string, data: seq<string>, maxFrameChars: nat): Drained
    decreases |buffer|
  {
    var newline := IndexOf(buffer, LF);
    if newline == |buffer| then Drained([], buffer, event, data, false)
    else
      var line := TakeLine(buffer[..newline], event, data, maxFrameChars);
      if line.thrown then Drained([], buffer[newline + 1..], line.event, line.data, true)
      else
        Prepend(line.frames, Drain(buffer[newline + 1..], line.event, line.data, maxFrameChars))
  }

  function Prepend(frames: seq<Frame>, d: Drained): Drained {
    d.(frames := frames + d.frames)
  }

  /** What one call of the parser does. */
  function Consumed(state: State, chunk: string, maxFrameChars: nat): Outcome {
    var text := DropPairedLf(chunk, state.lastCr);
    var d := Drain(state.buffer + NormalizeNewlines(text), state.event, state.data, maxFrameChars);
    var after := State(d.buffer, d.event, d.data, EndsWithCr(text));
    if d.thrown || |d.buffer| > maxFrameChars then Thrown(after) else Ok(d.frames, after)
  }

  class SseParser {
    var buffer: string
    var event: string
    var data: seq<string>
    var lastCr: bool

    function Model(): State
      reads this
    {
      State(buffer, event, data, lastCr)
    }

    constructor ()
      ensures Model() == INITIAL
    {
      buffer, event, data, lastCr := "", "", [], false;
    }

    method Consume(chunk: string, maxFrameChars: nat) returns (outcome: Outcome)
      modifies this
      ensures outcome == Consumed(old(Model()), chunk, maxFrameChars)
      ensures Model() == outcome.state
    {
      hide NormalizeNewlines, IndexOf, EndsWithCr, Drain, Prepend, TakeLine;
      var text := DropPairedLf(chunk, lastCr);
      lastCr := EndsWithCr(text);
      buffer := buffer + NormalizeNewlines(text);
      ghost var whole := Drain(buffer, event, data, maxFrameChars);

      var frames: seq<Frame> := [];
      PrependNothing(whole);
      var newline := IndexOf(buffer, LF);
      while newline != |buffer|
        invariant newline == IndexOf(buffer, LF)
        invariant lastCr == EndsWithCr(text)
        invariant whole == Prepend(frames, Drain(buffer, event, data, maxFrameChars))
        decreases |buffer|
      {
        var line := buffer[..newline];
        DrainLine(frames, buffer, event, data, maxFrameChars);
        buffer := buffer[newline + 1..];
        var completed, tooLarge := ApplyLine(line, maxFrameChars);
        if tooLarge {
          assert whole == Drained(frames, buffer, event, data, true);
          return Thrown(Model());
        }
        frames := frames + completed;
        newline := IndexOf(buffer, LF);
      }
      DrainRemainder(frames, buffer, event, data, maxFrameChars);
      if |buffer| > maxFrameChars {
        return Thrown(Model());
      }
      outcome := Ok(frames, Model());
    }

    /** The body of the parser's line loop. */
    method ApplyLine(line: string, maxFrameChars: nat) returns (completed: seq<Frame>, tooLarge: bool)
      modifies this`event, this`data
      ensures LineEffect(completed, event, data, tooLarge) == TakeLine(line, old(event), old(data), maxFrameChars)
    {
      completed, tooLarge := [], false;
      if line == "" {
        if event != "" || |data| > 0 {
          completed := [Frame(if event != "" then event else "message", JoinLf(data))];
        }
        event := "";
        data := [];
      } else if line[0] != ':' {
        var colon := IndexOf(line, ':');
        var field := line[..colon];
        var value := if colon == |line| then "" else DropOneSpace(line[colon + 1..]);
        if field == "event" {
          event := value;
        } else if field == "data" {
          data := data + [value];
          tooLarge := TotalLength(data) > maxFrameChars;
        }
      }
    }
  }

  /** Taking one line off the buffer, with `frames` already collected. */
  lemma DrainLine(frames: seq<Frame>, buffer: string, event: string, data: seq<string>, m: nat)
    requires IndexOf(buffer, LF) < |buffer|
    ensures var effect := TakeLine(buffer[..IndexOf(buffer, LF)], event, data, m);
      var rest := buffer[IndexOf(buffer, LF) + 1..];
      Prepend(frames, Drain(buffer, event, data, m)) ==
      if effect.thrown then Drained(frames, rest, effect.event, effect.data, true)
      else Prepend(frames + effect.frames, Drain(rest, effect.event, effect.data, m))
  {
    hide TakeLine, IndexOf;
    var effect := TakeLine(buffer[..IndexOf(buffer, LF)], event, data, m);
    Assoc(frames, effect.frames, Drain(buffer[IndexOf(buffer, LF) + 1..], effect.event, effect.data, m).frames);
  }

  lemma DrainRemainder(frames: seq<Frame>, buffer: string, event: string, data: seq<string>, m: nat)
    requires IndexOf(buffer, LF) == |buffer|
    ensures Prepend(frames, Drain(buffer, event, data, m)) == Drained(frames, buffer, event, data, false)
  {
    assert frames + [] == frames;
  }

  // ---- chunk independence ----

  /** A read loop: one call per chunk until the text ends or a call throws. */
  function Feed(state: State, chunks: seq<string>, maxFrameChars: nat): Outcome
    decreases |chunks|
  {
    if chunks == [] then Ok([], state)
    else
      var first := Consumed(state, chunks[0], maxFrameChars);
      if first.Thrown? then first
      else
        var rest := Feed(first.state, chunks[1..], maxFrameChars);
        if rest.Thrown? then rest else Ok(first.frames + rest.frames, rest.state)
  }

  /** No empty chunk arrives while a CR is waiting for its LF.  Non-empty chunks always qualify. */
  predicate NoEmptyChunkAfterCr(lastCr: bool, chunks: seq<string>)
    decreases |chunks|
  {
    chunks == [] ||
    ((lastCr ==> chunks[0] != "") &&
     NoEmptyChunkAfterCr(EndsWithCr(DropPairedLf(chunks[0], lastCr)), chunks[1..]))
  }

  /** No event name and no data are waiting to be dispatched. */
  predicate NothingPending(state: State) {
    state.event == "" && state.data == []
  }

  /** Every empty chunk that arrives while a CR is waiting is followed by text, and that text does not
      complete a CRLF in the middle of an event. */
  predicate EmptyChunksHarmless(state: State, chunks: seq<string>, maxFrameChars: nat)
    decreases |chunks|
  {
    chunks == [] ||
    (&& (state.lastCr && chunks[0] == "" ==>
           var rest := Concat(chunks[1..]); rest != "" && (rest[0] == LF ==> NothingPending(state)))
     && var first := Consumed(state, chunks[0], maxFrameChars);
        first.Ok? ==> EmptyChunksHarmless(first.state, chunks[1..], maxFrameChars))
  }

  /** What holds between calls: the buffer is an incomplete line within the cap, and empty after a CR. */
  predicate BetweenCalls(state: State, maxFrameChars: nat) {
    && |state.buffer| <= maxFrameChars && IndexOf(state.buffer, LF) == |state.buffer|
    && (state.lastCr ==> state.buffer == "")
  }

  function AfterLastLf(s: string): string {
    var newline := IndexOf(s, LF);
    if newline == |s| then s else AfterLastLf(s[newline + 1..])
  }

  /** The incomplete line the parser holds once it has seen `text`. */
  function HeldLine(state: State, text: string): string {
    AfterLastLf(state.buffer + NormalizeNewlines(DropPairedLf(text, state.lastCr)))
  }

  ghost predicate HeldLinesFit(state: State, chunks: seq<string>, maxFrameChars: nat) {
    forall i :: 0 <= i <= |chunks| ==> |HeldLine(state, Concat(chunks[..i]))| <= maxFrameChars
  }

  lemma NormalizeAfterCr(y: string)
    ensures NormalizeNewlines([CR] + y) == [LF] + NormalizeNewlines(DropPairedLf(y, true))
  {
    var z := [CR] + y;
    assert z[NextWidth(z)..] == DropPairedLf(y, true);
  }

  /** One character before more text, unless it is a CR that could still pair with an LF. */
  lemma NormalizeHead(x: string, y: string)
    requires x != "" && x != [CR]
    ensures var c, tail := if x[0] == CR then LF else x[0], x[NextWidth(x)..];
      && NormalizeNewlines(x) == [c] + NormalizeNewlines(tail)
      && NormalizeNewlines(x + y) == [c] + NormalizeNewlines(tail + y)
      && EndsWithCr(tail) == EndsWithCr(x)
  {
    assert (x + y)[NextWidth(x)..] == x[NextWidth(x)..] + y;
  }

  lemma {:induction false} NormalizeSplit(x: string, y: string)
    ensures NormalizeNewlines(x + y) == NormalizeNewlines(x) + NormalizeNewlines(DropPairedLf(y, EndsWithCr(x)))
  {
    if x == "" {
      assert x + y == y;
    } else if x == [CR] {
      NormalizeAfterCr(y);
      assert NormalizeNewlines([CR]) == [LF];
    } else {
      var c, tail := if x[0] == CR then LF else x[0], x[NextWidth(x)..];
      NormalizeHead(x, y);
      NormalizeSplit(tail, y);
      Assoc([c], NormalizeNewlines(tail), NormalizeNewlines(DropPairedLf(y, EndsWithCr(x))));
    }
  }

  lemma NormalizeChunks(lastCr: bool, a: string, b: string)
    requires lastCr ==> a != ""
    ensures var x := DropPairedLf(a, lastCr); var y := DropPairedLf(b, EndsWithCr(x));
      NormalizeNewlines(DropPairedLf(a + b, lastCr)) == NormalizeNewlines(x) + NormalizeNewlines(y)
    ensures var x := DropPairedLf(a, lastCr); var y := DropPairedLf(b, EndsWithCr(x));
      (EndsWithCr(x) ==> b != "") ==> EndsWithCr(DropPairedLf(a + b, lastCr)) == EndsWithCr(y)
  {
    hide NormalizeNewlines;
    var x := DropPairedLf(a, lastCr);
    assert DropPairedLf(a + b, lastCr) == x + b;
    NormalizeSplit(x, b);
  }

  /** `IndexOf` is the first occurrence, or the length when there is none. */
  lemma {:induction false} IndexOfFirst(s: string, c: char, i: nat)
    requires i <= |s|
    ensures IndexOf(s, c) == i <==> (forall j :: 0 <= j < i ==> s[j] != c) && (i < |s| ==> s[i] == c)
  {
    if s != "" && s[0] != c && i > 0 {
      IndexOfFirst(s[1..], c, i - 1);
      assert forall j :: 0 <= j < i - 1 ==> s[1..][j] == s[j + 1];
      assert forall j :: 1 <= j < i ==> s[j] == s[1..][j - 1];
    }
  }

  /** More text after the first line does not change the first line. */
  lemma FirstLineStays(b: string, y: string)
    requires IndexOf(b, LF) < |b|
    ensures IndexOf(b + y, LF) == IndexOf(b, LF)
    ensures (b + y)[..IndexOf(b, LF)] == b[..IndexOf(b, LF)]
    ensures (b + y)[IndexOf(b, LF) + 1..] == b[IndexOf(b, LF) + 1..] + y
  {
    IndexOfFirst(b, LF, IndexOf(b, LF));
    IndexOfFirst(b + y, LF, IndexOf(b, LF));
  }

  /** Draining `y` after an earlier result `d`, or stopping where `d` threw. */
  ghost function DrainMore(d: Drained, y: string, m: nat): Drained {
    if d.thrown then d else Prepend(d.frames, Drain(d.buffer + y, d.event, d.data, m))
  }

  ghost predicate SameUnlessThrown(d: Drained, e: Drained) {
    d.thrown == e.thrown && (d.thrown || d == e)
  }

  lemma PrependMore(frames: seq<Frame>, d: Drained, y: string, m: nat)
    ensures DrainMore(Prepend(frames, d), y, m) == Prepend(frames, DrainMore(d, y, m))
  {
    var rest := Drain(d.buffer + y, d.event, d.data, m);
    Assoc(frames, d.frames, rest.frames);
  }

  lemma {:induction false} DrainSplit(b: string, y: string, event: string, data: seq<string>, m: nat)
    ensures SameUnlessThrown(Drain(b + y, event, data, m), DrainMore(Drain(b, event, data, m), y, m))
    decreases |b|
  {
    var whole := Drain(b + y, event, data, m);
    if IndexOf(b, LF) == |b| {
      assert Prepend([], whole) == whole;
    } else {
      FirstLineStays(b, y);
      var tail := b[IndexOf(b, LF) + 1..];
      var line := TakeLine(b[..IndexOf(b, LF)], event, data, m);
      if !line.thrown {
        var mid := Drain(tail, line.event, line.data, m);
        assert Drain(b, event, data, m) == Prepend(line.frames, mid);
        assert whole == Prepend(line.frames, Drain(tail + y, line.event, line.data, m));
        PrependMore(line.frames, mid, y, m);
        DrainSplit(tail, y, line.event, line.data, m);
      }
    }
  }

  lemma {:induction false} DrainHolds(b: string, event: string, data: seq<string>, m: nat)
    ensures var d := Drain(b, event, data, m);
      !d.thrown ==> d.buffer == AfterLastLf(b) && IndexOf(d.buffer, LF) == |d.buffer|
    decreases |b|
  {
    var newline := IndexOf(b, LF);
    if newline < |b| {
      var line := TakeLine(b[..newline], event, data, m);
      DrainHolds(b[newline + 1..], line.event, line.data, m);
    }
  }

  lemma {:induction false} AfterLastLfSplit(b: string, y: string)
    ensures AfterLastLf(b + y) == AfterLastLf(AfterLastLf(b) + y)
    decreases |b|
  {
    var newline := IndexOf(b, LF);
    if newline < |b| {
      FirstLineStays(b, y);
      AfterLastLfSplit(b[newline + 1..], y);
    }
  }

  /** Two consecutive calls against one call on the joined text. */
  lemma ConsumeSplit(state: State, a: string, b: string, m: nat)
    requires state.lastCr ==> a != ""
    ensures var first := Consumed(state, a, m); var whole := Consumed(state, a + b, m);
      && (whole.Ok? && |HeldLine(state, a)| <= m ==> first.Ok?)
      && (first.Ok? && (first.state.lastCr ==> b != "") ==>
            var second := Consumed(first.state, b, m);
            whole.Ok? == second.Ok? &&
            (whole.Ok? ==> whole == Ok(first.frames + second.frames, second.state)))
  {
    var x := DropPairedLf(a, state.lastCr);
    NormalizeChunks(state.lastCr, a, b);
    var na, nb := NormalizeNewlines(x), NormalizeNewlines(DropPairedLf(b, EndsWithCr(x)));
    Assoc(state.buffer, na, nb);
    DrainSplit(state.buffer + na, nb, state.event, state.data, m);
    DrainHolds(state.buffer + na, state.event, state.data, m);
  }

  /** The held line is a property of the text seen, not of how it was cut. */
  lemma HeldLineSplit(state: State, a: string, b: string, m: nat)
    requires state.lastCr ==> a != ""
    requires Consumed(state, a, m).Ok?
    ensures HeldLine(state, a + b) == HeldLine(Consumed(state, a, m).state, b)
  {
    var x := DropPairedLf(a, state.lastCr);
    NormalizeChunks(state.lastCr, a, b);
    var na, nb := NormalizeNewlines(x), NormalizeNewlines(DropPairedLf(b, EndsWithCr(x)));
    Assoc(state.buffer, na, nb);
    DrainHolds(state.buffer + na, state.event, state.data, m);
    AfterLastLfSplit(state.buffer + na, nb);
    var next := Consumed(state, a, m).state;
    assert next.buffer == AfterLastLf(state.buffer + na) && next.lastCr == EndsWithCr(x);
    assert HeldLine(next, b) == AfterLastLf(next.buffer + nb);
  }

  lemma ConcatHead(chunks: seq<string>, i: nat)
    requires 0 < i <= |chunks|
    ensures Concat(chunks[..i]) == chunks[0] + Concat(chunks[1..][..i - 1])
  {
    assert chunks[..i][1..] == chunks[1..][..i - 1];
  }

  lemma {:induction false} IndexOfPresent(s: string, c: char)
    ensures IndexOf(s, c) < |s| <==> c in s
  {
    if s != "" {
      IndexOfPresent(s[1..], c);
      assert s == [s[0]] + s[1..];
    }
  }

  lemma {:induction false} NothingAfterFinalLf(s: string)
    requires s != "" && s[|s| - 1] == LF
    ensures AfterLastLf(s) == ""
    decreases |s|
  {
    IndexOfPresent(s, LF);
    var rest := s[IndexOf(s, LF) + 1..];
    if rest != "" {
      NothingAfterFinalLf(rest);
    }
  }

  lemma CallsKeepBetweenCalls(state: State, chunk: string, m: nat)
    requires Consumed(state, chunk, m).Ok?
    ensures BetweenCalls(Consumed(state, chunk, m).state, m)
  {
    var text := DropPairedLf(chunk, state.lastCr);
    var buffer := state.buffer + NormalizeNewlines(text);
    DrainHolds(buffer, state.event, state.data, m);
    hide Drain;
    if EndsWithCr(text) {
      var init := text[..|text| - 1];
      assert text == init + [CR];
      NormalizeSplit(init, [CR]);
      assert NormalizeNewlines([CR]) == [LF];
      assert buffer[|buffer| - 1] == LF;
      NothingAfterFinalLf(buffer);
    }
  }

  /** An empty call makes the parser forget the CR, and nothing else. */
  lemma EmptyCall(state: State, m: nat)
    requires BetweenCalls(state, m)
    ensures Consumed(state, "", m) == Ok([], state.(lastCr := false))
  {
    assert state.buffer + "" == state.buffer;
  }

  lemma LfAfterForgottenCr(state: State, text: string)
    requires state.lastCr && state.buffer == "" && text != "" && text[0] == LF
    ensures var forgot := state.(lastCr := false);
      && forgot.buffer + NormalizeNewlines(DropPairedLf(text, false)) ==
         "" + [LF] + (state.buffer + NormalizeNewlines(DropPairedLf(text, true)))
      && EndsWithCr(DropPairedLf(text, false)) == EndsWithCr(DropPairedLf(text, true))
  {
  }

  /** Forgetting the CR makes no difference to text that does not start with LF, or when nothing is
      pending: the extra empty line then dispatches nothing. */
  lemma ForgettingCrIsHarmless(state: State, text: string, m: nat)
    requires BetweenCalls(state, m) && state.lastCr
    requires text == "" || text[0] != LF || NothingPending(state)
    ensures Consumed(state.(lastCr := false), text, m) == Consumed(state, text, m)
  {
    if text != "" && text[0] == LF {
      LfAfterForgottenCr(state, text);
      var rest := state.buffer + NormalizeNewlines(DropPairedLf(text, true));
      DrainOneLine("", rest, "", [], m);
      PrependNothing(Drain(rest, "", [], m));
    }
  }

  lemma ForgettingCrKeepsHeldLine(state: State, text: string)
    requires state.lastCr && state.buffer == ""
    ensures HeldLine(state.(lastCr := false), text) == HeldLine(state, text)
  {
    if text != "" && text[0] == LF {
      LfAfterForgottenCr(state, text);
      var rest := state.buffer + NormalizeNewlines(DropPairedLf(text, true));
      assert ("" + [LF] + rest)[1..] == rest;
    }
  }

  lemma ForgettingCrKeepsHeldLines(state: State, rest: seq<string>, m: nat)
    requires BetweenCalls(state, m) && state.lastCr
    ensures HeldLinesFit(state, [""] + rest, m) <==> HeldLinesFit(state.(lastCr := false), rest, m)
  {
    var chunks, forgot := [""] + rest, state.(lastCr := false);
    forall i | 0 <= i <= |rest|
      ensures HeldLine(state, Concat(chunks[..i + 1])) == HeldLine(forgot, Concat(rest[..i]))
    {
      assert chunks[1..] == rest;
      ConcatHead(chunks, i + 1);
      assert "" + Concat(rest[..i]) == Concat(rest[..i]);
      ForgettingCrKeepsHeldLine(state, Concat(rest[..i]));
    }
    assert Concat(chunks[..0]) == "" && state.buffer + "" == state.buffer;
    assert |HeldLine(state, Concat(chunks[..0]))| <= m;
    if HeldLinesFit(forgot, rest, m) {
      forall i | 0 <= i <= |chunks| ensures |HeldLine(state, Concat(chunks[..i]))| <= m {
        if i > 0 {
          assert |HeldLine(forgot, Concat(rest[..i - 1]))| <= m;
        }
      }
    }
    if HeldLinesFit(state, chunks, m) {
      forall i | 0 <= i <= |rest| ensures |HeldLine(forgot, Concat(rest[..i]))| <= m {
        assert |HeldLine(state, Concat(chunks[..i + 1]))| <= m;
      }
    }
  }

  /** Chunk independence.  The chunked run succeeds exactly when the single call succeeds and no
      line held between chunks exceeds the cap, and then frames and final state agree. */
  lemma {:induction false} ChunkIndependence(state: State, chunks: seq<string>, m: nat)
    requires chunks != [] && BetweenCalls(state, m) && EmptyChunksHarmless(state, chunks, m)
    ensures Feed(state, chunks, m).Ok? <==>
            Consumed(state, Concat(chunks), m).Ok? && HeldLinesFit(state, chunks, m)
    ensures Feed(state, chunks, m).Ok? ==> Feed(state, chunks, m) == Consumed(state, Concat(chunks), m)
    decreases |chunks|
  {
    if |chunks| == 1 {
      OneChunk(state, chunks, m);
    } else if state.lastCr && chunks[0] == "" {
      AfterEmptyChunk(state, chunks, m);
      ChunkIndependence(state.(lastCr := false), chunks[1..], m);
    } else {
      hide Consumed, HeldLinesFit;
      var a, rest := chunks[0], chunks[1..];
      var first := Consumed(state, a, m);
      AfterFirstChunk(state, chunks, m);
      if first.Ok? {
        CallsKeepBetweenCalls(state, a, m);
        ChunkIndependence(first.state, rest, m);
      }
    }
  }

  lemma OneChunk(state: State, chunks: seq<string>, m: nat)
    requires |chunks| == 1 && BetweenCalls(state, m)
    ensures Feed(state, chunks, m).Ok? <==>
            Consumed(state, Concat(chunks), m).Ok? && HeldLinesFit(state, chunks, m)
    ensures Feed(state, chunks, m).Ok? ==> Feed(state, chunks, m) == Consumed(state, Concat(chunks), m)
  {
    var a := chunks[0];
    var first := Consumed(state, a, m);
    ConcatSingle(a);
    assert chunks == [a] && chunks[..1] == chunks && chunks[..0] == [];
    DrainHolds(state.buffer + NormalizeNewlines(DropPairedLf(a, state.lastCr)), state.event, state.data, m);
    assert HeldLine(state, "") == state.buffer by { assert state.buffer + "" == state.buffer; }
    if first.Ok? {
      assert first.frames + [] == first.frames;
    }
  }

  lemma AfterEmptyChunk(state: State, chunks: seq<string>, m: nat)
    requires |chunks| > 1 && BetweenCalls(state, m) && EmptyChunksHarmless(state, chunks, m)
    requires state.lastCr && chunks[0] == ""
    ensures var forgot := state.(lastCr := false);
      && BetweenCalls(forgot, m) && EmptyChunksHarmless(forgot, chunks[1..], m)
      && Feed(state, chunks, m) == Feed(forgot, chunks[1..], m)
      && Consumed(state, Concat(chunks), m) == Consumed(forgot, Concat(chunks[1..]), m)
      && (HeldLinesFit(state, chunks, m) <==> HeldLinesFit(forgot, chunks[1..], m))
  {
    hide Consumed, HeldLinesFit;
    EmptyCall(state, m);
    var rest := Feed(state.(lastCr := false), chunks[1..], m);
    assert rest.Ok? ==> [] + rest.frames == rest.frames;
    assert Concat(chunks) == "" + Concat(chunks[1..]) == Concat(chunks[1..]);
    ForgettingCrIsHarmless(state, Concat(chunks[1..]), m);
    assert chunks == [""] + chunks[1..];
    ForgettingCrKeepsHeldLines(state, chunks[1..], m);
  }

  lemma AfterFirstChunk(state: State, chunks: seq<string>, m: nat)
    requires |chunks| > 1 && BetweenCalls(state, m) && EmptyChunksHarmless(state, chunks, m)
    requires state.lastCr ==> chunks[0] != ""
    ensures var first, whole := Consumed(state, chunks[0], m), Consumed(state, Concat(chunks), m);
      && (whole.Ok? && HeldLinesFit(state, chunks, m) ==> first.Ok?)
      && (first.Ok? ==>
            var second := Consumed(first.state, Concat(chunks[1..]), m);
            && EmptyChunksHarmless(first.state, chunks[1..], m)
            && whole.Ok? == second.Ok?
            && (whole.Ok? ==> whole == Ok(first.frames + second.frames, second.state))
            && (HeldLinesFit(state, chunks, m) <==> HeldLinesFit(first.state, chunks[1..], m)))
  {
    var a, rest := chunks[0], chunks[1..];
    assert chunks[..1] == [a];
    ConcatSingle(a);
    assert HeldLinesFit(state, chunks, m) ==> |HeldLine(state, Concat(chunks[..1]))| <= m;
    hide HeldLinesFit, HeldLine, Consumed;
    assert Concat(chunks) == a + Concat(rest);
    assert Concat(rest) == rest[0] + Concat(rest[1..]);
    ConsumeSplit(state, a, Concat(rest), m);
    if Consumed(state, a, m).Ok? {
      HeldLinesSplit(state, chunks, m);
    }
  }

  /** Without an empty chunk after a CR there is nothing to check along the run. */
  lemma {:induction false} NoEmptyChunkIsHarmless(state: State, chunks: seq<string>, m: nat)
    requires NoEmptyChunkAfterCr(state.lastCr, chunks)
    ensures EmptyChunksHarmless(state, chunks, m)
    decreases |chunks|
  {
    if chunks != [] && Consumed(state, chunks[0], m).Ok? {
      NoEmptyChunkIsHarmless(Consumed(state, chunks[0], m).state, chunks[1..], m);
    }
  }

  lemma HeldLinesSplit(state: State, chunks: seq<string>, m: nat)
    requires chunks != [] && (state.lastCr ==> chunks[0] != "")
    requires |state.buffer| <= m && IndexOf(state.buffer, LF) == |state.buffer|
    requires Consumed(state, chunks[0], m).Ok?
    ensures HeldLinesFit(state, chunks, m) <==> HeldLinesFit(Consumed(state, chunks[0], m).state, chunks[1..], m)
  {
    var a, rest := chunks[0], chunks[1..];
    var next := Consumed(state, a, m).state;
    assert HeldLine(state, Concat(chunks[..0])) == state.buffer by { assert state.buffer + "" == state.buffer; }
    forall i | 0 <= i <= |rest|
      ensures HeldLine(state, Concat(chunks[..i + 1])) == HeldLine(next, Concat(rest[..i]))
    {
      ConcatHead(chunks, i + 1);
      HeldLineSplit(state, a, Concat(rest[..i]), m);
    }
    if HeldLinesFit(next, rest, m) {
      forall i | 0 <= i <= |chunks|
        ensures |HeldLine(state, Concat(chunks[..i]))| <= m
      {
        if i > 0 {
          assert |HeldLine(next, Concat(rest[..i - 1]))| <= m;
        }
      }
    }
    if HeldLinesFit(state, chunks, m) {
      forall i | 0 <= i <= |rest|
        ensures |HeldLine(next, Concat(rest[..i]))| <= m
      {
        assert |HeldLine(state, Concat(chunks[..i + 1]))| <= m;
      }
    }
  }

  // ---- where chunking does matter ----

  /** An empty chunk is invisible exactly when no CR is waiting for its LF. */
  lemma EmptyChunkIsInvisible(state: State, m: nat)
    requires |state.buffer| <= m && IndexOf(state.buffer, LF) == |state.buffer|
    ensures Consumed(state, "", m) == Ok([], state) <==> !state.lastCr
  {
    assert state.buffer + "" == state.buffer;
  }

  /** An empty chunk between a CR and its LF dispatches a pending event one line too early. */
  lemma EmptyChunkInsideCrlf(event: string, data: seq<string>, m: nat)
    requires event != "" || data != []
    ensures var pending := State("", event, data, true);
      && Consumed(pending, "\n", m) == Ok([], State("", event, data, false))
      && Feed(pending, ["", "\n"], m) ==
         Ok([Frame(if event == "" then "message" else event, JoinLf(data))], INITIAL)
  {
    var pending, split := State("", event, data, true), State("", event, data, false);
    assert Consumed(pending, "", m) == Ok([], split);
    assert NormalizeNewlines("\n") == "\n" by { NormalizeNoCr("\n"); }
    assert "" + "\n" == "\n" && "\n"[1..] == "";
    var second := Consumed(split, "\n", m);
    var chunks := ["", "\n"];
    assert chunks[1..] == ["\n"] && ["\n"][1..] == [];
    assert Feed(split, ["\n"], m) == second;
  }

  ghost predicate EmptyChunkNeverMatters(state: State, m: nat) {
    forall text: string :: Feed(state, ["", text], m) == Consumed(state, text, m)
  }

  /** An empty chunk makes no difference to any text that may follow exactly when no CR is waiting or
      nothing is pending. */
  lemma EmptyChunkNeverMattersIff(state: State, m: nat)
    requires BetweenCalls(state, m)
    ensures EmptyChunkNeverMatters(state, m) <==> !state.lastCr || NothingPending(state)
  {
    hide Consumed;
    EmptyCall(state, m);
    if !state.lastCr || NothingPending(state) {
      forall text: string ensures Feed(state, ["", text], m) == Consumed(state, text, m) {
        FeedTwo(state, text, m);
        if state.lastCr {
          ForgettingCrIsHarmless(state, text, m);
        }
      }
    } else {
      EmptyChunkInsideCrlf(state.event, state.data, m);
      assert state == State("", state.event, state.data, true);
      assert Feed(state, ["", "\n"], m) != Consumed(state, "\n", m);
    }
  }

  lemma FeedTwo(state: State, text: string, m: nat)
    requires Consumed(state, "", m) == Ok([], state.(lastCr := false))
    ensures Feed(state, ["", text], m) == Consumed(state.(lastCr := false), text, m)
  {
    hide Consumed;
    var next := Consumed(state.(lastCr := false), text, m);
    assert ["", text][1..] == [text] && [text][1..] == [];
    if next.Ok? {
      assert next.frames + [] == next.frames && [] + next.frames == next.frames;
    }
    assert Feed(state.(lastCr := false), [text], m) == next;
  }

  /** The cap also bounds the held line: a long comment passes whole and throws in two pieces. */
  lemma CapDependsOnChunking(comment: string, m: nat)
    requires LF !in comment && CR !in comment && |comment| > m && comment[0] == ':'
    ensures Consumed(INITIAL, comment + "\n", m) == Ok([], INITIAL)
    ensures Feed(INITIAL, [comment, "\n"], m).Thrown?
  {
    IndexOfPresent(comment, LF);
    CommentPasses(comment, m);
    CommentIsHeld(comment, m);
  }

  lemma CommentPasses(comment: string, m: nat)
    requires IndexOf(comment, LF) == |comment| && CR !in comment && comment != "" && comment[0] == ':'
    ensures Consumed(INITIAL, comment + "\n", m) == Ok([], INITIAL)
  {
    hide Drain, NormalizeNewlines, IndexOf;
    assert comment + "\n" == comment + [LF] + "";
    ConsumeWithoutCr(comment + "\n", m);
    DrainOneLine(comment, "", "", [], m);
    DrainNothing("", [], m);
  }

  lemma DrainNothing(event: string, data: seq<string>, m: nat)
    ensures Drain("", event, data, m) == Drained([], "", event, data, false)
  {
  }

  lemma CommentIsHeld(comment: string, m: nat)
    requires IndexOf(comment, LF) == |comment| > m && CR !in comment
    ensures Feed(INITIAL, [comment, "\n"], m).Thrown?
  {
    hide NormalizeNewlines, IndexOf;
    ConsumeWithoutCr(comment, m);
  }

  // ---- printing and parsing back ----

  function SplitLf(s: string): seq<string>
    decreases |s|
  {
    var newline := IndexOf(s, LF);
    if newline == |s| then [s] else [s[..newline]] + SplitLf(s[newline + 1..])
  }

  function PrintData(parts: seq<string>): string {
    if parts == [] then "" else "data: " + parts[0] + [LF] + PrintData(parts[1..])
  }

  function PrintFrame(frame: Frame): string {
    "event: " + frame.event + [LF] + (PrintData(SplitLf(frame.data)) + [LF])
  }

  function Print(frames: seq<Frame>): string {
    if frames == [] then "" else PrintFrame(frames[0]) + Print(frames[1..])
  }

  /** A frame the format can carry under the cap. */
  predicate Printable(frame: Frame, maxFrameChars: nat) {
    && CR !in frame.event && LF !in frame.event && CR !in frame.data
    && TotalLength(SplitLf(frame.data)) <= maxFrameChars
  }

  /** The client's name for an event without one. */
  function WithDefaultEvent(frame: Frame): Frame {
    if frame.event == "" then Frame("message", frame.data) else frame
  }

  function WithDefaultEvents(frames: seq<Frame>): seq<Frame> {
    if frames == [] then [] else [WithDefaultEvent(frames[0])] + WithDefaultEvents(frames[1..])
  }

  lemma PrependNothing(d: Drained)
    ensures Prepend([], d) == d
  {
    assert [] + d.frames == d.frames;
  }

  lemma DrainOneLine(line: string, rest: string, event: string, data: seq<string>, m: nat)
    requires IndexOf(line, LF) == |line|
    requires !TakeLine(line, event, data, m).thrown
    ensures var effect := TakeLine(line, event, data, m);
      Drain(line + [LF] + rest, event, data, m) == Prepend(effect.frames, Drain(rest, effect.event, effect.data, m))
  {
    var text := line + [LF] + rest;
    IndexOfFirst(line, LF, |line|);
    IndexOfFirst(text, LF, |line|);
    assert text[..|line|] == line && text[|line| + 1..] == rest;
  }

  lemma TakeEventLine(name: string, event: string, data: seq<string>, m: nat)
    ensures TakeLine("event: " + name, event, data, m) == LineEffect([], name, data, false)
  {
    var line := "event: " + name;
    IndexOfFirst(line, ':', 5);
    assert line[..5] == "event" && DropOneSpace(line[6..]) == name;
  }

  lemma TakeDataLine(value: string, event: string, data: seq<string>, m: nat)
    ensures TakeLine("data: " + value, event, data, m) ==
            LineEffect([], event, data + [value], TotalLength(data + [value]) > m)
  {
    var line := "data: " + value;
    IndexOfFirst(line, ':', 4);
    assert line[..4] == "data" && DropOneSpace(line[5..]) == value;
  }

  lemma NoLf(prefix: string, s: string)
    requires LF !in prefix && LF !in s
    ensures IndexOf(prefix + s, LF) == |prefix + s|
  {
    IndexOfFirst(prefix + s, LF, |prefix + s|);
  }

  lemma {:induction false} TotalLengthAppend(a: seq<string>, b: seq<string>)
    ensures TotalLength(a + b) == TotalLength(a) + TotalLength(b)
  {
    if b == [] {
      assert a + b == a;
    } else {
      assert (a + b)[..|a + b| - 1] == a + b[..|b| - 1];
      TotalLengthAppend(a, b[..|b| - 1]);
    }
  }

  lemma DrainDataLine(value: string, rest: string, event: string, data: seq<string>, m: nat)
    requires LF !in value && TotalLength(data + [value]) <= m
    ensures Drain("data: " + value + [LF] + rest, event, data, m) == Drain(rest, event, data + [value], m)
  {
    NoLf("data: ", value);
    TakeDataLine(value, event, data, m);
    DrainOneLine("data: " + value, rest, event, data, m);
    PrependNothing(Drain(rest, event, data + [value], m));
  }

  lemma {:induction false} DrainPrintedData(parts: seq<string>, rest: string, event: string, data: seq<string>, m: nat)
    requires forall i :: 0 <= i < |parts| ==> LF !in parts[i]
    requires TotalLength(data + parts) <= m
    ensures Drain(PrintData(parts) + rest, event, data, m) == Drain(rest, event, data + parts, m)
    decreases |parts|
  {
    if parts == [] {
      assert "" + rest == rest && data + parts == data;
    } else {
      var value, more := parts[0], PrintData(parts[1..]);
      assert data + parts == (data + [value]) + parts[1..];
      TotalLengthAppend(data + [value], parts[1..]);
      DrainDataLine(value, more + rest, event, data, m);
      Assoc("data: " + value + [LF], more, rest);
      DrainPrintedData(parts[1..], rest, event, data + [value], m);
    }
  }

  lemma JoinFirst(first: string, rest: seq<string>)
    requires rest != []
    ensures JoinLf([first] + rest) == first + ([LF] + JoinLf(rest))
  {
  }

  lemma {:induction false} JoinSplit(s: string)
    ensures SplitLf(s) != [] && JoinLf(SplitLf(s)) == s
    decreases |s|
  {
    hide IndexOf;
    var newline := IndexOf(s, LF);
    if newline < |s| {
      var tail := s[newline + 1..];
      JoinSplit(tail);
      JoinFirst(s[..newline], SplitLf(tail));
      IndexOfFirst(s, LF, newline);
      assert s == s[..newline] + ([LF] + tail);
    }
  }

  lemma {:induction false} SplitLfRemovesLf(s: string)
    ensures forall i :: 0 <= i < |SplitLf(s)| ==> LF !in SplitLf(s)[i]
    decreases |s|
  {
    var newline := IndexOf(s, LF);
    IndexOfFirst(s, LF, newline);
    if newline < |s| {
      SplitLfRemovesLf(s[newline + 1..]);
    }
  }

  lemma {:induction false} SplitLfKeepsNoCr(s: string)
    requires CR !in s
    ensures forall i :: 0 <= i < |SplitLf(s)| ==> CR !in SplitLf(s)[i]
    decreases |s|
  {
    var newline := IndexOf(s, LF);
    if newline < |s| {
      SplitLfKeepsNoCr(s[newline + 1..]);
    }
  }

  lemma DispatchAtBlankLine(rest: string, event: string, data: seq<string>, m: nat)
    requires data != []
    ensures Drain([LF] + rest, event, data, m) ==
            Prepend([WithDefaultEvent(Frame(event, JoinLf(data)))], Drain(rest, "", [], m))
  {
    DrainOneLine("", rest, event, data, m);
    assert "" + [LF] + rest == [LF] + rest;
  }

  lemma DrainPrintedBody(frame: Frame, rest: string, m: nat)
    requires Printable(frame, m)
    ensures Drain((PrintData(SplitLf(frame.data)) + [LF]) + rest, frame.event, [], m) ==
            Prepend([WithDefaultEvent(frame)], Drain(rest, "", [], m))
  {
    var parts := SplitLf(frame.data);
    JoinSplit(frame.data);
    SplitLfRemovesLf(frame.data);
    Assoc(PrintData(parts), [LF], rest);
    assert [] + parts == parts;
    DrainPrintedData(parts, [LF] + rest, frame.event, [], m);
    DispatchAtBlankLine(rest, frame.event, parts, m);
  }

  lemma DrainPrintedFrame(frame: Frame, rest: string, m: nat)
    requires Printable(frame, m)
    ensures Drain(PrintFrame(frame) + rest, "", [], m) == Prepend([WithDefaultEvent(frame)], Drain(rest, "", [], m))
  {
    var line, body := "event: " + frame.event, PrintData(SplitLf(frame.data)) + [LF];
    NoLf("event: ", frame.event);
    TakeEventLine(frame.event, "", [], m);
    DrainOneLine(line, body + rest, "", [], m);
    assert PrintFrame(frame) + rest == line + [LF] + (body + rest) by {
      Assoc(line + [LF], body, rest);
    }
    PrependNothing(Drain(body + rest, frame.event, [], m));
    DrainPrintedBody(frame, rest, m);
  }

  lemma {:induction false} DrainPrinted(frames: seq<Frame>, m: nat)
    requires forall i :: 0 <= i < |frames| ==> Printable(frames[i], m)
    ensures Drain(Print(frames), "", [], m) == Drained(WithDefaultEvents(frames), "", "", [], false)
  {
    if frames != [] {
      DrainPrintedFrame(frames[0], Print(frames[1..]), m);
      DrainPrinted(frames[1..], m);
    }
  }

  lemma {:induction false} PrintedDataHasNoCr(parts: seq<string>)
    requires forall i :: 0 <= i < |parts| ==> CR !in parts[i]
    ensures CR !in PrintData(parts)
  {
    if parts != [] {
      PrintedDataHasNoCr(parts[1..]);
    }
  }

  lemma {:induction false} PrintedHasNoCr(frames: seq<Frame>, m: nat)
    requires forall i :: 0 <= i < |frames| ==> Printable(frames[i], m)
    ensures CR !in Print(frames)
  {
    if frames != [] {
      SplitLfKeepsNoCr(frames[0].data);
      PrintedDataHasNoCr(SplitLf(frames[0].data));
      PrintedHasNoCr(frames[1..], m);
    }
  }

  lemma {:induction false} NormalizeNoCr(s: string)
    requires CR !in s
    ensures NormalizeNewlines(s) == s
  {
    if s != "" {
      NormalizeNoCr(s[1..]);
      assert s == [s[0]] + s[1..];
    }
  }

  lemma {:induction false} NoCrNeverWaits(chunks: seq<string>)
    requires CR !in Concat(chunks)
    ensures NoEmptyChunkAfterCr(false, chunks)
  {
    if chunks != [] {
      assert Concat(chunks) == chunks[0] + Concat(chunks[1..]);
      assert !EndsWithCr(chunks[0]);
      NoCrNeverWaits(chunks[1..]);
    }
  }

  lemma {:induction false} DefaultEventsAt(frames: seq<Frame>)
    ensures |WithDefaultEvents(frames)| == |frames|
    ensures forall i :: 0 <= i < |frames| ==> WithDefaultEvents(frames)[i] == WithDefaultEvent(frames[i])
  {
    if frames != [] {
      DefaultEventsAt(frames[1..]);
    }
  }

  lemma DefaultEventsAreIdentity(frames: seq<Frame>)
    ensures WithDefaultEvents(frames) == frames <==> forall i :: 0 <= i < |frames| ==> frames[i].event != ""
  {
    DefaultEventsAt(frames);
    if forall i :: 0 <= i < |frames| ==> frames[i].event != "" {
      assert WithDefaultEvents(frames) == frames;
    }
  }

  lemma ParsePrinted(frames: seq<Frame>, m: nat)
    requires forall i :: 0 <= i < |frames| ==> Printable(frames[i], m)
    ensures Consumed(INITIAL, Print(frames), m) == Ok(WithDefaultEvents(frames), INITIAL)
  {
    PrintedHasNoCr(frames, m);
    DrainPrinted(frames, m);
    ConsumeWithoutCr(Print(frames), m);
  }

  lemma ConsumeWithoutCr(text: string, m: nat)
    requires CR !in text
    ensures var d := Drain(text, "", [], m); var after := State(d.buffer, d.event, d.data, false);
      Consumed(INITIAL, text, m) == if d.thrown || |d.buffer| > m then Thrown(after) else Ok(d.frames, after)
  {
    NormalizeNoCr(text);
    assert INITIAL.buffer + text == text;
    assert text != "" ==> text[|text| - 1] in text;
  }

  /** Round trip: any non-throwing chunking of printed frames returns them, unnamed events as
      "message"; so it returns exactly those frames when and only when every event is named. */
  lemma RoundTrip(frames: seq<Frame>, chunks: seq<string>, m: nat)
    requires forall i :: 0 <= i < |frames| ==> Printable(frames[i], m)
    requires Concat(chunks) == Print(frames)
    requires Feed(INITIAL, chunks, m).Ok?
    ensures Feed(INITIAL, chunks, m) == Ok(WithDefaultEvents(frames), INITIAL)
    ensures Feed(INITIAL, chunks, m).frames == frames <==> forall i :: 0 <= i < |frames| ==> frames[i].event != ""
  {
    DefaultEventsAreIdentity(frames);
    if chunks != [] {
      ParsePrinted(frames, m);
      PrintedHasNoCr(frames, m);
      NoCrNeverWaits(chunks);
      NoEmptyChunkIsHarmless(INITIAL, chunks, m);
      ChunkIndependence(INITIAL, chunks, m);
    } else if frames != [] {
      PrintedIsNotEmpty(frames);
      assert false;
    }
  }

  lemma PrintedIsNotEmpty(frames: seq<Frame>)
    requires frames != []
    ensures Print(frames) != ""
  {
    assert |PrintFrame(frames[0])| > 0;
  }


  // ---- what single lines do, and how much text a frame can hold ----

  /** At the start of a line: nothing buffered and no CR waiting. */
  predicate AtLineStart(state: State) {
    state.buffer == "" && !state.lastCr
  }

  predicate OneLine(s: string) {
    CR !in s && LF !in s
  }

  lemma ConsumeLine(state: State, line: string, m: nat)
    requires AtLineStart(state) && OneLine(line)
    ensures var effect := TakeLine(line, state.event, state.data, m);
      var after := State("", effect.event, effect.data, false);
      Consumed(state, line + "\n", m) == if effect.thrown then Thrown(after) else Ok(effect.frames, after)
  {
    hide TakeLine, NormalizeNewlines, Drain, IndexOf;
    var text := line + "\n";
    NormalizeNoCr(text);
    assert DropPairedLf(text, false) == text && "" + text == text && !EndsWithCr(text);
    DrainLastLine(line, state.event, state.data, m);
  }

  lemma DrainLastLine(line: string, event: string, data: seq<string>, m: nat)
    requires OneLine(line)
    ensures var effect := TakeLine(line, event, data, m);
      Drain(line + "\n", event, data, m) ==
      Drained(if effect.thrown then [] else effect.frames, "", effect.event, effect.data, effect.thrown)
  {
    hide TakeLine, IndexOf;
    var text, effect := line + [LF] + "", TakeLine(line, event, data, m);
    NoLf("", line);
    assert text == line + "\n" && "" + line == line;
    if effect.thrown {
      IndexOfFirst(text, LF, |line|);
      assert text[..|line|] == line && text[|line| + 1..] == "";
    } else {
      DrainOneLine(line, "", event, data, m);
      DrainNothing(effect.event, effect.data, m);
      assert effect.frames + [] == effect.frames;
    }
  }

  /** Joining puts one line break between neighbours. */
  lemma {:induction false} JoinLength(parts: seq<string>)
    requires parts != []
    ensures |JoinLf(parts)| == TotalLength(parts) + |parts| - 1
  {
    if |parts| > 1 {
      JoinLength(parts[1..]);
      assert parts == [parts[0]] + parts[1..];
      TotalLengthAppend([parts[0]], parts[1..]);
    }
    assert [parts[0]][..0] == [];
  }

  /** A data line is kept whole, or refused exactly when the event would hold more than the cap, line
      breaks not counted.  The first data line of an event is refused when it alone is too long. */
  lemma DataLineCap(state: State, value: string, m: nat)
    requires AtLineStart(state) && OneLine(value)
    ensures var after, outcome := state.(data := state.data + [value]), Consumed(state, "data: " + value + "\n", m);
      && outcome == (if |JoinLf(after.data)| > m + |state.data| then Thrown(after) else Ok([], after))
      && (state.data == [] ==> (outcome.Thrown? <==> |value| > m))
  {
    ConsumeLine(state, "data: " + value, m);
    TakeDataLine(value, state.event, state.data, m);
    JoinLength(state.data + [value]);
  }

  /** Only one space after the colon is dropped, and it may be missing, like the colon itself. */
  lemma OptionalSpace(state: State, value: string, m: nat)
    requires AtLineStart(state) && OneLine(value)
    ensures value == "" || value[0] != ' ' ==>
      Consumed(state, "data:" + value + "\n", m) == Consumed(state, "data: " + value + "\n", m)
    ensures value != "" && value[0] == ' ' ==>
      Consumed(state, "data:" + value + "\n", m) == Consumed(state, "data: " + value[1..] + "\n", m)
    ensures Consumed(state, "data" + "\n", m) == Consumed(state, "data: " + "" + "\n", m)
  {
    hide TakeLine, Consumed, TotalLength;
    var dropped := if value != "" && value[0] == ' ' then value[1..] else value;
    TakeBareDataLine(value, state.event, state.data, m);
    ConsumeLine(state, "data:" + value, m);
    ConsumeLine(state, "data", m);
    TakeDataLine(dropped, state.event, state.data, m);
    ConsumeLine(state, "data: " + dropped, m);
    TakeDataLine("", state.event, state.data, m);
    ConsumeLine(state, "data: " + "", m);
  }

  lemma TakeBareDataLine(value: string, event: string, data: seq<string>, m: nat)
    ensures var dropped := if value != "" && value[0] == ' ' then value[1..] else value;
      TakeLine("data:" + value, event, data, m) ==
      LineEffect([], event, data + [dropped], TotalLength(data + [dropped]) > m)
    ensures TakeLine("data", event, data, m) == LineEffect([], event, data + [""], TotalLength(data + [""]) > m)
  {
    var bare := "data:" + value;
    IndexOfFirst(bare, ':', 4);
    IndexOfFirst("data", ':', 4);
    assert bare[..4] == "data" && bare[5..] == value && "data"[..4] == "data";
  }

  /** The last event line names the event, whatever its length; a blank line dispatches what there is
      and starts afresh, and dispatches nothing when there is nothing. */
  lemma EventAndBlankLines(state: State, name: string, m: nat)
    requires AtLineStart(state) && OneLine(name)
    ensures Consumed(state, "event: " + name + "\n", m) == Ok([], state.(event := name))
    ensures state.event != "" ==> Consumed(state, "\n", m) == Ok([Frame(state.event, JoinLf(state.data))], INITIAL)
    ensures state.event == "" && state.data != [] ==>
      Consumed(state, "\n", m) == Ok([Frame("message", JoinLf(state.data))], INITIAL)
    ensures state.event == "" && state.data == [] ==> Consumed(state, "\n", m) == Ok([], INITIAL)
  {
    ConsumeLine(state, "event: " + name, m);
    TakeEventLine(name, state.event, state.data, m);
    ConsumeLine(state, "", m);
    assert "" + "\n" == "\n";
  }

  /** Comments and fields with any other name leave no trace. */
  lemma OtherLinesAreIgnored(state: State, name: string, value: string, m: nat)
    requires AtLineStart(state) && OneLine(name) && OneLine(value)
    requires ':' !in name && name != "event" && name != "data"
    ensures Consumed(state, name + ":" + value + "\n", m) == Ok([], state)
    ensures name != "" ==> Consumed(state, name + "\n", m) == Ok([], state)
  {
    var line := name + ":" + value;
    IndexOfFirst(line, ':', |name|);
    IndexOfFirst(name, ':', |name|);
    assert line[..|name|] == name && name[..|name|] == name;
    ConsumeLine(state, line, m);
    ConsumeLine(state, name, m);
  }

  // ---- the cap over whole runs ----

  function LineBreaks(s: string): nat {
    if s == "" then 0 else (if s[0] == LF then 1 else 0) + LineBreaks(s[1..])
  }

  /** A frame within the cap: its characters, not counting line breaks. */
  predicate FrameFits(frame: Frame, m: nat) {
    |frame.data| <= m + LineBreaks(frame.data)
  }

  ghost predicate PendingFits(data: seq<string>, m: nat) {
    TotalLength(data) <= m && forall i :: 0 <= i < |data| ==> LF !in data[i]
  }

  lemma {:induction false} LineBreaksAppend(a: string, b: string)
    ensures LineBreaks(a + b) == LineBreaks(a) + LineBreaks(b)
    ensures LF !in a ==> LineBreaks(a) == 0
  {
    if a == "" {
      assert a + b == b;
    } else {
      assert (a + b)[1..] == a[1..] + b;
      LineBreaksAppend(a[1..], b);
    }
  }

  lemma {:induction false} JoinBreaks(parts: seq<string>)
    requires parts != [] && forall i :: 0 <= i < |parts| ==> LF !in parts[i]
    ensures LineBreaks(JoinLf(parts)) == |parts| - 1
  {
    LineBreaksAppend(parts[0], if |parts| == 1 then "" else [LF] + JoinLf(parts[1..]));
    if |parts| > 1 {
      LineBreaksAppend([LF], JoinLf(parts[1..]));
      JoinBreaks(parts[1..]);
    }
  }

  lemma LineFits(line: string, event: string, data: seq<string>, m: nat)
    requires PendingFits(data, m) && LF !in line
    ensures var effect := TakeLine(line, event, data, m);
      && (!effect.thrown ==> PendingFits(effect.data, m))
      && forall i :: 0 <= i < |effect.frames| ==> FrameFits(effect.frames[i], m)
  {
    hide TakeField, JoinLf, LineBreaks;
    if line == "" {
      JoinFits(event, data, m);
    } else if line[0] != ':' {
      FieldFits(line, IndexOf(line, ':'), event, data, m);
    }
  }

  lemma JoinFits(event: string, data: seq<string>, m: nat)
    requires PendingFits(data, m)
    ensures forall name :: FrameFits(Frame(name, JoinLf(data)), m)
  {
    if data != [] {
      JoinLength(data);
      JoinBreaks(data);
      hide JoinLf;
    }
  }

  lemma FieldFits(line: string, colon: nat, event: string, data: seq<string>, m: nat)
    requires PendingFits(data, m) && LF !in line && colon <= |line|
    ensures var effect := TakeField(line, colon, event, data, m);
      effect.frames == [] && (!effect.thrown ==> PendingFits(effect.data, m))
  {
    hide TotalLength;
    var value := if colon == |line| then "" else DropOneSpace(line[colon + 1..]);
    assert LF !in value;
  }

  lemma {:induction false} DrainFits(buffer: string, event: string, data: seq<string>, m: nat)
    requires PendingFits(data, m)
    ensures var d := Drain(buffer, event, data, m);
      !d.thrown ==> PendingFits(d.data, m) && forall i :: 0 <= i < |d.frames| ==> FrameFits(d.frames[i], m)
    decreases |buffer|
  {
    hide TakeLine, PendingFits, FrameFits;
    var newline := IndexOf(buffer, LF);
    if newline < |buffer| {
      IndexOfFirst(buffer, LF, newline);
      LineFits(buffer[..newline], event, data, m);
      var effect := TakeLine(buffer[..newline], event, data, m);
      if !effect.thrown {
        DrainFits(buffer[newline + 1..], effect.event, effect.data, m);
      }
    }
  }

  /** Over any run of the parser, every frame it returns is within the cap. */
  lemma {:induction false} FramesFit(state: State, chunks: seq<string>, m: nat)
    requires PendingFits(state.data, m) && Feed(state, chunks, m).Ok?
    ensures PendingFits(Feed(state, chunks, m).state.data, m)
    ensures forall i :: 0 <= i < |Feed(state, chunks, m).frames| ==> FrameFits(Feed(state, chunks, m).frames[i], m)
    decreases |chunks|
  {
    if chunks != [] {
      var buffer := state.buffer + NormalizeNewlines(DropPairedLf(chunks[0], state.lastCr));
      DrainFits(buffer, state.event, state.data, m);
      hide Drain, PendingFits, FrameFits;
      FramesFit(Consumed(state, chunks[0], m).state, chunks[1..], m);
    }
  }

  // ---- the three line endings ----

  predicate IsLineEnding(ending: string) {
    ending == "\n" || ending == "\r\n" || ending == "\r"
  }

  /** The same text with every LF written as `ending`. */
  function WithEndings(s: string, ending: string): string {
    if s == "" then "" else (if s[0] == LF then ending else [s[0]]) + WithEndings(s[1..], ending)
  }

  /** Only the plain ending ever puts an LF in front, and only the bare CR leaves one behind. */
  lemma {:induction false} EndingsAtTheEnds(s: string, ending: string)
    requires IsLineEnding(ending) && CR !in s
    ensures var text := WithEndings(s, ending);
      && (ending != "\n" ==> text == "" || text[0] != LF)
      && (text == "" <==> s == "")
      && (EndsWithCr(text) <==> ending == "\r" && s != "" && s[|s| - 1] == LF)
  {
    if s != "" {
      EndingsAtTheEnds(s[1..], ending);
      var first, tail := if s[0] == LF then ending else [s[0]], WithEndings(s[1..], ending);
      assert first != "" && (tail == "" ==> first + tail == first);
      assert tail != "" ==> (first + tail)[|first + tail| - 1] == tail[|tail| - 1];
    }
  }

  lemma {:induction false} EndingsAreEquivalent(s: string, ending: string)
    requires IsLineEnding(ending) && CR !in s
    ensures NormalizeNewlines(WithEndings(s, ending)) == s
  {
    hide NormalizeNewlines;
    if s == "" {
      NormalizeNoCr("");
    } else {
      var first, tail := if s[0] == LF then ending else [s[0]], WithEndings(s[1..], ending);
      EndingsAreEquivalent(s[1..], ending);
      EndingsAtTheEnds(s[1..], ending);
      NormalizeEnding(ending);
      NormalizeNoCr([s[0]]);
      hide WithEndings;
      assert NormalizeNewlines(first) == [s[0]];
      NormalizeSplit(first, tail);
      assert DropPairedLf(tail, EndsWithCr(first)) == tail;
    }
  }

  lemma NormalizeEnding(ending: string)
    requires IsLineEnding(ending)
    ensures NormalizeNewlines(ending) == "\n"
  {
    assert "\r\n"[2..] == "" && "\n"[1..] == "" && "\r"[1..] == "";
  }

  /** Printed frames are returned whichever line ending they are written with. */
  lemma ParsePrintedWithAnyEnding(frames: seq<Frame>, ending: string, m: nat)
    requires IsLineEnding(ending) && forall i :: 0 <= i < |frames| ==> Printable(frames[i], m)
    ensures Consumed(INITIAL, WithEndings(Print(frames), ending), m) ==
            Ok(WithDefaultEvents(frames), INITIAL.(lastCr := frames != [] && ending == "\r"))
  {
    hide Print, Printable, WithEndings, NormalizeNewlines, Drain, WithDefaultEvents, EndsWithCr, IndexOf;
    var text := WithEndings(Print(frames), ending);
    PrintedHasNoCr(frames, m);
    EndingsAreEquivalent(Print(frames), ending);
    EndingsAtTheEnds(Print(frames), ending);
    PrintedEndsWithLf(frames);
    DrainPrinted(frames, m);
    assert INITIAL.buffer + Print(frames) == Print(frames);
    assert DropPairedLf(text, INITIAL.lastCr) == text;
  }

  lemma {:induction false} PrintedEndsWithLf(frames: seq<Frame>)
    ensures frames != [] ==> Print(frames) != "" && Print(frames)[|Print(frames)| - 1] == LF
    ensures frames == [] ==> Print(frames) == ""
  {
    if frames != [] {
      PrintedEndsWithLf(frames[1..]);
    }
  }
}
