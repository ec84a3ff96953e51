/** Streaming one answer to a client across model attempts.

    The client sees only events (delta, replace, attempt). The stream decides which
    deltas are stale, when a new attempt replaces what is shown, and whether the final
    answer has to be streamed again. Events reach the client in the order in which the
    stream's lock admits them. */
module AnswerStream {
  import opened Values
  import opened Texts

  const STREAM_CHUNK_CHARS := 96

  datatype Event = Event(delta: string, replace: bool, attempt: nat)

  /** What a client keeps: the attempt it last showed and the text on screen. */
  datatype Shown = Shown(attempt: nat, content: string)

  function Receive(c: Shown, e: Event): Shown {
    if e.attempt < c.attempt then c
    else Shown(e.attempt, if e.replace || e.attempt > c.attempt then e.delta else c.content + e.delta)
  }

  function Client(events: seq<Event>): Shown {
    if events == [] then Shown(0, "")
    else Receive(Client(events[..|events| - 1]), events[|events| - 1])
  }

  datatype Stream = Stream(emitted: bool, attempt: nat, pending: bool, text: string, sent: seq<Event>)

  const OPENED := Stream(false, 0, false, "", [])

  function Emit(s: Stream, delta: string, attempt: nat, replace: bool): Stream {
    if attempt < s.attempt then s
    else
      var clear := replace || attempt > s.attempt || s.pending;
      Stream(delta != "" || (s.emitted && !clear), attempt, false,
             (if clear then "" else s.text) + delta,
             s.sent + [Event(delta, clear, attempt)])
  }

  function Reset(s: Stream, attempt: nat): Stream {
    if attempt <= s.attempt then s
    else s.(attempt := attempt, emitted := false, pending := true)
  }

  /** What the model call may send while it runs. */
  datatype Signal = Delta(attempt: nat, delta: string) | Retry(attempt: nat)

  function Signalled(s: Stream, x: Signal): Stream {
    match x
    case Delta(attempt, delta) => Emit(s, delta, attempt, false)
    case Retry(attempt) => Reset(s, attempt)
  }

  function Streamed(signals: seq<Signal>): Stream {
    if signals == [] then OPENED
    else Signalled(Streamed(signals[..|signals| - 1]), signals[|signals| - 1])
  }

  // ---------------------------------------------------------------- invariant

  /** The client shows the visible text; without a pending replacement it shows the
      current attempt; and nothing is on screen when nothing of it counts as emitted. */
  ghost predicate Faithful(s: Stream) {
    var c := Client(s.sent);
    && c.content == s.text
    && c.attempt <= s.attempt
    && (s.pending || c.attempt == s.attempt)
    && (!s.emitted && !s.pending ==> s.text == "")
  }

  lemma EmitFaithful(s: Stream, delta: string, attempt: nat, replace: bool)
    requires Faithful(s)
    ensures Faithful(Emit(s, delta, attempt, replace))
  {
    var s' := Emit(s, delta, attempt, replace);
    if s' != s {
      assert s'.sent[..|s'.sent| - 1] == s.sent;
      assert "" + delta == delta;
    }
  }

  /** Whatever deltas, stale deltas, resets and new attempts arrive in whatever order,
      the client's text is the visible answer text. */
  lemma {:induction false} StreamedFaithful(signals: seq<Signal>)
    ensures Faithful(Streamed(signals))
  {
    if signals != [] {
      StreamedFaithful(signals[..|signals| - 1]);
      var s := Streamed(signals[..|signals| - 1]);
      match signals[|signals| - 1]
      case Delta(attempt, delta) => EmitFaithful(s, delta, attempt, false);
      case Retry(_) =>
    }
  }

  /** A late delta of an earlier attempt and a repeated reset change nothing. */
  lemma StaleSignalsIgnored(s: Stream, attempt: nat, delta: string, replace: bool)
    requires attempt < s.attempt
    ensures Emit(s, delta, attempt, replace) == s && Reset(s, attempt) == s && Reset(s, s.attempt) == s
  {
  }

  // ---------------------------------------------------------- what is on screen

  function AttemptOf(x: Signal): nat {
    match x case Delta(attempt, _) => attempt case Retry(attempt) => attempt
  }

  /** The latest attempt that any signal has announced. */
  function Announced(signals: seq<Signal>): nat {
    if signals == [] then 0
    else
      var before, last := Announced(signals[..|signals| - 1]), AttemptOf(signals[|signals| - 1]);
      if last > before then last else before
  }

  predicate IsDeltaOf(x: Signal, attempt: nat) {
    x.Delta? && x.attempt == attempt
  }

  ghost predicate HasDelta(signals: seq<Signal>, attempt: nat) {
    exists i :: 0 <= i < |signals| && IsDeltaOf(signals[i], attempt)
  }

  /** The text of all deltas of one attempt, in their order. */
  function TextOf(signals: seq<Signal>, attempt: nat): string {
    if signals == [] then ""
    else
      var last := signals[|signals| - 1];
      TextOf(signals[..|signals| - 1], attempt) + if IsDeltaOf(last, attempt) then last.delta else ""
  }

  /** What the screen shows after the signals, without following the stream: the deltas of the
      latest attempt once one has come, and before that what was there when it was announced. */
  ghost function OnScreen(signals: seq<Signal>): string
    decreases |signals|
  {
    var attempt := Announced(signals);
    if signals == [] || attempt == 0 || HasDelta(signals, attempt) then TextOf(signals, attempt)
    else OnScreen(signals[..|signals| - 1])
  }

  lemma {:induction false} NotAnnounced(signals: seq<Signal>, attempt: nat)
    requires attempt > Announced(signals)
    ensures !HasDelta(signals, attempt)
  {
    if signals != [] {
      NotAnnounced(signals[..|signals| - 1], attempt);
      assert signals == signals[..|signals| - 1] + [signals[|signals| - 1]];
    }
  }

  lemma {:induction false} NoDeltaNoText(signals: seq<Signal>, attempt: nat)
    requires !HasDelta(signals, attempt)
    ensures TextOf(signals, attempt) == ""
  {
    if signals != [] {
      var front, last := signals[..|signals| - 1], signals[|signals| - 1];
      assert signals == front + [last];
      HasDeltaStep(front, last, attempt);
      NoDeltaNoText(front, attempt);
    }
  }

  lemma HasDeltaStep(front: seq<Signal>, last: Signal, attempt: nat)
    ensures HasDelta(front + [last], attempt) <==> HasDelta(front, attempt) || IsDeltaOf(last, attempt)
  {
    if i :| 0 <= i < |front| && IsDeltaOf(front[i], attempt) {
      assert (front + [last])[i] == front[i];
    }
    assert (front + [last])[|front|] == last;
  }

  /** The stream is always in the latest attempt announced. It shows that attempt's deltas, all
      and in order, or what was there before as long as none has come; whatever belongs to an
      earlier attempt by then is left out. Only text of the latest attempt counts as emitted. */
  lemma {:induction false} StreamShowsLatest(signals: seq<Signal>)
    ensures var s, attempt := Streamed(signals), Announced(signals);
            && s.attempt == attempt && s.text == OnScreen(signals)
            && (s.pending <==> attempt > 0 && !HasDelta(signals, attempt))
            && (s.emitted <==> TextOf(signals, attempt) != "")
  {
    if signals != [] {
      var front, last := signals[..|signals| - 1], signals[|signals| - 1];
      StreamShowsLatest(front);
      assert signals == front + [last];
      HasDeltaStep(front, last, Announced(signals));
      if !HasDelta(front, Announced(signals)) {
        NoDeltaNoText(front, Announced(signals));
      }
      if AttemptOf(last) > Announced(front) {
        NotAnnounced(front, AttemptOf(last));
      }
    }
  }

  // ------------------------------------------------------------ order of delivery

  /** The events of one attempt, in their order. */
  function OfAttempt(events: seq<Event>, attempt: nat): seq<Event> {
    if events == [] then []
    else
      var last := events[|events| - 1];
      OfAttempt(events[..|events| - 1], attempt) + if last.attempt == attempt then [last] else []
  }

  function Latest(events: seq<Event>): nat {
    if events == [] then 0
    else
      var before, last := Latest(events[..|events| - 1]), events[|events| - 1].attempt;
      if last > before then last else before
  }

  /** The text that the events of one attempt build up on an empty screen. */
  function Played(events: seq<Event>): string {
    if events == [] then ""
    else
      var last := events[|events| - 1];
      if last.replace then last.delta else Played(events[..|events| - 1]) + last.delta
  }

  lemma {:induction false} NothingLater(events: seq<Event>, attempt: nat)
    requires attempt > Latest(events)
    ensures OfAttempt(events, attempt) == []
  {
    if events != [] {
      NothingLater(events[..|events| - 1], attempt);
    }
  }

  /** The client shows the latest attempt, and of it exactly what its own events build up;
      all other events might as well not have come. */
  lemma {:induction false} ClientShowsLatest(events: seq<Event>)
    ensures Client(events) == Shown(Latest(events), Played(OfAttempt(events, Latest(events))))
  {
    if events != [] {
      var front, last := events[..|events| - 1], events[|events| - 1];
      ClientShowsLatest(front);
      var kept := OfAttempt(front, last.attempt);
      if last.attempt > Latest(front) {
        NothingLater(front, last.attempt);
      }
      if last.attempt >= Latest(front) {
        assert OfAttempt(events, last.attempt) == kept + [last];
        assert (kept + [last])[..|kept|] == kept;
        assert "" + last.delta == last.delta;
      } else {
        assert OfAttempt(events, Latest(front)) == OfAttempt(front, Latest(front));
      }
    }
  }

  lemma {:induction false} LatestOccurs(events: seq<Event>)
    ensures Latest(events) > 0 ==> OfAttempt(events, Latest(events)) != []
  {
    if events != [] {
      LatestOccurs(events[..|events| - 1]);
    }
  }

  /** Delivery may reorder events of different attempts: as long as those of each attempt keep
      their order, the client ends with the same attempt and the same text. */
  lemma DeliveryOrder(sent: seq<Event>, delivered: seq<Event>)
    requires forall attempt: nat :: OfAttempt(delivered, attempt) == OfAttempt(sent, attempt)
    ensures Client(delivered) == Client(sent)
  {
    ClientShowsLatest(sent);
    ClientShowsLatest(delivered);
    LatestOccurs(sent);
    LatestOccurs(delivered);
    if Latest(sent) > Latest(delivered) {
      NothingLater(delivered, Latest(sent));
    } else if Latest(delivered) > Latest(sent) {
      NothingLater(sent, Latest(delivered));
    }
  }

  // --------------------------------------------------------------- completion

  function StripLeft(t: string): string {
    if t != "" && IsSpace(t[0]) then StripLeft(t[1..]) else t
  }

  function StripRight(t: string): string {
    if t != "" && IsSpace(t[|t| - 1]) then StripRight(t[..|t| - 1]) else t
  }

  function Strip(t: string): string {
    StripRight(StripLeft(t))
  }

  predicate AllSpace(t: string) {
    forall i :: 0 <= i < |t| ==> IsSpace(t[i])
  }

  lemma {:induction false} LeftStripped(t: string)
    ensures |StripLeft(t)| <= |t| && t[|t| - |StripLeft(t)|..] == StripLeft(t)
    ensures AllSpace(t[..|t| - |StripLeft(t)|]) && (StripLeft(t) != "" ==> !IsSpace(StripLeft(t)[0]))
  {
    if t != "" && IsSpace(t[0]) {
      LeftStripped(t[1..]);
      assert t[..|t| - |StripLeft(t)|] == [t[0]] + t[1..][..|t| - 1 - |StripLeft(t)|];
    }
  }

  lemma {:induction false} RightStripped(t: string)
    ensures |StripRight(t)| <= |t| && t[..|StripRight(t)|] == StripRight(t)
    ensures AllSpace(t[|StripRight(t)|..]) && (StripRight(t) != "" ==> !IsSpace(StripRight(t)[|StripRight(t)| - 1]))
  {
    if t != "" && IsSpace(t[|t| - 1]) {
      var front := t[..|t| - 1];
      RightStripped(front);
      assert t[|StripRight(t)|..] == front[|StripRight(t)|..] + [t[|t| - 1]];
    }
  }

  /** Stripping takes off outer white space, all of it and nothing else. */
  lemma StripMeans(t: string) returns (a: string, b: string)
    ensures AllSpace(a) && AllSpace(b) && t == a + Strip(t) + b
    ensures Strip(t) != "" ==> !IsSpace(Strip(t)[0]) && !IsSpace(Strip(t)[|Strip(t)| - 1])
  {
    LeftStripped(t);
    RightStripped(StripLeft(t));
    a, b := t[..|t| - |StripLeft(t)|], StripLeft(t)[|Strip(t)|..];
    assert StripLeft(t) == Strip(t) + b && t == a + StripLeft(t);
  }

  predicate Changed(s: Stream, answer: string) {
    Strip(s.text) != Strip(answer)
  }

  predicate NeedsFallback(s: Stream, answer: string, degraded: bool) {
    !s.emitted || degraded || Changed(s, answer)
  }

  function FinalAttempt(s: Stream, answer: string, degraded: bool): nat {
    if (degraded || Changed(s, answer)) && s.attempt != 0 then s.attempt + 1
    else if s.attempt > 1 then s.attempt else 1
  }

  function Chunks(text: string): seq<string>
    decreases |text|
  {
    if |text| == 0 then []
    else if |text| <= STREAM_CHUNK_CHARS then [text]
    else [text[..STREAM_CHUNK_CHARS]] + Chunks(text[STREAM_CHUNK_CHARS..])
  }

  function Joined(chunks: seq<string>): string {
    if chunks == [] then "" else chunks[0] + Joined(chunks[1..])
  }

  /** The chunks are together the text, and all of the full length but the last, which is not
      empty. */
  lemma {:induction false} ChunksJoin(text: string)
    ensures Joined(Chunks(text)) == text
    ensures forall i :: 0 <= i < |Chunks(text)| ==> 0 < |Chunks(text)[i]| <= STREAM_CHUNK_CHARS
    ensures forall i :: 0 <= i < |Chunks(text)| - 1 ==> |Chunks(text)[i]| == STREAM_CHUNK_CHARS
    ensures Chunks(text) == [] <==> text == ""
    decreases |text|
  {
    if |text| > STREAM_CHUNK_CHARS {
      ChunksJoin(text[STREAM_CHUNK_CHARS..]);
      assert text == text[..STREAM_CHUNK_CHARS] + text[STREAM_CHUNK_CHARS..];
    } else if text != "" {
      assert Joined([text]) == text + Joined([][..]);
    }
  }

  function Sent(s: Stream, chunks: seq<string>, attempt: nat, replaceFirst: bool): Stream
    decreases |chunks|
  {
    if chunks == [] then s
    else Sent(Emit(s, chunks[0], attempt, replaceFirst), chunks[1..], attempt, false)
  }

  lemma {:induction false} SentFaithful(s: Stream, chunks: seq<string>, attempt: nat, replaceFirst: bool)
    requires Faithful(s)
    ensures Faithful(Sent(s, chunks, attempt, replaceFirst))
    decreases |chunks|
  {
    if chunks != [] {
      EmitFaithful(s, chunks[0], attempt, replaceFirst);
      SentFaithful(Emit(s, chunks[0], attempt, replaceFirst), chunks[1..], attempt, false);
    }
  }

  lemma {:induction false} SentAppends(s: Stream, chunks: seq<string>)
    requires !s.pending
    ensures Sent(s, chunks, s.attempt, false).text == s.text + Joined(chunks)
    decreases |chunks|
  {
    if chunks == [] {
      assert s.text + "" == s.text;
    } else {
      var s' := Emit(s, chunks[0], s.attempt, false);
      SentAppends(s', chunks[1..]);
      assert s.text + chunks[0] + Joined(chunks[1..]) == s.text + (chunks[0] + Joined(chunks[1..]));
    }
  }

  /** The stream when generation completed and nobody cancelled. */
  function Completed(s: Stream, answer: string, degraded: bool): Stream {
    if NeedsFallback(s, answer, degraded)
    then Sent(s, Chunks(answer), FinalAttempt(s, answer, degraded), degraded || Changed(s, answer))
    else s
  }

  /** After an uncancelled completion the client shows the answer: up to outer blanks,
      and to the letter when it was streamed again. A non-empty answer is what makes this
      true; an empty one leaves on screen whatever was there. */
  lemma CompletionShowsAnswer(signals: seq<Signal>, answer: string, degraded: bool)
    ensures var s := Streamed(signals); var shown := Client(Completed(s, answer, degraded).sent).content;
            && (answer != "" && NeedsFallback(s, answer, degraded) ==> shown == answer)
            && (answer != "" ==> Strip(shown) == Strip(answer))
            && (Strip(shown) == Strip(answer) <==> answer != "" || !Changed(s, answer))
            && shown == Completed(s, answer, degraded).text
  {
    var s := Streamed(signals);
    StreamedFaithful(signals);
    ChunksJoin(answer);
    if NeedsFallback(s, answer, degraded) {
      var attempt, replace := FinalAttempt(s, answer, degraded), degraded || Changed(s, answer);
      SentFaithful(s, Chunks(answer), attempt, replace);
      if answer != "" {
        var s' := Emit(s, Chunks(answer)[0], attempt, replace);
        assert s'.text == Chunks(answer)[0];
        SentAppends(s', Chunks(answer)[1..]);
      }
    }
  }

  // --------------------------------------------------- the non-empty generation

  datatype ModelOutcome =
    | NoGateway
    | Unverified
    | Finished(guarded: string, cancelled: bool)
    | CallCancelled
    | CallFailed(code: string)

  datatype Generation = Generation(answer: Option<string>, degradations: seq<string>, interruption: Option<string>)

  /** The evidence itself, numbered from 1. */
  function DeterministicAnswer(question: string, excerpts: seq<string>): string {
    if excerpts == [] then "No available source evidence was found for: " + question
    else "Available source evidence for \U{201C}" + question + "\U{201D}:\n\n" + Excerpts(excerpts)
  }

  function Numbered(ordinal: nat, excerpt: string): string {
    "[" + Decimal(ordinal) + "] " + excerpt
  }

  function Excerpts(excerpts: seq<string>): string {
    if excerpts == [] then ""
    else
      var last := |excerpts| - 1;
      (if last == 0 then "" else Excerpts(excerpts[..last]) + "\n") + Numbered(last + 1, excerpts[last])
  }

  /** The generated answer, whatever the model did; `guarded` is its checked text. */
  function Generate(question: string, excerpts: seq<string>, cancelled: bool, outcome: ModelOutcome): (g: Generation)
    ensures g.answer.Some? ==> g.answer.value != "" && g.interruption == None
    ensures g.answer == None ==> g.interruption.Some? && g.degradations == []
    ensures g.answer.Some? && g.degradations == [] <==> !cancelled && outcome.Finished? && !outcome.cancelled && outcome.guarded != ""
  {
    if cancelled then Generation(None, [], Some("answer_cancelled"))
    else match outcome
      case NoGateway => Generation(Some(DeterministicAnswer(question, excerpts)), ["answer_model_unavailable"], None)
      case Unverified => Generation(Some(DeterministicAnswer(question, excerpts)), ["answer_model_unverified"], None)
      case Finished(guarded, late) =>
        if late then Generation(None, [], Some("answer_cancelled"))
        else if guarded != "" then Generation(Some(guarded), [], None)
        else Generation(Some(DeterministicAnswer(question, excerpts)), ["answer_model_fallback"], None)
      case CallCancelled => Generation(None, [], Some("answer_cancelled"))
      case CallFailed(code) => Generation(None, [], Some(code))
  }

  /** What a generation tells of its cause: it is interrupted exactly if it was cancelled before,
      during or right after the model call, or the call failed, and then with that code; it is
      degraded by the missing or unverified model or by an answer that did not hold, and then
      gives the evidence instead. */
  lemma GenerationTellsCause(question: string, excerpts: seq<string>, cancelled: bool, outcome: ModelOutcome)
    ensures var g := Generate(question, excerpts, cancelled, outcome);
            && (g.answer == None <==> cancelled || outcome.CallCancelled? || outcome.CallFailed? || (outcome.Finished? && outcome.cancelled))
            && (g.answer == None ==> g.interruption == Some(if !cancelled && outcome.CallFailed? then outcome.code else "answer_cancelled"))
            && (g.degradations == ["answer_model_unavailable"] <==> !cancelled && outcome.NoGateway?)
            && (g.degradations == ["answer_model_unverified"] <==> !cancelled && outcome.Unverified?)
            && (g.degradations == ["answer_model_fallback"] <==> !cancelled && outcome == Finished("", false))
            && (g.answer.Some? && g.degradations == [] ==> outcome == Finished(g.answer.value, false))
            && (g.degradations != [] ==> g.answer == Some(DeterministicAnswer(question, excerpts)))
            && (g.degradations != [] && excerpts == [] ==> g.answer == Some("No available source evidence was found for: " + question))
  {
  }

  /** The evidence that stands in for an answer shows every excerpt under its number. */
  lemma EvidenceShown(question: string, excerpts: seq<string>, i: nat)
    requires i < |excerpts|
    ensures IsPart("[" + Decimal(i + 1) + "] " + excerpts[i], DeterministicAnswer(question, excerpts))
  {
    ExcerptsContain(excerpts, i);
    PartOfMore(Numbered(i + 1, excerpts[i]), "Available source evidence for \U{201C}" + question + "\U{201D}:\n\n", Excerpts(excerpts));
  }

  lemma PartOfMore(part: string, front: string, whole: string)
    requires IsPart(part, whole)
    ensures IsPart(part, front + whole)
  {
    var a, b :| whole == a + part + b;
    assert front + whole == (front + a) + part + b;
  }

  ghost predicate IsPart(part: string, whole: string) {
    exists a, b :: whole == a + part + b
  }

  lemma {:induction false} ExcerptsContain(excerpts: seq<string>, i: nat)
    requires i < |excerpts|
    ensures IsPart(Numbered(i + 1, excerpts[i]), Excerpts(excerpts))
  {
    var last := |excerpts| - 1;
    var item := Numbered(last + 1, excerpts[last]);
    var front := if last == 0 then "" else Excerpts(excerpts[..last]) + "\n";
    if i == last {
      assert Excerpts(excerpts) == front + item + "";
    } else {
      ExcerptsContain(excerpts[..last], i);
      var a, b :| Excerpts(excerpts[..last]) == a + Numbered(i + 1, excerpts[i]) + b;
      assert Excerpts(excerpts) == a + Numbered(i + 1, excerpts[i]) + (b + "\n" + item);
    }
  }

  // ------------------------------------------------------------ the stream object

  datatype Outcome = Answered(text: string) | Interrupted(partial: string, code: string)

  /** The chunks that are streamed again: of an answer of which nothing was streamed, which is
      degraded, or which differs from the streamed text in more than outer white space. */
  function Again(s: Stream, answer: string, degraded: bool): seq<string> {
    if !s.emitted || degraded || Strip(s.text) != Strip(answer) then Chunks(answer) else []
  }

  /** The `k`-th check, of `n + 1`, is the first one that is answered by yes. */
  ghost predicate IsFirst(cancelled: nat -> bool, k: nat, n: nat) {
    k <= n && cancelled(k) && forall j: nat :: j < k ==> !cancelled(j)
  }

  /** The answer is delivered unless some check is answered by yes; then the outcome is
      interrupted, and exactly the chunks that precede the check have been sent. */
  ghost predicate Delivers(s: Stream, answer: string, degraded: bool, cancelled: nat -> bool, r: Outcome, after: Stream) {
    var chunks, attempt, replace := Again(s, answer, degraded), FinalAttempt(s, answer, degraded), degraded || Strip(s.text) != Strip(answer);
    && (r.Interrupted? <==> exists k: nat :: k <= 2 * |chunks| && cancelled(k))
    && (forall k: nat :: IsFirst(cancelled, k, 2 * |chunks|) ==>
          r == Interrupted(after.text, "answer_cancelled") && after == Sent(s, chunks[..(k + 1) / 2], attempt, replace))
    && (r.Answered? ==> r == Answered(answer) && after == Completed(s, answer, degraded) == Sent(s, chunks, attempt, replace))
  }

  lemma StopsAt(s: Stream, answer: string, degraded: bool, cancelled: nat -> bool, k: nat, after: Stream)
    requires IsFirst(cancelled, k, 2 * |Again(s, answer, degraded)|)
    requires after == Sent(s, Again(s, answer, degraded)[..(k + 1) / 2], FinalAttempt(s, answer, degraded), degraded || Changed(s, answer))
    ensures Delivers(s, answer, degraded, cancelled, Interrupted(after.text, "answer_cancelled"), after)
  {
  }

  lemma RunsThrough(s: Stream, answer: string, degraded: bool, cancelled: nat -> bool, after: Stream)
    requires forall k: nat :: k <= 2 * |Again(s, answer, degraded)| ==> !cancelled(k)
    requires after == Sent(s, Again(s, answer, degraded), FinalAttempt(s, answer, degraded), degraded || Changed(s, answer))
    ensures Delivers(s, answer, degraded, cancelled, Answered(answer), after)
  {
  }

  /** What streaming again sends: the chunks in order, under one attempt, the first one in place
      of what is on screen where that has to go. */
  lemma {:induction false} SentEvents(s: Stream, chunks: seq<string>, attempt: nat, replaceFirst: bool)
    requires attempt >= s.attempt
    ensures Sent(s, chunks, attempt, replaceFirst).sent
         == s.sent + seq(|chunks|, i requires 0 <= i < |chunks| => Event(chunks[i], i == 0 && (replaceFirst || attempt > s.attempt || s.pending), attempt))
    decreases |chunks|
  {
    if chunks != [] {
      var s' := Emit(s, chunks[0], attempt, replaceFirst);
      SentEvents(s', chunks[1..], attempt, false);
    }
  }

  lemma {:induction false} SentOneMore(s: Stream, chunks: seq<string>, chunk: string, attempt: nat, replaceFirst: bool)
    ensures Sent(s, chunks + [chunk], attempt, replaceFirst)
         == Emit(Sent(s, chunks, attempt, replaceFirst), chunk, attempt, replaceFirst && chunks == [])
    decreases |chunks|
  {
    if chunks == [] {
      assert ([] + [chunk])[1..] == [];
    } else {
      assert (chunks + [chunk])[1..] == chunks[1..] + [chunk];
      SentOneMore(Emit(s, chunks[0], attempt, replaceFirst), chunks[1..], chunk, attempt, false);
    }
  }

  lemma {:induction false} SentAttempt(s: Stream, chunks: seq<string>, attempt: nat, replaceFirst: bool)
    requires attempt >= s.attempt
    ensures Sent(s, chunks, attempt, replaceFirst).attempt == if chunks == [] then s.attempt else attempt
    decreases |chunks|
  {
    if chunks != [] {
      SentAttempt(Emit(s, chunks[0], attempt, replaceFirst), chunks[1..], attempt, false);
    }
  }

  /** A completed answer that took the place of what was on screen is safe from late deltas of
      the attempts before it; one that only continues keeps the attempt on screen. */
  lemma LateDeltasIgnored(s: Stream, answer: string, degraded: bool, late: string, attempt: nat)
    requires answer != "" && attempt <= s.attempt != 0
    ensures degraded || Strip(s.text) != Strip(answer) ==>
              Emit(Completed(s, answer, degraded), late, attempt, false) == Completed(s, answer, degraded)
    ensures !degraded && Strip(s.text) == Strip(answer) ==> Completed(s, answer, degraded).attempt == s.attempt
  {
    ChunksJoin(answer);
    SentAttempt(s, Chunks(answer), FinalAttempt(s, answer, degraded), degraded || Changed(s, answer));
  }

  /** An answer of which nothing was streamed goes out as the first attempt. */
  lemma FirstAttempt(s: Stream, answer: string, degraded: bool)
    requires answer != "" && s.attempt == 0 && !s.emitted
    ensures Completed(s, answer, degraded).attempt == 1
  {
    ChunksJoin(answer);
    SentAttempt(s, Chunks(answer), FinalAttempt(s, answer, degraded), degraded || Changed(s, answer));
  }

  class AnswerAttempt {
    var emitted: bool
    var visibleAttempt: nat
    var replacePending: bool
    var visibleAnswerText: string
    var sent: seq<Event>

    ghost function State(): Stream
      reads this
    {
      Stream(emitted, visibleAttempt, replacePending, visibleAnswerText, sent)
    }

    constructor ()
      ensures State() == OPENED
    {
      emitted, visibleAttempt, replacePending, visibleAnswerText, sent := false, 0, false, "", [];
    }

    method EmitDelta(delta: string, attempt: nat, replace: bool)
      modifies this
      ensures State() == Emit(old(State()), delta, attempt, replace)
    {
      var clear := replace;
      if attempt < visibleAttempt {
        return;
      }
      if attempt > visibleAttempt {
        visibleAttempt, clear, replacePending := attempt, true, false;
      } else if replacePending {
        clear, replacePending := true, false;
      }
      if clear {
        emitted, visibleAnswerText := false, "";
      }
      if delta != "" {
        emitted, visibleAnswerText := true, visibleAnswerText + delta;
      }
      sent := sent + [Event(delta, clear, attempt)];
    }

    method ResetTo(attempt: nat)
      modifies this
      ensures State() == Reset(old(State()), attempt)
    {
      if attempt > visibleAttempt {
        visibleAttempt, emitted, replacePending := attempt, false, true;
      }
    }

    /** Sends the chunks with a cancellation check before and after each; the first check
        answered by yes, number `at`, stops it. */
    method StreamAgain(chunks: seq<string>, attempt: nat, replaceFirst: bool, cancelled: nat -> bool) returns (stopped: bool, ghost at: nat)
      requires Faithful(State())
      modifies this
      ensures Faithful(State())
      ensures stopped ==> at < 2 * |chunks| && cancelled(at) && State() == Sent(old(State()), chunks[..(at + 1) / 2], attempt, replaceFirst)
      ensures !stopped ==> at == 2 * |chunks| && State() == Sent(old(State()), chunks, attempt, replaceFirst)
      ensures forall j: nat :: j < at ==> !cancelled(j)
    {
      at := 0;
      for i := 0 to |chunks|
        invariant Faithful(State()) && at == 2 * i
        invariant State() == Sent(old(State()), chunks[..i], attempt, replaceFirst)
        invariant forall j: nat :: j < at ==> !cancelled(j)
      {
        if cancelled(2 * i) {
          return true, at;
        }
        EmitFaithful(State(), chunks[i], attempt, replaceFirst && i == 0);
        SentOneMore(old(State()), chunks[..i], chunks[i], attempt, replaceFirst);
        assert chunks[..i + 1] == chunks[..i] + [chunks[i]];
        EmitDelta(chunks[i], attempt, replaceFirst && i == 0);
        if cancelled(2 * i + 1) {
          return true, at + 1;
        }
        at := at + 2;
      }
      assert chunks[..|chunks|] == chunks;
      stopped := false;
    }

    /** Delivers the generated answer. `cancelled(k)` answers the k-th cancellation check: one
        before and one after each chunk that is streamed again, and a last one. The first that
        says so interrupts, with the chunks sent before it. */
    method Finish(g: Generation, cancelled: nat -> bool) returns (r: Outcome)
      requires Faithful(State())
      requires g.answer == None ==> g.interruption.Some?
      modifies this
      ensures Faithful(State())
      ensures g.answer == None ==> r == Interrupted(old(visibleAnswerText), g.interruption.value) && State() == old(State())
      ensures g.answer.Some? ==> Delivers(old(State()), g.answer.value, g.degradations != [], cancelled, r, State())
      ensures r.Interrupted? ==> r.partial == visibleAnswerText == Client(sent).content
    {
      if g.answer == None {
        return Interrupted(visibleAnswerText, g.interruption.value);
      }
      var answer, degraded := g.answer.value, g.degradations != [];
      var changed := Strip(visibleAnswerText) != Strip(answer);
      var fallback := !emitted || degraded || changed;
      var final := if visibleAttempt > 1 then visibleAttempt else 1;
      if (degraded || changed) && visibleAttempt != 0 {
        final := visibleAttempt + 1;
      }
      ghost var start := State();
      assert final == FinalAttempt(start, answer, degraded);
      var chunks := if fallback then Chunks(answer) else [];
      var stopped, at := StreamAgain(chunks, final, degraded || changed, cancelled);
      if stopped {
        StopsAt(start, answer, degraded, cancelled, at, State());
        return Interrupted(visibleAnswerText, "answer_cancelled");
      }
      if cancelled(2 * |chunks|) {
        assert chunks[..|chunks|] == chunks;
        StopsAt(start, answer, degraded, cancelled, at, State());
        return Interrupted(visibleAnswerText, "answer_cancelled");
      }
      RunsThrough(start, answer, degraded, cancelled, State());
      r := Answered(answer);
    }
  }
}
