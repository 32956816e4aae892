/** What every run of a session keeps, and where its answers come from. */
module SessionRuns {
  import opened Basics
  import opened Session

  function End(w: World, inputs: seq<Input>): Snapshot {
    if inputs == [] then OPENED else Step(w, End(w, inputs[..|inputs| - 1]), inputs[|inputs| - 1]).next
  }

  /** What input `i` of the run is answered with. */
  function Answer(w: World, inputs: seq<Input>, i: nat): seq<Action>
    requires i < |inputs|
  {
    Step(w, End(w, inputs[..i]), inputs[i]).actions
  }

  /** Frames come from the decoder, which bounds what a chunk carries. */
  predicate Decoded(i: Input) {
    i.Received? && i.frame.AudioFrame? && i.frame.chunk.Some? ==> |i.frame.chunk.value.pcm| <= 4096
  }

  ghost predicate AllDecoded(inputs: seq<Input>) { forall i :: 0 <= i < |inputs| ==> Decoded(inputs[i]) }

  // ---------------------------------------------------------------- invariants

  /** Capturing implies authenticated; what is held belongs to a capture, is bounded, and is never a long one's. */
  ghost predicate Inv(s: Snapshot) {
    && (s.capture.Some? ==> s.state == Ready)
    && (s.audio != [] ==> s.capture.Some? && s.kind != Transcript)
    && |s.audio| <= MAX_UTTERANCE
  }

  lemma StepKeeps(w: World, s: Snapshot, i: Input)
    requires Inv(s)
    ensures Inv(Step(w, s, i).next)
    ensures forall a :: a in Step(w, s, i).actions && a.Utterance? ==> |a.pcm| <= MAX_UTTERANCE
    ensures Decoded(i) ==> forall a :: a in Step(w, s, i).actions && a.Utterance? ==> a.pcm != []
  {
    hide Step, OnChunk;
    if IsChunk(i) {
      ChunkInput(w, s, i);
      if s.state == Ready { ChunkKeeps(s, ChunkOf(i)); }
    } else {
      OtherKeeps(w, s, i);
    }
  }

  lemma OtherKeeps(w: World, s: Snapshot, i: Input)
    requires Inv(s) && !IsChunk(i)
    ensures Inv(Step(w, s, i).next)
    ensures forall a :: a in Step(w, s, i).actions ==> !a.Utterance?
  {}

  lemma ChunkKeeps(s: Snapshot, c: Chunk)
    requires Inv(s) && s.state == Ready
    ensures Inv(OnChunk(s, c).next)
    ensures forall a :: a in OnChunk(s, c).actions && a.Utterance? ==>
              |a.pcm| <= MAX_UTTERANCE && (|c.pcm| <= 4096 ==> a.pcm != [])
  {
    hide Samples;
    SamplesLength(c.pcm);
  }

  lemma SamplesLength(pcm: seq<byte>)
    ensures |Samples(pcm)| == |pcm| / 2
  {}

  lemma {:induction false} RunKeeps(w: World, inputs: seq<Input>)
    ensures Inv(End(w, inputs))
  {
    hide Step, Inv;
    if inputs == [] {
      OpenedIsFine();
    } else {
      RunKeeps(w, inputs[..|inputs| - 1]);
      StepKeeps(w, End(w, inputs[..|inputs| - 1]), inputs[|inputs| - 1]);
    }
  }

  lemma OpenedIsFine()
    ensures Inv(OPENED)
  {}

  /** In every run, an utterance handed on holds between one sample and 120 seconds of them. */
  lemma UtterancesAreBounded(w: World, inputs: seq<Input>, i: nat, a: Action)
    requires AllDecoded(inputs) && i < |inputs| && a in Answer(w, inputs, i) && a.Utterance?
    ensures 0 < |a.pcm| <= MAX_UTTERANCE
  {
    hide Step, End, Inv;
    RunKeeps(w, inputs[..i]);
    StepKeeps(w, End(w, inputs[..i]), inputs[i]);
  }

  /** A closed connection stays closed, and silent. */
  lemma {:induction false} ClosedIsFinal(w: World, inputs: seq<Input>, i: nat, j: nat)
    requires i <= j <= |inputs| && End(w, inputs[..i]).state == Closed
    ensures End(w, inputs[..j]) == End(w, inputs[..i])
    ensures j < |inputs| ==> Answer(w, inputs, j) == []
    decreases j
  {
    hide End, Step;
    if i < j {
      ClosedIsFinal(w, inputs, i, j - 1);
      EndStep(w, inputs, j - 1);
      ClosedStep(w, End(w, inputs[..i]), inputs[j - 1]);
    }
    if j < |inputs| { ClosedStep(w, End(w, inputs[..i]), inputs[j]); }
  }

  lemma ClosedStep(w: World, s: Snapshot, i: Input)
    ensures s.state == Closed ==> Step(w, s, i) == Reply(s, [])
  {}

  lemma EndStep(w: World, inputs: seq<Input>, i: nat)
    requires i < |inputs|
    ensures End(w, inputs[..i + 1]) == Step(w, End(w, inputs[..i]), inputs[i]).next
  {
    hide Step;
    assert inputs[..i + 1][..i] == inputs[..i];
  }

  // ---------------------------------------------------------------- how a session becomes ready

  /** The hello presents a device and the token issued to it. */
  predicate Proves(w: World, h: Hello) {
    h.protocol == PROTOCOL_VERSION && h.device != [] && h.token != [] && w.lookup(h.device, h.token)
  }

  /** Where the session became ready: at a hello that proves itself, or at a grant while one was awaited. */
  ghost predicate Admitted(w: World, inputs: seq<Input>, at: nat) {
    at < |inputs| &&
    var before := End(w, inputs[..at]);
    match inputs[at]
    case Received(HelloFrame(Some(h)), _) => before.state == New && Proves(w, h) && End(w, inputs).device == h.device
    case PairGranted(_) => before.state == AwaitingPairing && End(w, inputs).device == before.device
    case _ => false
  }

  lemma {:induction false} ReadyIsEarned(w: World, inputs: seq<Input>) returns (at: nat)
    requires End(w, inputs).state == Ready
    ensures Admitted(w, inputs, at)
  {
    var n := |inputs| - 1;
    var before := inputs[..n];
    if End(w, before).state == Ready {
      ReadyStays(w, End(w, before), inputs[n]);
      at := ReadyIsEarned(w, before);
      assert before[..at] == inputs[..at] && before[at] == inputs[at];
    } else {
      at := n;
    }
  }

  lemma ReadyStays(w: World, s: Snapshot, i: Input)
    requires s.state == Ready && Step(w, s, i).next.state == Ready
    ensures Step(w, s, i).next.device == s.device
  {}

  /** A hello that arrives first and proves itself is always let in. */
  lemma ProofSuffices(w: World, s: Snapshot, h: Hello, now: nat)
    requires s.state == New
    ensures Step(w, s, Received(HelloFrame(Some(h)), now)).next.state == Ready <==> Proves(w, h)
  {}

  // ---------------------------------------------------------------- what an utterance is made of

  /** The audio of a stretch of inputs. */
  function Heard(inputs: seq<Input>): seq<int> {
    if inputs == [] then []
    else Heard(inputs[..|inputs| - 1]) + Sound(inputs[|inputs| - 1])
  }

  function Sound(i: Input): seq<int> { if IsChunk(i) then Samples(ChunkOf(i).pcm) else [] }

  predicate IsChunk(i: Input) { i.Received? && i.frame.AudioFrame? && i.frame.chunk.Some? }

  function ChunkOf(i: Input): Chunk
    requires IsChunk(i)
  {
    i.frame.chunk.value
  }

  /** The running capture began at input `at`, and every chunk since belongs to it. */
  ghost predicate Since(w: World, inputs: seq<Input>, at: nat) {
    at < |inputs| &&
    var s := End(w, inputs);
    && IsChunk(inputs[at])
    && s.capture == Some(ChunkOf(inputs[at]).session) && End(w, inputs[..at]).capture != s.capture
    && (forall i :: at <= i < |inputs| && IsChunk(inputs[i]) ==> s.capture == Some(ChunkOf(inputs[i]).session))
    && s.kind == KindOf(ChunkOf(inputs[at]).kind)
    && s.audio == if s.kind == Transcript then [] else Heard(inputs[at..])
  }

  /** A step that is not a chunk leaves a capture alone, or ends it. */
  lemma OtherInput(w: World, s: Snapshot, i: Input)
    requires !IsChunk(i)
    ensures var r := Step(w, s, i);
            && (r.next.capture.Some? ==> r.next.capture == s.capture && r.next.kind == s.kind
                                         && r.next.audio == s.audio && r.next.nextSeq == s.nextSeq)
            && (forall a :: a in r.actions ==> !a.Utterance? && !a.AudioGap? && !a.CaptureChunk?)
            && !ReportsGap(r.actions) && PassedOn(r.actions) == []
  {
    hide Step, PassedOn;
    OtherNext(w, s, i);
    OtherActions(w, s, i);
    PassedNothing(Step(w, s, i).actions);
  }

  lemma OtherNext(w: World, s: Snapshot, i: Input)
    requires !IsChunk(i)
    ensures var r := Step(w, s, i);
            r.next.capture.Some? ==> r.next.capture == s.capture && r.next.kind == s.kind
                                     && r.next.audio == s.audio && r.next.nextSeq == s.nextSeq
  {
    hide OnChunk;
  }

  lemma OtherActions(w: World, s: Snapshot, i: Input)
    requires !IsChunk(i)
    ensures forall a :: a in Step(w, s, i).actions ==> !a.Utterance? && !a.AudioGap? && !a.CaptureChunk?
  {
    hide OnChunk;
  }

  lemma {:induction false} PassedNothing(actions: seq<Action>)
    requires forall a :: a in actions ==> !a.CaptureChunk?
    ensures PassedOn(actions) == []
  {
    if actions != [] {
      assert actions[0] in actions;
      PassedNothing(actions[1..]);
    }
  }

  /** The last input is a chunk that the session takes. */
  predicate Taken(w: World, inputs: seq<Input>) {
    inputs != [] &&
    var last, s := inputs[|inputs| - 1], End(w, inputs[..|inputs| - 1]);
    IsChunk(last) && s.state == Ready && |ChunkOf(last).pcm| % 2 == 0
  }

  lemma CapturingTookIt(w: World, inputs: seq<Input>)
    requires inputs != [] && IsChunk(inputs[|inputs| - 1]) && End(w, inputs).capture.Some?
    ensures Taken(w, inputs)
  {
    hide Step, OnChunk;
    ClosedHoldsNothing(w, inputs[..|inputs| - 1]);
    ChunkInput(w, End(w, inputs[..|inputs| - 1]), inputs[|inputs| - 1]);
  }

  /** A chunk counts only on an authenticated connection. */
  lemma ChunkInput(w: World, s: Snapshot, i: Input)
    requires IsChunk(i)
    ensures Step(w, s, i) ==
            if s.state == Closed then Reply(s, [])
            else if s.state == Ready && |ChunkOf(i).pcm| % 2 == 0 then OnChunk(s, ChunkOf(i))
            else Closing(s)
  {
    hide OnChunk;
  }

  lemma {:induction false} CaptureHistory(w: World, inputs: seq<Input>) returns (at: nat)
    requires End(w, inputs).capture.Some?
    ensures Since(w, inputs, at) && Numbered(w, inputs, at) && Relayed(w, inputs, at)
  {
    hide Step, Samples, Inv, Since, Numbered, Relayed, Taken;
    var n := |inputs| - 1;
    var before, last := inputs[..n], inputs[n];
    RunKeeps(w, before);
    if !IsChunk(last) {
      OtherInput(w, End(w, before), last);
      at := CaptureHistory(w, before);
      SinceGrows(w, inputs, at);
      NumberedGrows(w, inputs, at);
      RelayedGrows(w, inputs, at);
    } else {
      ChunkInput(w, End(w, before), last);
      CapturingIsReady(End(w, before));
      CapturingTookIt(w, inputs);
      if End(w, before).capture == Some(ChunkOf(last).session) {
        at := CaptureHistory(w, before);
        SinceGrows(w, inputs, at);
        NumberedGrows(w, inputs, at);
        RelayedGrows(w, inputs, at);
      } else {
        at := n;
        SinceStarts(w, inputs);
        NumberedStarts(w, inputs);
        RelayedStarts(w, inputs);
      }
    }
  }

  lemma CapturingIsReady(s: Snapshot)
    requires Inv(s)
    ensures s.capture.Some? ==> s.state == Ready
  {}

  lemma SinceStarts(w: World, inputs: seq<Input>)
    requires inputs != [] && IsChunk(inputs[|inputs| - 1]) && End(w, inputs).capture.Some?
    requires var s := End(w, inputs[..|inputs| - 1]); s.capture != Some(ChunkOf(inputs[|inputs| - 1]).session)
    ensures Since(w, inputs, |inputs| - 1)
  {
    hide Samples, Step;
    var n := |inputs| - 1;
    ChunkInput(w, End(w, inputs[..n]), inputs[n]);
    assert inputs[n..] == [inputs[n]] && [inputs[n]][..0] == [];
    assert Heard(inputs[n..]) == [] + Sound(inputs[n]);
    ClosedHoldsNothing(w, inputs[..n]);
  }

  lemma {:induction false} ClosedHoldsNothing(w: World, inputs: seq<Input>)
    ensures End(w, inputs).state == Closed ==> End(w, inputs).capture.None?
  {
    hide Inv;
    RunKeeps(w, inputs);
    CapturingIsReady(End(w, inputs));
  }

  lemma SinceGrows(w: World, inputs: seq<Input>, at: nat)
    requires inputs != [] && Since(w, inputs[..|inputs| - 1], at) && End(w, inputs).capture.Some?
    requires var last := inputs[|inputs| - 1];
             IsChunk(last) ==> End(w, inputs[..|inputs| - 1]).capture == Some(ChunkOf(last).session)
    ensures Since(w, inputs, at)
  {
    hide Samples, Step, Heard, Sound, KindOf;
    var n := |inputs| - 1;
    var before, last := inputs[..n], inputs[n];
    assert inputs[..at] == before[..at] && inputs[at] == before[at];
    assert inputs[at..n] == before[at..] && inputs[at..n + 1] == inputs[at..];
    SliceSnoc(inputs, at, n);
    HeardSnoc(before[at..], last);
    assert forall i :: at <= i < n ==> inputs[i] == before[i];
    ClosedHoldsNothing(w, before);
    if IsChunk(last) {
      ChunkInput(w, End(w, before), last);
      SoundOf(last);
    } else {
      OtherInput(w, End(w, before), last);
      Soundless(last);
      assert Heard(before[at..]) + [] == Heard(before[at..]);
    }
  }

  /** The input starts a capture for the session that `last` carries on, and nothing between belongs elsewhere. */
  ghost predicate Spans(w: World, inputs: seq<Input>, at: nat, n: nat) {
    && at <= n < |inputs| && IsChunk(inputs[at]) && IsChunk(inputs[n])
    && End(w, inputs[..at]).capture != Some(ChunkOf(inputs[n]).session)
    && forall i :: at <= i <= n && IsChunk(inputs[i]) ==> ChunkOf(inputs[i]).session == ChunkOf(inputs[n]).session
  }

  /** The capture that chunk `n` belongs to began at input `at`, as far as `n`. */
  lemma CaptureOf(w: World, inputs: seq<Input>, n: nat) returns (at: nat)
    requires n < |inputs| && Taken(w, inputs[..n + 1])
    ensures Spans(w, inputs, at, n)
    ensures var s, c := End(w, inputs[..n]), ChunkOf(inputs[n]);
            && Joined(s, c).kind == KindOf(ChunkOf(inputs[at]).kind)
            && (Joined(s, c).kind != Transcript ==> Joined(s, c).audio == Heard(inputs[at..n]))
    ensures Numbered(w, inputs[..n + 1], at) && Relayed(w, inputs[..n + 1], at)
  {
    hide Step, Samples, Inv, Since, Sound, Heard, End, Numbered, Relayed, OnChunk, KindOf;
    var before, last, upto := inputs[..n], inputs[n], inputs[..n + 1];
    var s, c := End(w, before), ChunkOf(last);
    assert upto[..n] == before && upto[n] == last;
    if s.capture == Some(c.session) {
      at := CaptureHistory(w, before);
      SinceMeans(w, before, at);
      assert inputs[..at] == before[..at] && inputs[at] == before[at];
      assert forall i :: at <= i < n ==> inputs[i] == before[i];
      assert inputs[at..n] == before[at..];
      NumberedGrows(w, upto, at);
      RelayedGrows(w, upto, at);
    } else {
      at := n;
      HeardNothing();
      assert inputs[n..n] == [];
      NumberedStarts(w, upto);
      RelayedStarts(w, upto);
    }
  }

  lemma HeardNothing()
    ensures Heard([]) == []
  {}

  /**
   * Every utterance is the in-order concatenation of its capture's chunks, from the one that began the
   * capture to the last, except that a chunk which would overflow is left out; the first chunk's kind decides
   * whether it is filed.  No gap was reported exactly when those chunks were numbered without a break.
   */
  lemma UtteranceIsItsCapture(w: World, inputs: seq<Input>, n: nat, a: Action) returns (at: nat)
    requires n < |inputs| && a in Answer(w, inputs, n) && a.Utterance?
    ensures Spans(w, inputs, at, n) && a.session == ChunkOf(inputs[n]).session
    ensures ChunkOf(inputs[at]).kind != 1 && a.file == (ChunkOf(inputs[at]).kind != 2)
    ensures var whole := Heard(inputs[at..n + 1]);
            if |whole| <= MAX_UTTERANCE then a.pcm == whole && ChunkOf(inputs[n]).last
            else a.pcm == Heard(inputs[at..n])
    ensures GapFree(w, inputs[..n + 1], at) <==> Consecutive(Numbers(inputs[at..n + 1]))
  {
    hide Step, Samples, Inv, Sound, Heard, End, OnChunk, GapFree, Consecutive, Relayed;
    var last, s := inputs[n], End(w, inputs[..n]);
    assert inputs[..n + 1][..n] == inputs[..n];
    if !IsChunk(last) { OtherInput(w, s, last); }
    ChunkInput(w, s, last);
    at := CaptureOf(w, inputs, n);
    assert inputs[..n + 1][at..] == inputs[at..n + 1];
    HeardSnoc(inputs[at..n], last);
    SliceSnoc(inputs, at, n);
    ChunkAnswers(s, ChunkOf(last), a);
    SoundOf(last);
  }

  /**
   * A long capture is handed on as it arrives: at each of its chunks, what has been handed on since the
   * first, put together, is all that was heard; again gaps are reported exactly where numbers break.
   */
  lemma LongCaptureArrives(w: World, inputs: seq<Input>, n: nat, a: Action) returns (at: nat)
    requires n < |inputs| && a in Answer(w, inputs, n) && a.CaptureChunk?
    ensures Spans(w, inputs, at, n) && ChunkOf(inputs[at]).kind == 1
    ensures a.session == ChunkOf(inputs[n]).session && a.last == ChunkOf(inputs[n]).last
    ensures PassedSince(w, inputs[..n + 1], at) == Heard(inputs[at..n + 1])
    ensures GapFree(w, inputs[..n + 1], at) <==> Consecutive(Numbers(inputs[at..n + 1]))
  {
    hide Step, Samples, Inv, Sound, Heard, End, OnChunk, GapFree, Consecutive, PassedSince;
    var last, s := inputs[n], End(w, inputs[..n]);
    assert inputs[..n + 1][..n] == inputs[..n] && inputs[..n + 1][n] == last;
    if !IsChunk(last) { OtherInput(w, s, last); }
    ChunkInput(w, s, last);
    at := CaptureOf(w, inputs, n);
    assert inputs[..n + 1][at..] == inputs[at..n + 1];
    EndStep(w, inputs, n);
    RelayingAnswers(s, ChunkOf(last), a);
  }

  lemma RelayingAnswers(s: Snapshot, c: Chunk, a: Action)
    requires a in OnChunk(s, c).actions && a.CaptureChunk?
    ensures a.session == c.session && a.last == c.last && Joined(s, c).kind == OnChunk(s, c).next.kind == Transcript
  {
    hide Samples;
  }

  lemma SoundOf(i: Input)
    requires IsChunk(i)
    ensures Sound(i) == Samples(ChunkOf(i).pcm)
  {}

  lemma Soundless(i: Input)
    requires !IsChunk(i)
    ensures Sound(i) == []
  {}

  lemma HeardSnoc(inputs: seq<Input>, last: Input)
    ensures Heard([]) == [] && Heard(inputs + [last]) == Heard(inputs) + Sound(last)
  {
    assert (inputs + [last])[..|inputs|] == inputs;
  }

  lemma SinceMeans(w: World, inputs: seq<Input>, at: nat)
    requires Since(w, inputs, at)
    ensures var s := End(w, inputs);
            && at < |inputs| && IsChunk(inputs[at])
            && s.capture == Some(ChunkOf(inputs[at]).session) && End(w, inputs[..at]).capture != s.capture
            && (forall i :: at <= i < |inputs| && IsChunk(inputs[i]) ==> s.capture == Some(ChunkOf(inputs[i]).session))
            && s.kind == KindOf(ChunkOf(inputs[at]).kind)
            && (s.kind != Transcript ==> s.audio == Heard(inputs[at..]))
  {
    hide Step, Heard;
  }

  /** The utterance a chunk can be answered with. */
  lemma ChunkAnswers(s: Snapshot, c: Chunk, a: Action)
    requires a in OnChunk(s, c).actions && a.Utterance?
    ensures var held := if s.capture == Some(c.session) then s.audio else [];
            var kind := if s.capture == Some(c.session) then s.kind else KindOf(c.kind);
            && a.session == c.session && kind != Transcript && a.file == (kind == Note)
            && a.pcm == (if |held| + |Samples(c.pcm)| > MAX_UTTERANCE then held else held + Samples(c.pcm))
            && (|held| + |Samples(c.pcm)| <= MAX_UTTERANCE ==> c.last)
  {
    hide Samples;
  }

  // ---------------------------------------------------------------- long captures

  /** The samples that an answer hands on of a long capture. */
  function PassedOn(actions: seq<Action>): seq<int> {
    if actions == [] then []
    else (if actions[0].CaptureChunk? then actions[0].pcm else []) + PassedOn(actions[1..])
  }

  /** Those handed on from input `at` on, put together. */
  function PassedSince(w: World, inputs: seq<Input>, at: nat): seq<int>
    decreases |inputs|
  {
    if |inputs| <= at then []
    else PassedSince(w, inputs[..|inputs| - 1], at) + PassedOn(Answer(w, inputs, |inputs| - 1))
  }

  /** A long capture has been handed on as heard. */
  ghost predicate Relayed(w: World, inputs: seq<Input>, at: nat) {
    at < |inputs| && (End(w, inputs).kind == Transcript ==> PassedSince(w, inputs, at) == Heard(inputs[at..]))
  }

  lemma {:induction false} PassedAppend(a: seq<Action>, b: seq<Action>)
    ensures PassedOn(a + b) == PassedOn(a) + PassedOn(b)
  {
    if a == [] {
      assert a + b == b;
    } else {
      assert (a + b)[1..] == a[1..] + b;
      PassedAppend(a[1..], b);
    }
  }

  lemma ChunkPassesOn(s: Snapshot, c: Chunk)
    ensures OnChunk(s, c).next.kind == Joined(s, c).kind
    ensures Joined(s, c).kind == Transcript ==> PassedOn(OnChunk(s, c).actions) == Samples(c.pcm)
  {
    hide Samples;
    if Joined(s, c).kind == Transcript {
      var head, a := [Seen] + Gap(s, c), CaptureChunk(c.session, Samples(c.pcm), c.last);
      PassedAppend(head, [a]);
      PassedNothing(head);
      assert [a][1..] == [] && a.pcm + [] == a.pcm;
    }
  }

  lemma RelayedStarts(w: World, inputs: seq<Input>)
    requires Taken(w, inputs) && End(w, inputs[..|inputs| - 1]).capture != Some(ChunkOf(inputs[|inputs| - 1]).session)
    ensures Relayed(w, inputs, |inputs| - 1)
  {
    hide Samples, Step, OnChunk, Joined;
    var n := |inputs| - 1;
    ChunkInput(w, End(w, inputs[..n]), inputs[n]);
    ChunkPassesOn(End(w, inputs[..n]), ChunkOf(inputs[n]));
    SoundOf(inputs[n]);
    HeardSnoc([], inputs[n]);
    assert inputs[n..] == [] + [inputs[n]];
    assert PassedSince(w, inputs[..n], n) == [] && [] + Sound(inputs[n]) == Sound(inputs[n]);
  }

  lemma RelayedGrows(w: World, inputs: seq<Input>, at: nat)
    requires inputs != [] && Relayed(w, inputs[..|inputs| - 1], at)
    requires var last, s := inputs[|inputs| - 1], End(w, inputs[..|inputs| - 1]);
             if IsChunk(last) then Taken(w, inputs) && s.capture == Some(ChunkOf(last).session)
             else End(w, inputs).capture.Some?
    ensures Relayed(w, inputs, at)
  {
    hide Samples, Step, OnChunk, Heard, Sound;
    var n := |inputs| - 1;
    var before, last, s := inputs[..n], inputs[n], End(w, inputs[..n]);
    assert inputs[at..n] == before[at..] && inputs[at..n + 1] == inputs[at..];
    SliceSnoc(inputs, at, n);
    HeardSnoc(before[at..], last);
    if IsChunk(last) {
      ChunkInput(w, s, last);
      ChunkPassesOn(s, ChunkOf(last));
      SoundOf(last);
    } else {
      OtherInput(w, s, last);
      Soundless(last);
    }
  }

  // ---------------------------------------------------------------- which losses are noticed

  predicate ReportsGap(actions: seq<Action>) { exists i :: 0 <= i < |actions| && actions[i].AudioGap? }

  ghost predicate GapFree(w: World, inputs: seq<Input>, at: nat) {
    forall i :: at <= i < |inputs| ==> !ReportsGap(Answer(w, inputs, i))
  }

  /** The sequence numbers of the chunks in a stretch of inputs. */
  function Numbers(inputs: seq<Input>): seq<int> {
    if inputs == [] then []
    else
      var last := inputs[|inputs| - 1];
      Numbers(inputs[..|inputs| - 1]) + (if IsChunk(last) then [ChunkOf(last).seqNo] else [])
  }

  /** Each number follows the one before, in 32 bits. */
  predicate Consecutive(ns: seq<int>) {
    forall i :: 1 <= i < |ns| ==> ns[i] == (ns[i - 1] + 1) % U32_LIMIT
  }

  /**
   * No gap is reported during a capture exactly when the chunks that arrived are consecutive.  The first of
   * them is taken as it comes: see `LossSpottedIff`.
   */
  ghost predicate Numbered(w: World, inputs: seq<Input>, at: nat) {
    at < |inputs| &&
    var ns := Numbers(inputs[at..]);
    && (GapFree(w, inputs, at) <==> Consecutive(ns))
    && ns != [] && End(w, inputs).nextSeq == (ns[|ns| - 1] + 1) % U32_LIMIT
  }

  lemma NumberedStarts(w: World, inputs: seq<Input>)
    requires Taken(w, inputs) && End(w, inputs[..|inputs| - 1]).capture != Some(ChunkOf(inputs[|inputs| - 1]).session)
    ensures Numbered(w, inputs, |inputs| - 1)
  {
    hide Samples, Step;
    var n := |inputs| - 1;
    assert inputs[n..] == [inputs[n]] && [inputs[n]][..0] == [];
    assert Numbers(inputs[n..]) == [] + [ChunkOf(inputs[n]).seqNo];
    ChunkInput(w, End(w, inputs[..n]), inputs[n]);
    ChunkGap(End(w, inputs[..n]), ChunkOf(inputs[n]));
  }

  lemma NumberedGrows(w: World, inputs: seq<Input>, at: nat)
    requires inputs != [] && Numbered(w, inputs[..|inputs| - 1], at)
    requires var last, s := inputs[|inputs| - 1], End(w, inputs[..|inputs| - 1]);
             if IsChunk(last) then Taken(w, inputs) && s.capture == Some(ChunkOf(last).session)
             else End(w, inputs).capture.Some?
    ensures Numbered(w, inputs, at)
  {
    hide Samples, Step, Consecutive, GapFree;
    var n := |inputs| - 1;
    var before, last, s := inputs[..n], inputs[n], End(w, inputs[..n]);
    assert inputs[at..][..n - at] == before[at..] && inputs[at..][n - at] == last;
    GapFreeSnoc(w, inputs, at);
    var ns := Numbers(before[at..]);
    if IsChunk(last) {
      ChunkInput(w, s, last);
      ChunkGap(s, ChunkOf(last));
      ConsecutiveSnoc(ns, ChunkOf(last).seqNo);
    } else {
      OtherInput(w, s, last);
      assert ns + [] == ns;
    }
  }

  lemma GapFreeSnoc(w: World, inputs: seq<Input>, at: nat)
    requires at < |inputs|
    ensures var n := |inputs| - 1;
            GapFree(w, inputs, at) <==> GapFree(w, inputs[..n], at) && !ReportsGap(Answer(w, inputs, n))
  {
    hide Step, ReportsGap;
    var n := |inputs| - 1;
    forall i | at <= i < n ensures Answer(w, inputs, i) == Answer(w, inputs[..n], i) {
      assert inputs[..n][..i] == inputs[..i];
    }
  }

  lemma ConsecutiveSnoc(ns: seq<int>, x: int)
    requires ns != []
    ensures Consecutive(ns + [x]) <==> Consecutive(ns) && x == (ns[|ns| - 1] + 1) % U32_LIMIT
  {
    var all := ns + [x];
    if Consecutive(all) {
      assert all[|ns|] == (all[|ns| - 1] + 1) % U32_LIMIT;
      forall i | 1 <= i < |ns| ensures ns[i] == (ns[i - 1] + 1) % U32_LIMIT {
        assert all[i] == ns[i] && all[i - 1] == ns[i - 1];
      }
    }
  }

  /** A chunk is answered with a gap exactly when it continues a capture out of turn. */
  lemma ChunkGap(s: Snapshot, c: Chunk)
    ensures var r := OnChunk(s, c);
            ReportsGap(r.actions) <==> s.capture == Some(c.session) && c.seqNo != s.nextSeq
    ensures OnChunk(s, c).next.nextSeq == (c.seqNo + 1) % U32_LIMIT
  {
    hide Samples;
    if s.capture == Some(c.session) && c.seqNo != s.nextSeq {
      assert OnChunk(s, c).actions[1].AudioGap?;
    }
  }

  /** The numbers a device gives to chunks `ks` of a capture whose first is number `first`. */
  function Sent(first: int, ks: seq<nat>): seq<int> {
    seq(|ks|, i requires 0 <= i < |ks| => (first + ks[i]) % U32_LIMIT)
  }

  /** Chunks of one capture as they arrive: some of those sent, in order. */
  ghost predicate SomeOf(ks: seq<nat>) {
    && (forall i, j :: 0 <= i < j < |ks| ==> ks[i] < ks[j])
    && (forall i :: 0 <= i < |ks| ==> ks[i] < U32_LIMIT)
  }

  predicate Unbroken(ks: seq<nat>) { forall i :: 1 <= i < |ks| ==> ks[i] == ks[i - 1] + 1 }

  lemma ConsecutiveIffUnbroken(first: int, ks: seq<nat>)
    requires SomeOf(ks)
    ensures Consecutive(Sent(first, ks)) <==> Unbroken(ks)
  {
    var ns := Sent(first, ks);
    forall i | 1 <= i < |ks| ensures ns[i] == (ns[i - 1] + 1) % U32_LIMIT <==> ks[i] == ks[i - 1] + 1 {
      NextNumber(first, ks[i - 1], ks[i]);
    }
  }

  lemma NextNumber(first: int, j: nat, k: nat)
    requires j < k < U32_LIMIT
    ensures (first + k) % U32_LIMIT == ((first + j) % U32_LIMIT + 1) % U32_LIMIT <==> k == j + 1
  {}

  /**
   * The schema promises that sequence numbers let the daemon spot a dropped frame.  At every chunk the session
   * takes, whether or not it hands anything on: of a capture's chunks, some of which are lost, no gap has been
   * reported exactly if those that arrived are an unbroken stretch.  So a loss is spotted exactly if a chunk
   * arrives on either side of it.
   */
  lemma LossSpottedIff(w: World, inputs: seq<Input>, n: nat, first: int, ks: seq<nat>) returns (at: nat)
    requires n < |inputs| && Taken(w, inputs[..n + 1])
    ensures Spans(w, inputs, at, n)
    ensures Numbers(inputs[at..n + 1]) == Sent(first, ks) && SomeOf(ks) ==>
              (GapFree(w, inputs[..n + 1], at) <==> Unbroken(ks))
  {
    hide Taken, Numbers, Sent, Unbroken, GapFree, Consecutive, SomeOf, Heard, KindOf, Relayed, Joined;
    at := CaptureOf(w, inputs, n);
    assert inputs[..n + 1][at..] == inputs[at..n + 1];
    if SomeOf(ks) { ConsecutiveIffUnbroken(first, ks); }
  }

  /** The same for a capture that is still running, whatever else has arrived since its last chunk. */
  lemma RunningLossSpottedIff(w: World, inputs: seq<Input>, first: int, ks: seq<nat>) returns (at: nat)
    requires End(w, inputs).capture.Some?
    ensures Since(w, inputs, at)
    ensures Numbers(inputs[at..]) == Sent(first, ks) && SomeOf(ks) ==> (GapFree(w, inputs, at) <==> Unbroken(ks))
  {
    hide End, Since, Numbers, Sent, Unbroken, GapFree, Consecutive, SomeOf, Relayed;
    at := CaptureHistory(w, inputs);
    if SomeOf(ks) { ConsecutiveIffUnbroken(first, ks); }
  }

  // ---------------------------------------------------------------- two losses nobody notices

  function Spoken(seqNo: int, session: int, last: bool, pcm: seq<byte>, now: nat): Input {
    Received(AudioFrame(Some(Chunk(seqNo, session, last, pcm, 0))), now)
  }

  predicate Frames(pcm: seq<byte>) { pcm != [] && |pcm| % 2 == 0 && |pcm| <= 4096 }

  lemma HelloOpens(w: World, h: Hello, now: nat, inputs: seq<Input>)
    requires Proves(w, h) && inputs != [] && inputs[0] == Received(HelloFrame(Some(h)), now)
    ensures End(w, inputs[..1]) == OPENED.(state := Ready, device := h.device, firmware := h.firmware)
    ensures !ReportsGap(Answer(w, inputs, 0))
  {
    assert inputs[..1] == [inputs[0]] && inputs[..0] == [] && inputs[..1][..0] == [];
    assert End(w, []) == OPENED;
    OtherInput(w, OPENED, inputs[0]);
  }

  /** A dictation without a long capture's pass-through, one chunk of it on an open session. */
  lemma SpokenStep(w: World, s: Snapshot, seqNo: int, session: int, last: bool, pcm: seq<byte>, now: nat)
    requires s.state == Ready && s.capture != Some(session) && Frames(pcm)
    ensures var r := Step(w, s, Spoken(seqNo, session, last, pcm, now));
            && !ReportsGap(r.actions)
            && r.next.state == Ready && r.next.capture == (if last then None else Some(session))
            && (!last ==> r.actions == [Seen] && r.next.audio == Samples(pcm))
            && (last ==> r.actions == [Seen, Utterance(session, Samples(pcm), true)])
  {
    hide Samples;
    var i := Spoken(seqNo, session, last, pcm, now);
    ChunkInput(w, s, i);
    ChunkGap(s, ChunkOf(i));
    SamplesLength(pcm);
    assert [Seen] + [] == [Seen] && [] + Samples(pcm) == Samples(pcm);
  }

  /** The first of two chunks is lost: what arrives is handed on as the whole dictation, and no gap reported. */
  lemma LostAtTheStart(w: World, h: Hello, session: int, pcm: seq<byte>, now: nat) returns (inputs: seq<Input>)
    requires Proves(w, h) && Frames(pcm)
    ensures inputs == [Received(HelloFrame(Some(h)), now), Spoken(1, session, true, pcm, now)]
    ensures GapFree(w, inputs, 0) && Answer(w, inputs, 1) == [Seen, Utterance(session, Samples(pcm), true)]
  {
    hide Step, End, ReportsGap, Samples;
    inputs := [Received(HelloFrame(Some(h)), now), Spoken(1, session, true, pcm, now)];
    HelloOpens(w, h, now, inputs);
    SpokenStep(w, End(w, inputs[..1]), 1, session, true, pcm, now);
    forall i | 0 <= i < |inputs| ensures !ReportsGap(Answer(w, inputs, i)) { assert i == 0 || i == 1; }
  }

  /**
   * The last of two chunks is lost, and the next dictation follows: no gap is reported, and what did arrive of
   * the first is handed on to nobody.
   */
  lemma LostAtTheEnd(w: World, h: Hello, session: int, next: int, pcm: seq<byte>, pcm2: seq<byte>, now: nat)
      returns (inputs: seq<Input>)
    requires Proves(w, h) && Frames(pcm) && Frames(pcm2) && session != next
    ensures inputs == [Received(HelloFrame(Some(h)), now), Spoken(0, session, false, pcm, now), Spoken(0, next, true, pcm2, now)]
    ensures GapFree(w, inputs, 0) && Answer(w, inputs, 1) == [Seen]
    ensures Answer(w, inputs, 2) == [Seen, Utterance(next, Samples(pcm2), true)] && End(w, inputs).capture.None?
  {
    hide Step, End, ReportsGap, Samples;
    inputs := [Received(HelloFrame(Some(h)), now), Spoken(0, session, false, pcm, now), Spoken(0, next, true, pcm2, now)];
    HelloOpens(w, h, now, inputs);
    SpokenStep(w, End(w, inputs[..1]), 0, session, false, pcm, now);
    EndStep(w, inputs, 1);
    SpokenStep(w, End(w, inputs[..2]), 0, next, true, pcm2, now);
    EndStep(w, inputs, 2);
    assert inputs[..3] == inputs;
    forall i | 0 <= i < |inputs| ensures !ReportsGap(Answer(w, inputs, i)) { assert i == 0 || i == 1 || i == 2; }
  }
}
