/** The media part of the polling wait (dingdongditch/backends/playwright_backend.py:
    `_dispatch_wait_for` with `_observe_wait_condition`). Sticky flags carry the history. */
module MediaWait {
  import opened Wrappers

  datatype Condition = VideoPlaying | VideoCompletedOnce

  /** One reading of a video element. An unknown time or duration reads as zero. */
  datatype Sample = Sample(
    source: string,
    token: int,
    time: real,
    duration: real,
    paused: bool,
    ended: bool,
    looping: bool,
    readyState: int)

  /** One poll: a media reading, a failure to observe, a hard target failure, or a poll that
      found no target yet. */
  datatype Poll = Media(sample: Sample) | ObservationFailed | HardFailure | NoTarget

  /** How the wait ends; `TimedOut` means that the deadline came after the last poll. */
  datatype Ending = Satisfied(at: nat) | Aborted(at: nat) | Unobservable(at: nat) | TimedOut

  function Max(a: real, b: real): real {
    if a >= b then a else b
  }

  // ---------------------------------------------------------------------------
  // What a wait is satisfied by, over the samples seen so far

  predicate SameMedia(a: Sample, b: Sample) {
    a.source == b.source && a.token == b.token
  }

  /** The media element and its source never changed. */
  ghost predicate NeverChanged(m: seq<Sample>) {
    forall k :: 0 <= k < |m| ==> SameMedia(m[0], m[k])
  }

  /** At step k the time moved forward in a sample that was not paused. */
  predicate ProgressedAt(m: seq<Sample>, k: nat)
    requires 1 <= k < |m|
  {
    m[k].time > m[k - 1].time && !m[k].paused
  }

  /** At step k the time before it lay within 0.75 s of the end. */
  predicate NearEndAt(m: seq<Sample>, k: nat)
    requires 1 <= k < |m|
  {
    m[k].duration > 0.0 && m[k - 1].time >= Max(0.0, m[k].duration - 0.75)
  }

  ghost predicate EverProgressed(m: seq<Sample>) {
    exists k :: 1 <= k < |m| && ProgressedAt(m, k)
  }

  ghost predicate EverNearEnd(m: seq<Sample>) {
    exists k :: 1 <= k < |m| && NearEndAt(m, k)
  }

  ghost predicate Playing(m: seq<Sample>)
    requires m != []
  {
    var last := m[|m| - 1];
    && |m| >= 2 && NeverChanged(m) && EverProgressed(m)
    && !last.paused && !last.ended && last.readyState >= 2
  }

  /** A looping video has completed: it was near its end and has wrapped to the start. */
  ghost predicate Wrapped(m: seq<Sample>)
    requires m != []
  {
    var last := m[|m| - 1];
    && |m| >= 2 && NeverChanged(m) && EverProgressed(m) && EverNearEnd(m)
    && last.time < m[|m| - 2].time && last.time <= 1.0 && !last.paused
  }

  ghost predicate Meets(condition: Condition, m: seq<Sample>)
    requires m != []
  {
    var last := m[|m| - 1];
    match condition
    case VideoPlaying => Playing(m)
    case VideoCompletedOnce => if last.looping then Wrapped(m) else last.ended
  }

  // ---------------------------------------------------------------------------
  // The flags

  datatype Flags = Flags(previous: Option<Sample>, progressed: bool, nearEnd: bool, invalid: bool)

  /** One round of the flag updates, with the verdict on this sample. */
  function Observe(condition: Condition, f: Flags, s: Sample): (Flags, bool) {
    var base := condition == VideoCompletedOnce && s.ended && !s.looping;
    match f.previous
    case None => (f.(previous := Some(s)), base)
    case Some(p) =>
      var sameSource, sameElement := s.source == p.source, s.token == p.token;
      var invalid := f.invalid || !sameSource || !sameElement;
      var progressed := f.progressed || (sameSource && s.time > p.time && !s.paused);
      var nearEnd := f.nearEnd || (s.duration > 0.0 && p.time >= Max(0.0, s.duration - 0.75));
      var satisfied :=
        if condition == VideoPlaying then
          sameSource && sameElement && !invalid && progressed && !s.paused && !s.ended && s.readyState >= 2
        else if s.looping then
          sameSource && sameElement && !invalid && progressed && nearEnd &&
          s.time < p.time && s.time <= 1.0 && !s.paused
        else base;
      (Flags(Some(s), progressed, nearEnd, invalid), satisfied)
  }

  /** The flags summarise the samples seen so far. */
  ghost predicate Summarises(f: Flags, m: seq<Sample>) {
    && (f.previous.None? <==> m == [])
    && (m != [] ==> f.previous == Some(m[|m| - 1]))
    && (f.invalid <==> !NeverChanged(m))
    && (f.nearEnd <==> EverNearEnd(m))
    && (NeverChanged(m) ==> (f.progressed <==> EverProgressed(m)))
  }

  lemma NeverChangedAppend(m: seq<Sample>, s: Sample)
    requires m != []
    ensures NeverChanged(m + [s]) <==> NeverChanged(m) && SameMedia(m[|m| - 1], s)
  {
    var longer := m + [s];
    assert forall k :: 0 <= k < |m| ==> longer[k] == m[k];
    assert longer[|m|] == s;
    if NeverChanged(longer) {
      assert SameMedia(longer[0], longer[|m| - 1]) && SameMedia(longer[0], longer[|m|]);
    }
  }

  lemma EverAppend(m: seq<Sample>, s: Sample)
    requires m != []
    ensures EverProgressed(m + [s]) <==> EverProgressed(m) || ProgressedAt(m + [s], |m|)
    ensures EverNearEnd(m + [s]) <==> EverNearEnd(m) || NearEndAt(m + [s], |m|)
  {
    var longer := m + [s];
    assert forall k :: 1 <= k < |m| ==> ProgressedAt(longer, k) == ProgressedAt(m, k);
    assert forall k :: 1 <= k < |m| ==> NearEndAt(longer, k) == NearEndAt(m, k);
  }

  /** The flags keep summarising the history, and the verdict is the declarative one. */
  lemma ObserveIsExact(condition: Condition, f: Flags, m: seq<Sample>, s: Sample)
    requires Summarises(f, m)
    ensures Summarises(Observe(condition, f, s).0, m + [s])
    ensures Observe(condition, f, s).1 <==> Meets(condition, m + [s])
  {
    if m == [] {
      assert m + [s] == [s];
    } else {
      NeverChangedAppend(m, s);
      EverAppend(m, s);
      assert (m + [s])[|m| - 1] == m[|m| - 1] && (m + [s])[|m|] == s;
    }
  }

  // ---------------------------------------------------------------------------
  // The loop

  /** The flag updates of one round, in the order of the code. */
  method UpdateFlags(condition: Condition, previous: Option<Sample>,
                     progressed0: bool, nearEnd0: bool, invalid0: bool, s: Sample)
    returns (satisfied: bool, progressed: bool, nearEnd: bool, invalid: bool)
    ensures (Flags(Some(s), progressed, nearEnd, invalid), satisfied)
         == Observe(condition, Flags(previous, progressed0, nearEnd0, invalid0), s)
  {
    progressed, nearEnd, invalid := progressed0, nearEnd0, invalid0;
    satisfied := condition == VideoCompletedOnce && s.ended && !s.looping;
    if previous.Some? {
      var sameSource := s.source == previous.value.source;
      var sameElement := s.token == previous.value.token;
      if !sameSource || !sameElement {
        invalid := true;
      }
      if sameSource && s.time > previous.value.time && !s.paused {
        progressed := true;
      }
      if s.duration > 0.0 && previous.value.time >= Max(0.0, s.duration - 0.75) {
        nearEnd := true;
      }
      if condition == VideoPlaying {
        satisfied := sameSource && sameElement && !invalid && progressed
                     && !s.paused && !s.ended && s.readyState >= 2;
      } else if s.looping {
        satisfied := sameSource && sameElement && !invalid && progressed && nearEnd
                     && s.time < previous.value.time && s.time <= 1.0 && !s.paused;
      }
    }
  }

  /** The media-bearing samples among the polls. */
  function Samples(polls: seq<Poll>): seq<Sample> {
    if polls == [] then []
    else
      var p := polls[|polls| - 1];
      Samples(polls[..|polls| - 1]) + if p.Media? then [p.sample] else []
  }

  lemma SamplesStep(polls: seq<Poll>, i: nat)
    requires i < |polls|
    ensures Samples(polls[..i + 1]) == Samples(polls[..i]) + if polls[i].Media? then [polls[i].sample] else []
    ensures !polls[i].Media? ==> Samples(polls[..i + 1]) == Samples(polls[..i])
  {
    assert polls[..i + 1][..i] == polls[..i];
  }

  /** This poll is a reading at which the condition holds of all readings so far. */
  ghost predicate SatisfiedAt(condition: Condition, polls: seq<Poll>, i: nat)
    requires i < |polls|
  {
    polls[i].Media? && Samples(polls[..i + 1]) != [] && Meets(condition, Samples(polls[..i + 1]))
  }

  ghost predicate GoesOnAt(condition: Condition, polls: seq<Poll>, i: nat)
    requires i < |polls|
  {
    !SatisfiedAt(condition, polls, i) && !polls[i].HardFailure? && !polls[i].ObservationFailed?
  }

  /** The polling loop: it ends at the first poll that satisfies the condition or fails hard,
      where satisfaction is judged on the whole history of readings. */
  method WaitForMedia(condition: Condition, polls: seq<Poll>) returns (ending: Ending)
    ensures match ending
            case Satisfied(at) => at < |polls| && SatisfiedAt(condition, polls, at)
            case Aborted(at) => at < |polls| && polls[at].HardFailure?
            case Unobservable(at) => at < |polls| && polls[at].ObservationFailed?
            case TimedOut => true
    ensures forall i :: 0 <= i < (if ending.TimedOut? then |polls| else ending.at) ==> GoesOnAt(condition, polls, i)
  {
    var previous: Option<Sample> := None;
    var progressed, nearEnd, invalid := false, false, false;
    ghost var m: seq<Sample> := [];
    for i := 0 to |polls|
      invariant m == Samples(polls[..i])
      invariant Summarises(Flags(previous, progressed, nearEnd, invalid), m)
      invariant forall j :: 0 <= j < i ==> GoesOnAt(condition, polls, j)
    {
      SamplesStep(polls, i);
      var satisfied := false;
      if polls[i].Media? {
        var s := polls[i].sample;
        ObserveIsExact(condition, Flags(previous, progressed, nearEnd, invalid), m, s);
        m := m + [s];
        satisfied, progressed, nearEnd, invalid := UpdateFlags(condition, previous, progressed, nearEnd, invalid, s);
        previous := Some(s);
      }
      if polls[i].HardFailure? {
        return Aborted(i);
      }
      if satisfied {
        return Satisfied(i);
      }
      if polls[i].ObservationFailed? {
        return Unobservable(i);
      }
    }
    return TimedOut;
  }

  // ---------------------------------------------------------------------------
  // Consequences over whole waits

  /** Once the element or its source has changed, no later sample makes the wait succeed as
      "playing", nor as "completed" while the video loops. */
  lemma ChangedMediaNeverSatisfies(condition: Condition, m: seq<Sample>, more: seq<Sample>)
    requires m != [] && !NeverChanged(m)
    requires condition == VideoPlaying || (m + more)[|m + more| - 1].looping
    ensures !Meets(condition, m + more)
  {
    var k :| 0 <= k < |m| && !SameMedia(m[0], m[k]);
    assert (m + more)[0] == m[0] && (m + more)[k] == m[k];
  }

  /** A looping video is complete only after at least three readings: progress and the wrap
      are different steps. */
  lemma WrapNeedsThreeSamples(m: seq<Sample>)
    requires m != [] && Wrapped(m)
    ensures |m| >= 3
  {
  }
}
