/**
 * The ambient listener: a per-frame speech detector that gathers audio
 * while someone speaks, hands a finished utterance to a speech-to-text
 * model, filters and de-duplicates the transcription, and queues it as a
 * topic that the conversation loop takes one at a time.
 *
 * The pure part (`State`, `Step`, `Process`, `Accept`, ...) is the
 * specification; `AmbientListener` is the object whose methods update
 * their fields in place and are proved to follow it.
 */
module Listener {
  import opened Wrappers
  import opened PyStr

  /** One block of mono samples; nothing in the model looks inside. */
  type Chunk = seq<real>

  /** What the speech-to-text model gives for a buffer: its segment texts, or a raised error. */
  datatype Transcript = Segments(texts: seq<string>) | Failed

  /** The two duration thresholds, in the clock's unit. */
  datatype Config = Config(minDuration: int, maxDuration: int)

  /** One callback: the chunk, whether its volume was above the threshold, and the clock. */
  datatype Frame = Frame(chunk: Chunk, isSpeech: bool, now: int)

  /** Capacity of the de-duplication window. */
  const HistorySize: nat := 10

  /** A transcription must be strictly longer than this to be considered. */
  const MinTextLength: nat := 10

  /** Whole transcriptions that are dropped as noise (compared lower-cased). */
  const Fillers: seq<string> := ["thank you", "okay", "um", "uh", "hmm", "yeah", "so"]

  /**
   * Everything the listener keeps. `launches` counts background threads
   * started and `sent` records every buffer handed to the speech model;
   * both exist only to state properties.
   */
  datatype State = State(
    running: bool,
    launches: nat,
    speaking: bool,
    start: Option<int>,
    buffer: seq<Chunk>,
    recent: seq<string>,
    topics: seq<string>,
    sent: seq<seq<Chunk>>)

  /** What `Step` needs: a speech start time while speaking, and a bounded window. */
  predicate Ready(s: State) {
    (s.speaking ==> s.start.Some?) && |s.recent| <= HistorySize
  }

  /** No two remembered transcriptions are equal ignoring case. */
  predicate DistinctLower(h: seq<string>) {
    forall i, j :: 0 <= i < j < |h| ==> Lower(h[i]) != Lower(h[j])
  }

  /** A queued topic: long enough and without surrounding whitespace. */
  predicate IsTopic(t: string) {
    |t| > MinTextLength && IsStripped(t)
  }

  /** The invariant every operation keeps. */
  predicate Invariant(s: State) {
    && Ready(s)
    && (s.speaking <==> s.start.Some?)
    && (!s.speaking ==> s.buffer == [])
    && DistinctLower(s.recent)
    && (forall i :: 0 <= i < |s.topics| ==> IsTopic(s.topics[i]))
  }

  function Initial(): (s: State)
    ensures Invariant(s) && !s.running && s.launches == 0
    ensures !s.speaking && s.start == None && s.buffer == []
    ensures s.topics == [] && s.recent == [] && s.sent == []
  {
    State(false, 0, false, None, [], [], [], [])
  }

  // ---------------------------------------------------------------------
  // Start, stop and the topic queue
  // ---------------------------------------------------------------------

  /** Starting launches a background thread only when none is running. */
  function Started(s: State): (r: State)
    ensures r.running
    ensures r.launches == if s.running then s.launches else s.launches + 1
    ensures r.(running := s.running, launches := s.launches) == s
  {
    if s.running then s else s.(running := true, launches := s.launches + 1)
  }

  /** Stopping only clears the flag; audio state and the queue are kept. */
  function Stopped(s: State): (r: State)
    ensures !r.running
    ensures r.(running := s.running) == s
  {
    s.(running := false)
  }

  /** Non-blocking take from the FIFO queue: the oldest topic, or nothing. */
  function TakeTopic(s: State): (r: (Option<string>, State))
    ensures r.0.None? <==> s.topics == []
    ensures r.0.Some? ==> [r.0.value] + r.1.topics == s.topics
    ensures r.1.(topics := s.topics) == s
  {
    if s.topics == [] then (None, s) else (Some(s.topics[0]), s.(topics := s.topics[1..]))
  }

  /** Every answer `TakeTopic` gives until the queue is empty. */
  function Drain(s: State): seq<string>
    decreases |s.topics|
  {
    match TakeTopic(s).0
    case None => []
    case Some(t) => [t] + Drain(TakeTopic(s).1)
  }

  /** Topics come out in exactly the order they were queued. */
  lemma {:induction false} DrainIsQueueOrder(s: State)
    ensures Drain(s) == s.topics
    decreases |s.topics|
  {
    if s.topics != [] {
      DrainIsQueueOrder(TakeTopic(s).1);
    }
  }

  lemma StartedIdempotent(s: State)
    ensures Started(Started(s)) == Started(s)
    ensures Started(s).launches <= s.launches + 1
  {
  }

  // ---------------------------------------------------------------------
  // Transcription handling
  // ---------------------------------------------------------------------

  /** The stripped text, unless it is, ignoring case, exactly one filler phrase. */
  function ExtractTopic(text: string): (topic: Option<string>)
    ensures topic.None? <==> Lower(Strip(text)) in Fillers
    ensures topic.Some? ==> topic.value == Strip(text)
  {
    var t := Strip(text);
    if Lower(t) in Fillers then None else Some(t)
  }

  /** No filler is longer than nine characters, so no long text is one. */
  lemma FillersAreShort()
    ensures forall i :: 0 <= i < |Fillers| ==> |Fillers[i]| <= 9
  {
  }

  lemma LongTextIsTopic(text: string)
    requires |Strip(text)| > 9
    ensures ExtractTopic(text) == Some(Strip(text))
  {
    FillersAreShort();
  }

  /** The lower-cased window, against which new text is compared. */
  function LowerAll(h: seq<string>): (r: seq<string>)
    ensures |r| == |h|
    ensures forall i :: 0 <= i < |h| ==> r[i] == Lower(h[i])
  {
    seq(|h|, i requires 0 <= i < |h| => Lower(h[i]))
  }

  predicate IsRecent(text: string, h: seq<string>) {
    Lower(text) in LowerAll(h)
  }

  lemma IsRecentIff(text: string, h: seq<string>)
    ensures IsRecent(text, h) <==> exists i :: 0 <= i < |h| && Lower(h[i]) == Lower(text)
  {
    if IsRecent(text, h) {
      var i :| 0 <= i < |h| && LowerAll(h)[i] == Lower(text);
    }
  }

  /** Append to a bounded deque: once full, the oldest entry falls out. */
  function Remember(h: seq<string>, text: string): (r: seq<string>)
    requires |h| <= HistorySize
    ensures |r| == if |h| < HistorySize then |h| + 1 else HistorySize
    ensures r == (h + [text])[|h| + 1 - |r|..]
  {
    if |h| < HistorySize then h + [text] else h[1..] + [text]
  }

  function RememberAll(h: seq<string>, xs: seq<string>): (r: seq<string>)
    requires |h| <= HistorySize
    ensures |r| == if |h| + |xs| < HistorySize then |h| + |xs| else HistorySize
    decreases |xs|
  {
    if xs == [] then h else RememberAll(Remember(h, xs[0]), xs[1..])
  }

  /** The window holds the last ten insertions, whatever it held before. */
  lemma {:induction false} WindowKeepsLastTen(h: seq<string>, xs: seq<string>)
    requires |h| <= HistorySize
    ensures RememberAll(h, xs) == (h + xs)[|h| + |xs| - |RememberAll(h, xs)|..]
    decreases |xs|
  {
    if xs != [] {
      var h' := Remember(h, xs[0]);
      WindowKeepsLastTen(h', xs[1..]);
      WindowStep(h, xs);
    }
  }

  /** The step of `WindowKeepsLastTen`: what the window after the first insertion keeps, the first window keeps. */
  lemma WindowStep(h: seq<string>, xs: seq<string>)
    requires |h| <= HistorySize && xs != []
    requires var h' := Remember(h, xs[0]);
      RememberAll(h', xs[1..]) == (h' + xs[1..])[|h'| + |xs[1..]| - |RememberAll(h', xs[1..])|..]
    ensures RememberAll(h, xs) == (h + xs)[|h| + |xs| - |RememberAll(h, xs)|..]
  {
    var h' := Remember(h, xs[0]);
    var rest := xs[1..];
    var a := h + [xs[0]];
    var k := |h| + 1 - |h'|;
    var r := RememberAll(h', rest);
    var j := |h'| + |rest| - |r|;
    assert RememberAll(h, xs) == r;
    assert h' == a[k..];
    SuffixConcat(a, rest, k);
    assert h' + rest == (a + rest)[k..];
    SuffixOfSuffix(a + rest, k, j);
    assert r == (a + rest)[k + j..];
    assert xs == [xs[0]] + rest;
    AppendAssoc(h, [xs[0]], rest);
    assert a + rest == h + xs;
  }

  lemma SuffixConcat<T>(a: seq<T>, b: seq<T>, k: nat)
    requires k <= |a|
    ensures a[k..] + b == (a + b)[k..]
  {
  }

  lemma SuffixOfSuffix<T>(c: seq<T>, k: nat, j: nat)
    requires k + j <= |c|
    ensures c[k..][j..] == c[k + j..]
  {
  }

  lemma WindowForgets(h: seq<string>, xs: seq<string>)
    requires |h| <= HistorySize && |xs| == HistorySize
    ensures RememberAll(h, xs) == xs
  {
    WindowKeepsLastTen(h, xs);
    assert (h + xs)[|h|..] == xs;
  }

  /** The final text of a transcription: the segments joined by spaces, stripped. */
  function TranscriptText(texts: seq<string>): (text: string)
    ensures IsStripped(text)
  {
    Strip(Join(" ", texts))
  }

  /** Length filter, case-insensitive de-duplication, remembering, filler filter, queueing. */
  function Accept(s: State, text: string): (r: State)
    requires |s.recent| <= HistorySize
    ensures |text| <= MinTextLength || IsRecent(text, s.recent) ==> r == s
    ensures |text| > MinTextLength && !IsRecent(text, s.recent) ==>
      && r.(topics := s.topics) == s.(recent := Remember(s.recent, text))
      && r.topics == s.topics + (if Lower(Strip(text)) in Fillers || Strip(text) == "" then [] else [Strip(text)])
  {
    if |text| > MinTextLength && !IsRecent(text, s.recent) then
      var s' := s.(recent := Remember(s.recent, text));
      match ExtractTopic(text)
      case Some(topic) => if topic != "" then s'.(topics := s'.topics + [topic]) else s'
      case None => s'
    else
      s
  }

  /** A new long transcription is remembered and queued verbatim: no filler is that long. */
  lemma AcceptQueuesText(s: State, text: string)
    requires |s.recent| <= HistorySize
    requires |text| > MinTextLength && !IsRecent(text, s.recent) && IsStripped(text)
    ensures Accept(s, text) == s.(recent := Remember(s.recent, text), topics := s.topics + [text])
  {
    LongTextIsTopic(text);
  }

  /** Hand the buffer (if any) to the speech model and act on the result. */
  function Process(s: State, whisper: seq<Chunk> -> Transcript): (r: State)
    requires |s.recent| <= HistorySize
    ensures s.buffer == [] ==> r == s
    ensures s.buffer != [] ==>
      r.(recent := s.recent, topics := s.topics) == s.(buffer := [], sent := s.sent + [s.buffer])
    ensures s.buffer != [] && whisper(s.buffer).Failed? ==>
      r == s.(buffer := [], sent := s.sent + [s.buffer])
    ensures s.buffer != [] && whisper(s.buffer).Segments? ==>
      r == Accept(s.(buffer := [], sent := s.sent + [s.buffer]), TranscriptText(whisper(s.buffer).texts))
  {
    if s.buffer == [] then s
    else
      var cleared := s.(buffer := [], sent := s.sent + [s.buffer]);
      match whisper(s.buffer)
      case Failed => cleared
      case Segments(texts) => Accept(cleared, TranscriptText(texts))
  }

  // ---------------------------------------------------------------------
  // The per-frame state machine
  // ---------------------------------------------------------------------

  function Step(cfg: Config, s: State, f: Frame, whisper: seq<Chunk> -> Transcript): (r: State)
    requires Ready(s)
    ensures Ready(r)
    ensures r.running == s.running && r.launches == s.launches
    // Silence while idle changes nothing.
    ensures !f.isSpeech && !s.speaking ==> r == s
    // Speech: the utterance starts now if it was not already under way, the chunk is
    // appended, and once it has lasted at least the maximum it is sent immediately.
    ensures f.isSpeech ==> r.speaking && r.start == (if s.speaking then s.start else Some(f.now))
    ensures f.isSpeech ==>
      var segment := (if s.speaking then s.buffer else []) + [f.chunk];
      if f.now - r.start.value >= cfg.maxDuration
      then r.buffer == [] && r.sent == s.sent + [segment]
      else r.buffer == segment && r.sent == s.sent && r.recent == s.recent && r.topics == s.topics
    // Sending is `_process_speech` on the grown utterance; otherwise only the utterance changes.
    ensures f.isSpeech ==>
      var grown := s.(speaking := true, start := r.start, buffer := (if s.speaking then s.buffer else []) + [f.chunk]);
      r == if f.now - r.start.value >= cfg.maxDuration then Process(grown, whisper) else grown
    // Silence after speech: the utterance ends; it is sent only if it lasted at least the minimum.
    ensures !f.isSpeech && s.speaking ==>
      !r.speaking && r.start == None && r.buffer == [] &&
      if f.now - s.start.value >= cfg.minDuration && s.buffer != []
      then r.sent == s.sent + [s.buffer]
      else r.sent == s.sent && r.recent == s.recent && r.topics == s.topics
    // An utterance that lasted the minimum goes through `_process_speech`; a shorter one is dropped.
    ensures !f.isSpeech && s.speaking ==>
      r == if f.now - s.start.value >= cfg.minDuration
           then Process(s, whisper).(speaking := false, start := None)
           else s.(speaking := false, start := None, buffer := [])
  {
    if f.isSpeech then
      var begun := if s.speaking then s else s.(speaking := true, start := Some(f.now), buffer := []);
      var grown := begun.(buffer := begun.buffer + [f.chunk]);
      if f.now - grown.start.value >= cfg.maxDuration then Process(grown, whisper) else grown
    else if s.speaking then
      var judged := if f.now - s.start.value >= cfg.minDuration then Process(s, whisper) else s.(buffer := []);
      judged.(speaking := false, start := None)
    else
      s
  }

  function Run(cfg: Config, s: State, frames: seq<Frame>, whisper: seq<Chunk> -> Transcript): (r: State)
    requires Ready(s)
    ensures Ready(r)
    decreases |frames|
  {
    if frames == [] then s else Run(cfg, Step(cfg, s, frames[0], whisper), frames[1..], whisper)
  }

  lemma {:induction false} RunAppend(cfg: Config, s: State, a: seq<Frame>, b: seq<Frame>, whisper: seq<Chunk> -> Transcript)
    requires Ready(s)
    ensures Run(cfg, s, a + b, whisper) == Run(cfg, Run(cfg, s, a, whisper), b, whisper)
    decreases |a|
  {
    if a != [] {
      assert (a + b)[0] == a[0] && (a + b)[1..] == a[1..] + b;
      var s1 := Step(cfg, s, a[0], whisper);
      RunAppend(cfg, s1, a[1..], b, whisper);
      assert Run(cfg, s, a + b, whisper) == Run(cfg, s1, a[1..] + b, whisper);
      assert Run(cfg, s, a, whisper) == Run(cfg, s1, a[1..], whisper);
    } else {
      assert a + b == b;
    }
  }

  function Chunks(frames: seq<Frame>): (cs: seq<Chunk>)
    ensures |cs| == |frames| && forall i :: 0 <= i < |frames| ==> cs[i] == frames[i].chunk
  {
    seq(|frames|, i requires 0 <= i < |frames| => frames[i].chunk)
  }

  // ---------------------------------------------------------------------
  // The invariant
  // ---------------------------------------------------------------------

  lemma RememberKeepsDistinct(h: seq<string>, text: string)
    requires |h| <= HistorySize && DistinctLower(h) && !IsRecent(text, h)
    ensures DistinctLower(Remember(h, text))
  {
    IsRecentIff(text, h);
    var r := Remember(h, text);
    var k := |h| + 1 - |r|;
    forall i, j | 0 <= i < j < |r| ensures Lower(r[i]) != Lower(r[j]) {
      assert r[i] == (h + [text])[k + i] && r[j] == (h + [text])[k + j];
      if j < |r| - 1 {
        assert r[i] == h[k + i] && r[j] == h[k + j];
      } else {
        assert r[i] == h[k + i] && r[j] == text;
      }
    }
  }

  lemma AcceptKeepsInvariant(s: State, text: string)
    requires Invariant(s) && IsStripped(text)
    ensures Invariant(Accept(s, text))
  {
    if |text| > MinTextLength && !IsRecent(text, s.recent) {
      RememberKeepsDistinct(s.recent, text);
    }
  }

  lemma ProcessKeepsInvariant(s: State, whisper: seq<Chunk> -> Transcript)
    requires Invariant(s)
    ensures Invariant(Process(s, whisper))
  {
    if s.buffer != [] && whisper(s.buffer).Segments? {
      var cleared := s.(buffer := [], sent := s.sent + [s.buffer]);
      AcceptKeepsInvariant(cleared, TranscriptText(whisper(s.buffer).texts));
    }
  }

  lemma StepKeepsInvariant(cfg: Config, s: State, f: Frame, whisper: seq<Chunk> -> Transcript)
    requires Invariant(s)
    ensures Invariant(Step(cfg, s, f, whisper))
  {
    if f.isSpeech {
      var begun := if s.speaking then s else s.(speaking := true, start := Some(f.now), buffer := []);
      var grown := begun.(buffer := begun.buffer + [f.chunk]);
      if f.now - grown.start.value >= cfg.maxDuration {
        ProcessKeepsInvariant(grown, whisper);
      }
    } else if s.speaking && f.now - s.start.value >= cfg.minDuration {
      ProcessKeepsInvariant(s, whisper);
    }
  }

  // ---------------------------------------------------------------------
  // Utterances
  // ---------------------------------------------------------------------

  /** Silence frames while idle never touch the state. */
  lemma {:induction false} SilenceKeepsIdle(cfg: Config, s: State, frames: seq<Frame>, whisper: seq<Chunk> -> Transcript)
    requires Ready(s) && !s.speaking
    requires forall i :: 0 <= i < |frames| ==> !frames[i].isSpeech
    ensures Run(cfg, s, frames, whisper) == s
    decreases |frames|
  {
    if frames != [] {
      SilenceKeepsIdle(cfg, s, frames[1..], whisper);
    }
  }

  /** Speech frames before the maximum duration only grow the buffer. */
  lemma {:induction false} SpeechAccumulates(cfg: Config, s: State, frames: seq<Frame>, whisper: seq<Chunk> -> Transcript)
    requires Ready(s) && s.speaking
    requires forall i :: 0 <= i < |frames| ==> frames[i].isSpeech && frames[i].now - s.start.value < cfg.maxDuration
    ensures Run(cfg, s, frames, whisper) == s.(buffer := s.buffer + Chunks(frames))
    decreases |frames|
  {
    if frames != [] {
      var s1 := Step(cfg, s, frames[0], whisper);
      assert s1 == s.(buffer := s.buffer + [frames[0].chunk]);
      SpeechAccumulates(cfg, s1, frames[1..], whisper);
      assert Chunks(frames) == [frames[0].chunk] + Chunks(frames[1..]);
      AppendAssoc(s.buffer, [frames[0].chunk], Chunks(frames[1..]));
    }
  }

  /**
   * An utterance shorter than the maximum, ended by silence: it comes out as
   * exactly one buffer holding all its chunks in order when it lasted at least
   * the minimum, and is dropped without a trace otherwise.
   */
  lemma Utterance(cfg: Config, s: State, speech: seq<Frame>, silence: Frame, whisper: seq<Chunk> -> Transcript)
    requires Ready(s) && !s.speaking
    requires speech != []
    requires forall i :: 0 <= i < |speech| ==> speech[i].isSpeech && speech[i].now - speech[0].now < cfg.maxDuration
    requires !silence.isSpeech
    ensures var r := Run(cfg, s, speech + [silence], whisper);
      && !r.speaking && r.start == None && r.buffer == []
      && r.sent == s.sent + (if silence.now - speech[0].now >= cfg.minDuration then [Chunks(speech)] else [])
      && (silence.now - speech[0].now < cfg.minDuration ==> r.recent == s.recent && r.topics == s.topics)
      && r == if silence.now - speech[0].now >= cfg.minDuration
              then Process(s.(buffer := Chunks(speech)), whisper).(start := None)
              else s.(start := None, buffer := [])
  {
    RunAppend(cfg, s, speech, [silence], whisper);
    SpeechFromIdle(cfg, s, speech, whisper);
    var b := s.(buffer := Chunks(speech));
    RunOne(cfg, b.(speaking := true, start := Some(speech[0].now)), silence, whisper);
    SilenceAfter(cfg, b, speech[0].now, silence, whisper);
  }

  /** Speech shorter than the maximum, from idle: the utterance begins at the first frame and holds every chunk. */
  lemma SpeechFromIdle(cfg: Config, s: State, speech: seq<Frame>, whisper: seq<Chunk> -> Transcript)
    requires Ready(s) && !s.speaking
    requires speech != []
    requires forall i :: 0 <= i < |speech| ==> speech[i].isSpeech && speech[i].now - speech[0].now < cfg.maxDuration
    ensures Run(cfg, s, speech, whisper) == s.(speaking := true, start := Some(speech[0].now), buffer := Chunks(speech))
  {
    var s1 := Step(cfg, s, speech[0], whisper);
    assert s1 == s.(speaking := true, start := Some(speech[0].now), buffer := [speech[0].chunk]);
    SpeechAccumulates(cfg, s1, speech[1..], whisper);
    assert Chunks(speech) == [speech[0].chunk] + Chunks(speech[1..]);
  }

  /** Silence after an utterance that began at `t`: the utterance is sent if it lasted the minimum, else dropped. */
  lemma SilenceAfter(cfg: Config, b: State, t: int, silence: Frame, whisper: seq<Chunk> -> Transcript)
    requires Ready(b) && !b.speaking && !silence.isSpeech
    ensures Step(cfg, b.(speaking := true, start := Some(t)), silence, whisper) ==
      if silence.now - t >= cfg.minDuration then Process(b, whisper).(start := None) else b.(start := None, buffer := [])
  {
    ProcessKeepsUtterance(b, true, Some(t), whisper);
    ProcessKeepsUtterance(b, false, None, whisper);
    assert b.(speaking := false, start := None) == b.(start := None);
  }

  /** `_process_speech` neither reads nor changes whether speech is under way or when it began. */
  lemma ProcessKeepsUtterance(s: State, speaking: bool, start: Option<int>, whisper: seq<Chunk> -> Transcript)
    requires |s.recent| <= HistorySize
    ensures Process(s.(speaking := speaking, start := start), whisper) == Process(s, whisper).(speaking := speaking, start := start)
  {
  }

  lemma RunOne(cfg: Config, s: State, f: Frame, whisper: seq<Chunk> -> Transcript)
    requires Ready(s)
    ensures Run(cfg, s, [f], whisper) == Step(cfg, s, f, whisper)
  {
    assert [f][1..] == [];
  }

  /** One second minimum, ten maximum, a chunk every half second: three chunks then silence. */
  lemma ThreeChunksThenSilence(s: State, c0: Chunk, c1: Chunk, c2: Chunk, quiet: Chunk, t: int, whisper: seq<Chunk> -> Transcript)
    requires Ready(s) && !s.speaking
    ensures var frames := [Frame(c0, true, t), Frame(c1, true, t + 500), Frame(c2, true, t + 1000), Frame(quiet, false, t + 1500)];
      Run(Config(1000, 10000), s, frames, whisper).sent == s.sent + [[c0, c1, c2]]
  {
    var speech := [Frame(c0, true, t), Frame(c1, true, t + 500), Frame(c2, true, t + 1000)];
    Utterance(Config(1000, 10000), s, speech, Frame(quiet, false, t + 1500), whisper);
    assert speech + [Frame(quiet, false, t + 1500)] ==
      [Frame(c0, true, t), Frame(c1, true, t + 500), Frame(c2, true, t + 1000), Frame(quiet, false, t + 1500)];
    assert Chunks(speech) == [c0, c1, c2];
  }

  /** The length threshold is inclusive: lasting exactly the minimum is enough. */
  lemma MinimumIsInclusive(cfg: Config, s: State, silence: Frame, whisper: seq<Chunk> -> Transcript)
    requires Ready(s) && s.speaking && s.buffer != [] && !silence.isSpeech
    ensures silence.now - s.start.value == cfg.minDuration ==>
      Step(cfg, s, silence, whisper).sent == s.sent + [s.buffer]
    ensures silence.now - s.start.value == cfg.minDuration - 1 ==>
      Step(cfg, s, silence, whisper).sent == s.sent
  {
  }

  /**
   * The speech start time is not reset by a forced cut: once an utterance
   * has lasted the maximum, every further speech frame is sent on its own.
   */
  lemma {:induction false} AfterCutoff(cfg: Config, s: State, frames: seq<Frame>, whisper: seq<Chunk> -> Transcript)
    requires Ready(s) && s.speaking && s.buffer == []
    requires forall i :: 0 <= i < |frames| ==> frames[i].isSpeech && frames[i].now - s.start.value >= cfg.maxDuration
    ensures var r := Run(cfg, s, frames, whisper);
      && r.speaking && r.start == s.start && r.buffer == []
      && r.sent == s.sent + seq(|frames|, i requires 0 <= i < |frames| => [frames[i].chunk])
    decreases |frames|
  {
    if frames != [] {
      var f := frames[0];
      assert f.isSpeech && f.now - s.start.value >= cfg.maxDuration;
      var s1 := Step(cfg, s, f, whisper);
      assert s1.start == s.start;
      assert s.buffer + [f.chunk] == [f.chunk];
      assert s1.sent == s.sent + [[f.chunk]];
      AfterCutoff(cfg, s1, frames[1..], whisper);
      var rest := seq(|frames| - 1, i requires 0 <= i < |frames| - 1 => [frames[1..][i].chunk]);
      assert seq(|frames|, i requires 0 <= i < |frames| => [frames[i].chunk]) == [[frames[0].chunk]] + rest;
      AppendAssoc(s.sent, [[frames[0].chunk]], rest);
    }
  }

  // ---------------------------------------------------------------------
  // De-duplication
  // ---------------------------------------------------------------------

  /** Once a text was seen, the same text in any letter case is rejected. */
  lemma RepeatIsRejected(s: State, text: string, again: string)
    requires |s.recent| <= HistorySize
    requires Lower(again) == Lower(text)
    ensures Accept(Accept(s, text), again) == Accept(s, text)
  {
    var s1 := Accept(s, text);
    if |text| > MinTextLength && !IsRecent(text, s.recent) {
      var h := s1.recent;
      assert h[|h| - 1] == text;
      assert LowerAll(h)[|h| - 1] == Lower(again);
    } else {
      assert s1 == s;
    }
  }

  /** After ten other texts have been inserted into the window, a text is let through again. */
  lemma AcceptedAgainAfterWindow(s: State, text: string, others: seq<string>)
    requires |s.recent| <= HistorySize && |others| == HistorySize
    requires forall i :: 0 <= i < |others| ==> Lower(others[i]) != Lower(text)
    requires |text| > MinTextLength && IsStripped(text)
    ensures var s' := s.(recent := RememberAll(s.recent, others));
      Accept(s', text).topics == s.topics + [text]
  {
    WindowForgets(s.recent, others);
    IsRecentIff(text, others);
    AcceptQueuesText(s.(recent := others), text);
  }

  /** A transcription of a single filler word never reaches the queue. */
  lemma ShortFillerIgnored(s: State, whisper: seq<Chunk> -> Transcript)
    requires |s.recent| <= HistorySize && s.buffer != []
    requires whisper(s.buffer) == Segments(["okay"])
    ensures Process(s, whisper).topics == s.topics && Process(s, whisper).recent == s.recent
  {
    assert Join(" ", ["okay"]) == "okay";
    assert IsStripped("okay");
  }

  /**
   * The same sentence transcribed twice, the second time in other letter
   * case: one topic is queued, so taking twice gives it and then nothing.
   */
  lemma SentenceHeardTwice(s: State, t: string, u: string, b1: seq<Chunk>, b2: seq<Chunk>, whisper: seq<Chunk> -> Transcript)
    requires Invariant(s) && s.topics == []
    requires |t| > MinTextLength && IsStripped(t) && IsStripped(u) && !IsRecent(t, s.recent) && Lower(u) == Lower(t)
    requires b1 != [] && b2 != [] && whisper(b1) == Segments([t]) && whisper(b2) == Segments([u])
    ensures var s1 := Process(s.(buffer := b1), whisper);
      var s2 := Process(s1.(buffer := b2), whisper);
      TakeTopic(s2).0 == Some(t) && TakeTopic(TakeTopic(s2).1).0 == None
  {
    assert Join(" ", [t]) == t && Join(" ", [u]) == u;
    var c1 := s.(buffer := [], sent := s.sent + [b1]);
    AcceptQueuesText(c1, t);
    var s1 := Process(s.(buffer := b1), whisper);
    assert s1 == c1.(recent := Remember(s.recent, t), topics := [t]);
    RememberedIsRecent(s.recent, t, u);
    var c2 := s1.(buffer := [], sent := s1.sent + [b2]);
    assert Process(s1.(buffer := b2), whisper) == c2;
  }

  lemma RememberedIsRecent(h: seq<string>, t: string, u: string)
    requires |h| <= HistorySize && Lower(u) == Lower(t)
    ensures IsRecent(u, Remember(h, t))
  {
    var r := Remember(h, t);
    assert r[|r| - 1] == t;
    assert LowerAll(r)[|r| - 1] == Lower(u);
  }

  // ---------------------------------------------------------------------
  // The listener object
  // ---------------------------------------------------------------------

  class AmbientListener {
    const config: Config
    var running: bool
    ghost var launches: nat
    var isSpeaking: bool
    var speechStartTime: Option<int>
    var audioBuffer: seq<Chunk>
    var recentTranscriptions: seq<string>
    var topicQueue: seq<string>
    ghost var sent: seq<seq<Chunk>>

    ghost function Snapshot(): State
      reads this
    {
      State(running, launches, isSpeaking, speechStartTime, audioBuffer, recentTranscriptions, topicQueue, sent)
    }

    ghost predicate Valid()
      reads this
    {
      Invariant(Snapshot())
    }

    constructor(speechMinDuration: int, speechMaxDuration: int)
      ensures Valid() && Snapshot() == Initial()
      ensures config == Config(speechMinDuration, speechMaxDuration)
    {
      config := Config(speechMinDuration, speechMaxDuration);
      running := false;
      launches := 0;
      isSpeaking := false;
      speechStartTime := None;
      audioBuffer := [];
      recentTranscriptions := [];
      topicQueue := [];
      sent := [];
    }

    method Start()
      requires Valid()
      modifies this
      ensures Valid() && Snapshot() == Started(old(Snapshot()))
    {
      if running {
        return;
      }
      running := true;
      launches := launches + 1;
    }

    method Stop()
      requires Valid()
      modifies this
      ensures Valid() && Snapshot() == Stopped(old(Snapshot()))
    {
      running := false;
    }

    method GetTopic() returns (topic: Option<string>)
      requires Valid()
      modifies this
      ensures Valid() && (topic, Snapshot()) == TakeTopic(old(Snapshot()))
    {
      if topicQueue == [] {
        return None;
      }
      topic := Some(topicQueue[0]);
      topicQueue := topicQueue[1..];
    }

    /** Compares the stripped, lower-cased text with each filler phrase in turn. */
    method ExtractTopicOf(text: string) returns (topic: Option<string>)
      ensures topic == ExtractTopic(text)
    {
      var t := Strip(text);
      var lower := Lower(t);
      for k := 0 to |Fillers|
        invariant forall j :: 0 <= j < k ==> lower != Fillers[j]
      {
        if lower == Fillers[k] {
          return None;
        }
      }
      return Some(t);
    }

    /** The part of finalisation that acts on a transcription's text. */
    method HandleText(text: string)
      requires Valid() && IsStripped(text)
      modifies this
      ensures Valid() && Snapshot() == Accept(old(Snapshot()), text)
    {
      AcceptKeepsInvariant(Snapshot(), text);
      if |text| > MinTextLength && !IsRecent(text, recentTranscriptions) {
        recentTranscriptions := Remember(recentTranscriptions, text);
        var topic := ExtractTopicOf(text);
        if topic.Some? && topic.value != "" {
          topicQueue := topicQueue + [topic.value];
        }
      }
    }

    method ProcessSpeech(whisper: seq<Chunk> -> Transcript)
      requires Valid()
      modifies this
      ensures Valid() && Snapshot() == Process(old(Snapshot()), whisper)
    {
      if audioBuffer == [] {
        return;
      }
      var audio := audioBuffer;
      audioBuffer := [];
      sent := sent + [audio];
      match whisper(audio) {
        case Failed =>
        case Segments(texts) =>
          HandleText(TranscriptText(texts));
      }
    }

    method AudioCallback(chunk: Chunk, isSpeech: bool, now: int, whisper: seq<Chunk> -> Transcript)
      requires Valid()
      modifies this
      ensures Valid() && Snapshot() == Step(config, old(Snapshot()), Frame(chunk, isSpeech, now), whisper)
    {
      StepKeepsInvariant(config, Snapshot(), Frame(chunk, isSpeech, now), whisper);
      if isSpeech {
        if !isSpeaking {
          isSpeaking := true;
          speechStartTime := Some(now);
          audioBuffer := [];
        }
        audioBuffer := audioBuffer + [chunk];
        var duration := now - speechStartTime.value;
        if duration >= config.maxDuration {
          ProcessSpeech(whisper);
        }
      } else if isSpeaking {
        var duration := now - speechStartTime.value;
        if duration >= config.minDuration {
          ProcessSpeech(whisper);
        } else {
          audioBuffer := [];
        }
        isSpeaking := false;
        speechStartTime := None;
      }
    }
  }
}
