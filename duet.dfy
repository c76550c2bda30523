/**
 * The conversation schedule of the duet program's main loop: each
 * exchange B answers A and A answers B; then, on their intervals, the
 * judge and the user persona comment; the ambient listener's newest
 * topic becomes the pending topic, and on the listening interval the
 * room persona whispers it to both agents. The chat services are a
 * function from the speaking voice and its conversation to a reply, and
 * the listener is a function from the exchange number to the topic it
 * hands out then.
 */
module DuetLoop {
  import opened Wrappers
  import opened Cleaning

  datatype Role = System | User | Assistant

  /** One chat message. */
  datatype Msg = Msg(role: Role, content: string)

  datatype Voice = AgentA | AgentB | JudgeVoice | UserVoice | RoomVoice

  /** One log section: the speaker's name and the text written under it. */
  datatype Entry = Entry(speaker: string, text: string)

  /**
   * What the command line and the personas fix: the agents' names, the
   * optional judge, user and room personas (by name), their intervals
   * and the turn limit (0 for none).
   */
  datatype Settings = Settings(
    nameA: string, nameB: string,
    judge: Option<string>, judgeInterval: int,
    user: Option<string>, userInterval: int,
    room: Option<string>, listenInterval: int,
    maxTurns: int)

  /** The loop's state: the exchange counter, the pending topic, the last raw replies, the conversations and the log. */
  datatype Talk = Talk(
    turn: nat, pending: Option<string>,
    aReply: string, bReply: string,
    convA: seq<Msg>, convB: seq<Msg>, convJ: seq<Msg>, convU: seq<Msg>, convR: seq<Msg>,
    log: seq<Entry>, stopped: bool)

  /** Whether something on an interval fires on exchange `t`. */
  predicate Fires(present: bool, interval: int, t: int) {
    present && interval > 0 && t % interval == 0
  }

  const Nudge := "\n\n(Keep your reply short. One thought only.)"
  const Acknowledged := "(acknowledged)"

  const OpenAsk := "The human has just given the topic above. Start the conversation by making the first move and inviting "
  const ToRespond := " to respond."
  const JustSaid := " just said:\n"
  const JudgeAsk := "As the judge, briefly evaluate the last exchange. Highlight any strong points, weak points, misconceptions, "
    + "and suggest how the dialogue could go deeper or clearer next."
  const UserAsk := "As the user persona, step into the conversation with a short comment or question "
    + "that pushes both agents toward more insight, rigor, or practicality. "
    + "You are allowed to disagree, redirect, or connect to a bigger picture."
  const Overheard := "You overheard someone nearby say: \""
  const TurnInto := "\"\n\nTurn this into a brief whisper (max 15 words) that might gently steer "
  const TowardTopic := "'s conversation toward this topic."

  const WhisperOpen := "(A whisper fills the room: "

  /** `x` occurs in `p` starting at position `i`. */
  predicate At(p: string, i: int, x: string) {
    0 <= i && i + |x| <= |p| && p[i..i + |x|] == x
  }

  lemma AtJoin(x: string, y: string)
    ensures At(x + y, 0, x) && At(x + y, |x|, y)
  {
    assert (x + y)[..|x|] == x;
    assert (x + y)[|x|..|x| + |y|] == y;
  }

  lemma AtLeft(x: string, y: string, i: int, z: string)
    requires At(x, i, z)
    ensures At(x + y, i, z)
  {
    assert (x + y)[i..i + |z|] == x[i..i + |z|];
  }

  lemma AtRight(x: string, y: string, i: int, z: string)
    requires At(y, i, z)
    ensures At(x + y, |x| + i, z)
  {
    assert (x + y)[|x| + i..|x| + i + |z|] == y[i..i + |z|];
  }

  /** A's opening request: B's name between the fixed request and `to respond.`. */
  function FirstMove(nameB: string): (p: string)
    ensures |p| == |OpenAsk| + |nameB| + |ToRespond|
    ensures At(p, 0, OpenAsk) && At(p, |OpenAsk|, nameB) && At(p, |p| - |ToRespond|, ToRespond)
  {
    AtJoin(OpenAsk, nameB);
    AtLeft(OpenAsk + nameB, ToRespond, 0, OpenAsk);
    AtLeft(OpenAsk + nameB, ToRespond, |OpenAsk|, nameB);
    AtJoin(OpenAsk + nameB, ToRespond);
    OpenAsk + nameB + ToRespond
  }

  /** One speaker's part of a recap: `<name> just said:`, a line break, the reply and a blank line. */
  function Section(name: string, reply: string): (p: string)
    ensures |p| == |name| + |JustSaid| + |reply| + 2
    ensures At(p, 0, name + JustSaid) && At(p, |name| + |JustSaid|, reply)
  {
    AtJoin(name + JustSaid, reply);
    AtLeft(name + JustSaid + reply, "\n\n", 0, name + JustSaid);
    AtLeft(name + JustSaid + reply, "\n\n", |name| + |JustSaid|, reply);
    name + JustSaid + reply + "\n\n"
  }

  /**
   * What the judge and the user persona are shown: A's name and reply,
   * then B's name and reply, each after a blank line, then their own request.
   */
  function Recap(nameA: string, a: string, nameB: string, b: string, ask: string): (r: string)
    ensures var i := |nameA| + |JustSaid| + |a| + 2;
      && |r| == i + |nameB| + |JustSaid| + |b| + 2 + |ask|
      && At(r, 0, nameA + JustSaid) && At(r, |nameA| + |JustSaid|, a)
      && At(r, i, nameB + JustSaid) && At(r, i + |nameB| + |JustSaid|, b)
      && At(r, |r| - |ask|, ask)
  {
    var first, second := Section(nameA, a), Section(nameB, b);
    AtLeft(first, second, 0, nameA + JustSaid);
    AtLeft(first, second, |nameA| + |JustSaid|, a);
    AtRight(first, second, 0, nameB + JustSaid);
    AtRight(first, second, |nameB| + |JustSaid|, b);
    var both := first + second;
    AtLeft(both, ask, 0, nameA + JustSaid);
    AtLeft(both, ask, |nameA| + |JustSaid|, a);
    AtLeft(both, ask, |first|, nameB + JustSaid);
    AtLeft(both, ask, |first| + |nameB| + |JustSaid|, b);
    AtJoin(both, ask);
    both + ask
  }

  function JudgePrompt(nameA: string, a: string, nameB: string, b: string): string {
    Recap(nameA, a, nameB, b, JudgeAsk)
  }

  function UserPrompt(nameA: string, a: string, nameB: string, b: string): string {
    Recap(nameA, a, nameB, b, UserAsk)
  }

  /** The start of the room's request: the overheard topic in quotes, then the request to turn it into a whisper. */
  function Quoted(topic: string): (q: string)
    ensures |q| == |Overheard| + |topic| + |TurnInto|
    ensures At(q, 0, Overheard) && At(q, |Overheard|, topic)
  {
    AtJoin(Overheard, topic);
    AtLeft(Overheard + topic, TurnInto, 0, Overheard);
    AtLeft(Overheard + topic, TurnInto, |Overheard|, topic);
    Overheard + topic + TurnInto
  }

  /** The room's request: the overheard topic, quoted, then both agents' names. */
  function RoomPrompt(topic: string, nameA: string, nameB: string): (r: string)
    ensures var i := |Overheard| + |topic| + |TurnInto|;
      && |r| == i + |nameA + " and " + nameB| + |TowardTopic|
      && At(r, 0, Overheard) && At(r, |Overheard|, topic)
      && At(r, i, nameA + " and " + nameB) && At(r, |r| - |TowardTopic|, TowardTopic)
  {
    var head, names := Quoted(topic), nameA + " and " + nameB;
    AtJoin(head, names);
    AtLeft(head, names, 0, Overheard);
    AtLeft(head, names, |Overheard|, topic);
    var both := head + names;
    AtLeft(both, TowardTopic, 0, Overheard);
    AtLeft(both, TowardTopic, |Overheard|, topic);
    AtLeft(both, TowardTopic, |head|, names);
    AtJoin(both, TowardTopic);
    both + TowardTopic
  }

  /** What both agents are told: the whisper, in parentheses after the room's notice. */
  function WhisperMsg(whisper: string): (m: string)
    ensures |m| == |WhisperOpen| + |whisper| + 1 && m[|m| - 1] == ')'
    ensures At(m, 0, WhisperOpen) && At(m, |WhisperOpen|, whisper)
  {
    AtJoin(WhisperOpen, whisper);
    AtLeft(WhisperOpen + whisper, ")", 0, WhisperOpen);
    AtLeft(WhisperOpen + whisper, ")", |WhisperOpen|, whisper);
    WhisperOpen + whisper + ")"
  }

  /** `append_log` cleans what it is given, before writing it. */
  function Logged(speaker: string, text: string): Entry {
    Entry(speaker, CleanResponse(text))
  }

  /** The colour of each speaker's console label. */
  function VoiceColor(v: Voice): string {
    match v
    case AgentA => Blue
    case AgentB => Magenta
    case JudgeVoice => Green
    case UserVoice => Cyan
    case RoomVoice => Yellow
  }

  /** No two speakers share a label colour. */
  lemma VoiceColorsDistinct(v: Voice, w: Voice)
    requires v != w
    ensures VoiceColor(v) != VoiceColor(w)
  {
    assert VoiceColor(v)[3] != VoiceColor(w)[3];
  }

  /** The console label printed before a reply: `[short name]:`, coloured by speaker when colour is on. */
  function ConsoleLabel(shortName: string, v: Voice, useColor: bool): (tag: string)
    ensures var plain := "[" + shortName + "]:";
      && (!useColor ==> tag == plain)
      && (useColor ==> |tag| == |VoiceColor(v)| + |plain| + |Reset|
                       && tag[..|VoiceColor(v)|] == VoiceColor(v)
                       && tag[|VoiceColor(v)|..|VoiceColor(v)| + |plain|] == plain
                       && tag[|tag| - |Reset|..] == Reset)
  {
    CWrap("[" + shortName + "]:", VoiceColor(v), useColor)
  }

  /** The system prompts of the five conversations. */
  datatype Prompts = Prompts(a: string, b: string, judge: string, user: string, room: string)

  /** The first move: A is asked to open, and its cleaned reply is logged. */
  function Opening(cfg: Settings, chat: (Voice, seq<Msg>) -> string, sys: Prompts): (s: Talk)
    ensures s.turn == 0 && s.pending == None && !s.stopped
    ensures s.convA == [Msg(System, sys.a), Msg(User, FirstMove(cfg.nameB))] && s.convB == [Msg(System, sys.b)]
    ensures s.convJ == [Msg(System, sys.judge)] && s.convU == [Msg(System, sys.user)] && s.convR == [Msg(System, sys.room)]
    ensures s.aReply == chat(AgentA, s.convA) && s.bReply == ""
    ensures s.log == [Logged(cfg.nameA, CleanResponse(s.aReply))]
  {
    var convA := [Msg(System, sys.a), Msg(User, FirstMove(cfg.nameB))];
    var a := chat(AgentA, convA);
    Talk(0, None, a, "", convA, [Msg(System, sys.b)], [Msg(System, sys.judge)], [Msg(System, sys.user)],
         [Msg(System, sys.room)], [Logged(cfg.nameA, CleanResponse(a))], false)
  }

  // ---------------------------------------------------------------- one exchange, step by step

  /** The counter goes up; B answers A's raw reply, then A answers B's raw reply, each with the nudge. */
  function Speak(cfg: Settings, chat: (Voice, seq<Msg>) -> string, s: Talk): (n: Talk)
    ensures n.turn == s.turn + 1 && n.pending == s.pending && n.stopped == s.stopped
    ensures n.convB == s.convB + [Msg(User, s.aReply + Nudge)]
    ensures n.convA == s.convA + [Msg(User, n.bReply + Nudge)]
    ensures n.bReply == chat(AgentB, n.convB) && n.aReply == chat(AgentA, n.convA)
    ensures n.convJ == s.convJ && n.convU == s.convU && n.convR == s.convR
    ensures n.log == s.log + [Logged(cfg.nameB, CleanResponse(n.bReply)), Logged(cfg.nameA, CleanResponse(n.aReply))]
  {
    var convB := s.convB + [Msg(User, s.aReply + Nudge)];
    var b := chat(AgentB, convB);
    var convA := s.convA + [Msg(User, b + Nudge)];
    var a := chat(AgentA, convA);
    s.(turn := s.turn + 1, aReply := a, bReply := b, convA := convA, convB := convB,
       log := s.log + [Logged(cfg.nameB, CleanResponse(b)), Logged(cfg.nameA, CleanResponse(a))])
  }

  /** The judge comments on the cleaned replies when its interval divides the exchange number. */
  function JudgeStep(cfg: Settings, chat: (Voice, seq<Msg>) -> string, s: Talk): (n: Talk)
    ensures var f := Fires(cfg.judge.Some?, cfg.judgeInterval, s.turn);
      && n.(convJ := s.convJ, log := s.log) == s
      && n.convJ == s.convJ + (if f then [Msg(User, JudgePrompt(cfg.nameA, CleanResponse(s.aReply), cfg.nameB, CleanResponse(s.bReply)))] else [])
      && |n.log| == |s.log| + (if f then 1 else 0) && n.log[..|s.log|] == s.log
      && (f ==> n.log[|s.log|] == Logged(cfg.judge.value, chat(JudgeVoice, n.convJ)))
  {
    if Fires(cfg.judge.Some?, cfg.judgeInterval, s.turn) then
      var convJ := s.convJ + [Msg(User, JudgePrompt(cfg.nameA, CleanResponse(s.aReply), cfg.nameB, CleanResponse(s.bReply)))];
      s.(convJ := convJ, log := s.log + [Logged(cfg.judge.value, chat(JudgeVoice, convJ))])
    else s
  }

  /** The user persona does the same on its own interval. */
  function UserStep(cfg: Settings, chat: (Voice, seq<Msg>) -> string, s: Talk): (n: Talk)
    ensures var f := Fires(cfg.user.Some?, cfg.userInterval, s.turn);
      && n.(convU := s.convU, log := s.log) == s
      && n.convU == s.convU + (if f then [Msg(User, UserPrompt(cfg.nameA, CleanResponse(s.aReply), cfg.nameB, CleanResponse(s.bReply)))] else [])
      && |n.log| == |s.log| + (if f then 1 else 0) && n.log[..|s.log|] == s.log
      && (f ==> n.log[|s.log|] == Logged(cfg.user.value, chat(UserVoice, n.convU)))
  {
    if Fires(cfg.user.Some?, cfg.userInterval, s.turn) then
      var convU := s.convU + [Msg(User, UserPrompt(cfg.nameA, CleanResponse(s.aReply), cfg.nameB, CleanResponse(s.bReply)))];
      s.(convU := convU, log := s.log + [Logged(cfg.user.value, chat(UserVoice, convU))])
    else s
  }

  /** A topic present and not empty. */
  predicate HasText(t: Option<string>) { t.Some? && t.value != "" }

  /** With listening on, a non-empty topic from the listener replaces the pending one. */
  function ListenStep(cfg: Settings, heard: nat -> Option<string>, s: Talk): (n: Talk)
    ensures n.(pending := s.pending) == s
    ensures n.pending == if cfg.room.Some? && HasText(heard(s.turn)) then heard(s.turn) else s.pending
  {
    if cfg.room.Some? && HasText(heard(s.turn)) then s.(pending := heard(s.turn)) else s
  }

  /** Whether the room whispers in state `s`. */
  predicate Whispers(cfg: Settings, s: Talk) {
    cfg.room.Some? && HasText(s.pending) && Fires(true, cfg.listenInterval, s.turn)
  }

  /** The room turns the pending topic into a whisper that both agents are told; the topic is then cleared. */
  function WhisperStep(cfg: Settings, chat: (Voice, seq<Msg>) -> string, s: Talk): (n: Talk)
    ensures var w := Whispers(cfg, s);
      && n.turn == s.turn && n.convJ == s.convJ && n.convU == s.convU && n.stopped == s.stopped
      && n.aReply == s.aReply && n.bReply == s.bReply
      && n.pending == (if w then None else s.pending)
      && |n.convR| == |s.convR| + (if w then 1 else 0) && n.convR[..|s.convR|] == s.convR
      && (w ==> n.convR[|s.convR|] == Msg(User, RoomPrompt(s.pending.value, cfg.nameA, cfg.nameB)))
      && |n.convA| == |s.convA| + (if w then 2 else 0) && n.convA[..|s.convA|] == s.convA
      && |n.convB| == |s.convB| + (if w then 2 else 0) && n.convB[..|s.convB|] == s.convB
      && (w ==> n.convA[|s.convA|..] == n.convB[|s.convB|..] && n.convA[|n.convA| - 1] == Msg(Assistant, Acknowledged))
      && |n.log| == |s.log| + (if w then 1 else 0) && n.log[..|s.log|] == s.log
      && (w ==> var r := CleanResponse(chat(RoomVoice, n.convR));
                n.convA[|s.convA|] == Msg(User, WhisperMsg(r)) && n.log[|s.log|] == Logged(cfg.room.value, r))
  {
    if Whispers(cfg, s) then
      var convR := s.convR + [Msg(User, RoomPrompt(s.pending.value, cfg.nameA, cfg.nameB))];
      var whisper := CleanResponse(chat(RoomVoice, convR));
      var told := [Msg(User, WhisperMsg(whisper)), Msg(Assistant, Acknowledged)];
      s.(convR := convR, convA := s.convA + told, convB := s.convB + told,
         log := s.log + [Logged(cfg.room.value, whisper)], pending := None)
    else s
  }

  /** With a turn limit, the loop ends once the counter reaches it. */
  function StopStep(cfg: Settings, s: Talk): (n: Talk)
    ensures n.(stopped := s.stopped) == s
    ensures n.stopped <==> cfg.maxTurns > 0 && s.turn >= cfg.maxTurns
  {
    s.(stopped := cfg.maxTurns > 0 && s.turn >= cfg.maxTurns)
  }

  /** One pass of the loop body. */
  function Exchange(cfg: Settings, chat: (Voice, seq<Msg>) -> string, heard: nat -> Option<string>, s: Talk): (n: Talk)
    ensures n.turn == s.turn + 1
  {
    StopStep(cfg, WhisperStep(cfg, chat, ListenStep(cfg, heard, UserStep(cfg, chat, JudgeStep(cfg, chat, Speak(cfg, chat, s))))))
  }

  /** A limit the loop has not yet reached. */
  predicate Running(cfg: Settings, s: Talk) {
    cfg.maxTurns <= 0 || s.turn < cfg.maxTurns
  }

  /**
   * The loop from `s` until the turn limit stops it or, after `budget`
   * exchanges in all, an interrupt does. From a state below the limit it
   * runs up to the limit, when there is one, and no further than the
   * budget allows.
   */
  function Loop(cfg: Settings, chat: (Voice, seq<Msg>) -> string, heard: nat -> Option<string>, s: Talk, budget: nat): (f: Talk)
    ensures Running(cfg, s) ==>
      f.turn == if s.turn >= budget then s.turn else if cfg.maxTurns > 0 && cfg.maxTurns < budget then cfg.maxTurns else budget
    decreases budget - s.turn
  {
    if s.turn >= budget then s
    else
      var n := Exchange(cfg, chat, heard, s);
      if n.stopped then n else Loop(cfg, chat, heard, n, budget)
  }

  // ---------------------------------------------------------------- the loop as written

  /** The body of the main loop: the statements of each part, in order. */
  method ExchangeOnce(cfg: Settings, chat: (Voice, seq<Msg>) -> string, heard: nat -> Option<string>, s: Talk)
    returns (n: Talk)
    ensures n == Exchange(cfg, chat, heard, s)
  {
    n := s;
    n := SpeakOnce(cfg, chat, n);
    n := JudgeOnce(cfg, chat, n);
    n := UserOnce(cfg, chat, n);
    n := ListenOnce(cfg, heard, n);
    n := WhisperOnce(cfg, chat, n);
    n := n.(stopped := cfg.maxTurns > 0 && n.turn >= cfg.maxTurns);
  }

  /** The loop-body form of `Speak`: B answers A's raw reply, A answers B's; both cleaned replies are logged. */
  method SpeakOnce(cfg: Settings, chat: (Voice, seq<Msg>) -> string, s: Talk) returns (n: Talk)
    ensures n == Speak(cfg, chat, s)
  {
    var turn := s.turn + 1;
    var convB := s.convB + [Msg(User, s.aReply + Nudge)];
    var bReply := chat(AgentB, convB);
    var bClean := CleanResponse(bReply);
    var log := s.log + [Logged(cfg.nameB, bClean)];
    var convA := s.convA + [Msg(User, bReply + Nudge)];
    var aReply := chat(AgentA, convA);
    var aClean := CleanResponse(aReply);
    log := log + [Logged(cfg.nameA, aClean)];
    n := s.(turn := turn, aReply := aReply, bReply := bReply, convA := convA, convB := convB, log := log);
  }

  /** The loop-body form of `JudgeStep`: the judge's interjection, when it is due. */
  method JudgeOnce(cfg: Settings, chat: (Voice, seq<Msg>) -> string, s: Talk) returns (n: Talk)
    ensures n == JudgeStep(cfg, chat, s)
  {
    n := s;
    if cfg.judge.Some? && cfg.judgeInterval > 0 && s.turn % cfg.judgeInterval == 0 {
      var convJ := s.convJ + [Msg(User, JudgePrompt(cfg.nameA, CleanResponse(s.aReply), cfg.nameB, CleanResponse(s.bReply)))];
      var jReply := chat(JudgeVoice, convJ);
      n := n.(convJ := convJ, log := s.log + [Logged(cfg.judge.value, jReply)]);
    }
  }

  /** The loop-body form of `UserStep`: the user persona's interjection, when it is due. */
  method UserOnce(cfg: Settings, chat: (Voice, seq<Msg>) -> string, s: Talk) returns (n: Talk)
    ensures n == UserStep(cfg, chat, s)
  {
    n := s;
    if cfg.user.Some? && cfg.userInterval > 0 && s.turn % cfg.userInterval == 0 {
      var convU := s.convU + [Msg(User, UserPrompt(cfg.nameA, CleanResponse(s.aReply), cfg.nameB, CleanResponse(s.bReply)))];
      var uReply := chat(UserVoice, convU);
      n := n.(convU := convU, log := s.log + [Logged(cfg.user.value, uReply)]);
    }
  }

  /** The loop-body form of `ListenStep`: taking the listener's newest topic, if any. */
  method ListenOnce(cfg: Settings, heard: nat -> Option<string>, s: Talk) returns (n: Talk)
    ensures n == ListenStep(cfg, heard, s)
  {
    n := s;
    if cfg.room.Some? {
      var newTopic := heard(s.turn);
      if newTopic.Some? && newTopic.value != "" {
        n := n.(pending := newTopic);
      }
    }
  }

  /** The loop-body form of `WhisperStep`: the room's whisper, when a topic is pending on a listening exchange. */
  method WhisperOnce(cfg: Settings, chat: (Voice, seq<Msg>) -> string, s: Talk) returns (n: Talk)
    ensures n == WhisperStep(cfg, chat, s)
  {
    n := s;
    if Whispers(cfg, s) {
      var convR := s.convR + [Msg(User, RoomPrompt(s.pending.value, cfg.nameA, cfg.nameB))];
      var rClean := CleanResponse(chat(RoomVoice, convR));
      var told := [Msg(User, WhisperMsg(rClean)), Msg(Assistant, Acknowledged)];
      n := n.(convR := convR, convA := s.convA + told, convB := s.convB + told,
              log := s.log + [Logged(cfg.room.value, rClean)], pending := None);
    }
  }

  /** `main`'s conversation: the opening move, then exchanges until the limit or the interrupt. */
  method Converse(cfg: Settings, chat: (Voice, seq<Msg>) -> string, heard: nat -> Option<string>, sys: Prompts, budget: nat)
    returns (s: Talk)
    ensures s == Loop(cfg, chat, heard, Opening(cfg, chat, sys), budget)
  {
    s := Opening(cfg, chat, sys);
    while s.turn < budget
      invariant Loop(cfg, chat, heard, s, budget) == Loop(cfg, chat, heard, Opening(cfg, chat, sys), budget)
      decreases budget - s.turn
    {
      s := ExchangeOnce(cfg, chat, heard, s);
      if s.stopped {
        return;
      }
    }
  }

  // ---------------------------------------------------------------- what one exchange does

  /** The stages of one exchange, named. */
  datatype Stages = Stages(spoken: Talk, judged: Talk, asked: Talk, listened: Talk, whispered: Talk)

  function StagesOf(cfg: Settings, chat: (Voice, seq<Msg>) -> string, heard: nat -> Option<string>, s: Talk): (st: Stages)
    ensures Exchange(cfg, chat, heard, s) == StopStep(cfg, st.whispered)
  {
    var sp := Speak(cfg, chat, s);
    var j := JudgeStep(cfg, chat, sp);
    var u := UserStep(cfg, chat, j);
    var l := ListenStep(cfg, heard, u);
    Stages(sp, j, u, l, WhisperStep(cfg, chat, l))
  }

  /** B hears A's raw reply with the nudge, and A hears B's; a whisper adds the same two messages to each. */
  lemma ExchangeMessages(cfg: Settings, chat: (Voice, seq<Msg>) -> string, heard: nat -> Option<string>, s: Talk)
    ensures var n := Exchange(cfg, chat, heard, s);
      var w := Whispers(cfg, ListenStep(cfg, heard, s.(turn := s.turn + 1)));
      && n.convB[..|s.convB| + 1] == s.convB + [Msg(User, s.aReply + Nudge)]
      && n.convA[..|s.convA| + 1] == s.convA + [Msg(User, n.bReply + Nudge)]
      && |n.convA| == |s.convA| + (if w then 3 else 1)
      && |n.convB| == |s.convB| + (if w then 3 else 1)
      && (w ==> n.convA[|s.convA| + 1..] == n.convB[|s.convB| + 1..] && n.convA[|n.convA| - 1] == Msg(Assistant, Acknowledged))
  {
    var st := StagesOf(cfg, chat, heard, s);
    var n := Exchange(cfg, chat, heard, s);
    assert n.convA[..|s.convA| + 1] == st.spoken.convA;
    assert n.convB[..|s.convB| + 1] == st.spoken.convB;
  }

  /** The judge and the user persona are asked exactly on their exchanges, once each. */
  lemma ExchangeInterjections(cfg: Settings, chat: (Voice, seq<Msg>) -> string, heard: nat -> Option<string>, s: Talk)
    ensures var n := Exchange(cfg, chat, heard, s);
      && |n.convJ| == |s.convJ| + (if Fires(cfg.judge.Some?, cfg.judgeInterval, s.turn + 1) then 1 else 0)
      && |n.convU| == |s.convU| + (if Fires(cfg.user.Some?, cfg.userInterval, s.turn + 1) then 1 else 0)
      && n.convJ[..|s.convJ|] == s.convJ && n.convU[..|s.convU|] == s.convU
  {
    var st := StagesOf(cfg, chat, heard, s);
  }

  /**
   * A non-empty topic from the listener becomes the pending topic; a
   * whisper happens exactly when a topic is pending on a listening
   * exchange, and it clears the topic; otherwise the topic waits.
   */
  lemma ExchangePending(cfg: Settings, chat: (Voice, seq<Msg>) -> string, heard: nat -> Option<string>, s: Talk)
    ensures var t := s.turn + 1;
      var p := if cfg.room.Some? && HasText(heard(t)) then heard(t) else s.pending;
      var w := cfg.room.Some? && HasText(p) && Fires(true, cfg.listenInterval, t);
      var n := Exchange(cfg, chat, heard, s);
      && n.pending == (if w then None else p)
      && |n.convR| == |s.convR| + (if w then 1 else 0)
      && (w ==> n.convR[|s.convR|] == Msg(User, RoomPrompt(p.value, cfg.nameA, cfg.nameB)))
  {
    var st := StagesOf(cfg, chat, heard, s);
  }

  /** The loop stops after exchange `t` exactly when there is a positive limit and `t` has reached it. */
  lemma ExchangeStops(cfg: Settings, chat: (Voice, seq<Msg>) -> string, heard: nat -> Option<string>, s: Talk)
    ensures Exchange(cfg, chat, heard, s).stopped <==> cfg.maxTurns > 0 && s.turn + 1 >= cfg.maxTurns
  {
  }

  /** The log gains B's and A's entries first, then the judge's, the user persona's and the room's when they speak. */
  lemma ExchangeLog(cfg: Settings, chat: (Voice, seq<Msg>) -> string, heard: nat -> Option<string>, s: Talk)
    ensures var n := Exchange(cfg, chat, heard, s);
      var t := s.turn + 1;
      var extra := (if Fires(cfg.judge.Some?, cfg.judgeInterval, t) then 1 else 0)
                 + (if Fires(cfg.user.Some?, cfg.userInterval, t) then 1 else 0)
                 + (if Whispers(cfg, ListenStep(cfg, heard, s.(turn := t))) then 1 else 0);
      && |n.log| == |s.log| + 2 + extra
      && n.log[..|s.log| + 2] == s.log + [Logged(cfg.nameB, CleanResponse(n.bReply)), Logged(cfg.nameA, CleanResponse(n.aReply))]
  {
    var st := StagesOf(cfg, chat, heard, s);
    var n := Exchange(cfg, chat, heard, s);
    var t := s.turn + 1;
    assert st.judged.turn == st.asked.turn == t && st.listened.log == st.asked.log;
    assert ListenStep(cfg, heard, s.(turn := t)).(pending := st.asked.pending)
        == s.(turn := t).(pending := st.asked.pending);
    assert st.asked.pending == s.pending;
    assert Whispers(cfg, st.listened) == Whispers(cfg, ListenStep(cfg, heard, s.(turn := t)));
    assert n.log == st.whispered.log;
    PrefixChain(st.spoken.log, st.judged.log, st.asked.log, st.whispered.log);
  }

  lemma PrefixChain<T>(a: seq<T>, b: seq<T>, c: seq<T>, d: seq<T>)
    requires |a| <= |b| <= |c| <= |d| && b[..|a|] == a && c[..|b|] == b && d[..|c|] == c
    ensures d[..|a|] == a
  {
    assert d[..|a|] == c[..|a|] == b[..|a|];
  }

  // ---------------------------------------------------------------- over the whole loop

  /** How many of the exchanges 1..t something on an interval fires on. */
  function FireCount(present: bool, interval: int, t: nat): nat {
    if t == 0 then 0 else FireCount(present, interval, t - 1) + (if Fires(present, interval, t) then 1 else 0)
  }

  lemma MulBound(d: int, k: int)
    requires k > 0
    ensures d >= 1 ==> d * k >= k
    ensures d <= -1 ==> d * k <= -k
  {
    if d >= 1 {
      assert d * k == (d - 1) * k + k;
    } else if d <= -1 {
      assert d * k == (d + 1) * k - k;
    }
  }

  lemma DivOfParts(t: int, k: int, q: int, r: int)
    requires k > 0 && 0 <= r < k && t == q * k + r
    ensures t / k == q && t % k == r
  {
    var d := q - t / k;
    assert d * k == t % k - r;
    MulBound(d, k);
  }

  lemma DivStep(t: nat, k: int)
    requires t > 0 && k > 0
    ensures t / k == (t - 1) / k + (if t % k == 0 then 1 else 0)
  {
    var q, r := (t - 1) / k, (t - 1) % k;
    if r == k - 1 {
      DivOfParts(t, k, q + 1, 0);
    } else {
      DivOfParts(t, k, q, r + 1);
    }
  }

  /** Something on a positive interval `k` fires on `t / k` of the first `t` exchanges. */
  lemma {:induction false} FireCountIsQuotient(present: bool, interval: int, t: nat)
    ensures FireCount(present, interval, t) == if present && interval > 0 then t / interval else 0
  {
    if t > 0 {
      FireCountIsQuotient(present, interval, t - 1);
      if present && interval > 0 {
        DivStep(t, interval);
      }
    }
  }

  /** Judge prompts so far, less the exchanges the judge was due on: the loop keeps this fixed. */
  function JudgeBalance(cfg: Settings, s: Talk): int {
    |s.convJ| - FireCount(cfg.judge.Some?, cfg.judgeInterval, s.turn)
  }

  function UserBalance(cfg: Settings, s: Talk): int {
    |s.convU| - FireCount(cfg.user.Some?, cfg.userInterval, s.turn)
  }

  lemma ExchangeBalances(cfg: Settings, chat: (Voice, seq<Msg>) -> string, heard: nat -> Option<string>, s: Talk)
    ensures JudgeBalance(cfg, Exchange(cfg, chat, heard, s)) == JudgeBalance(cfg, s)
    ensures UserBalance(cfg, Exchange(cfg, chat, heard, s)) == UserBalance(cfg, s)
  {
    ExchangeInterjections(cfg, chat, heard, s);
  }

  /** Over the loop the judge and the user persona are asked once per exchange their interval divides. */
  lemma {:induction false} LoopBalances(cfg: Settings, chat: (Voice, seq<Msg>) -> string, heard: nat -> Option<string>, s: Talk, budget: nat)
    ensures JudgeBalance(cfg, Loop(cfg, chat, heard, s, budget)) == JudgeBalance(cfg, s)
    ensures UserBalance(cfg, Loop(cfg, chat, heard, s, budget)) == UserBalance(cfg, s)
    decreases budget - s.turn
  {
    if s.turn < budget {
      var n := Exchange(cfg, chat, heard, s);
      ExchangeBalances(cfg, chat, heard, s);
      if !n.stopped {
        LoopBalances(cfg, chat, heard, n, budget);
      }
    }
  }

  /** How many of the exchanges 1..t the listener hands out a topic on. */
  function HeardCount(heard: nat -> Option<string>, t: nat): nat {
    if t == 0 then 0 else HeardCount(heard, t - 1) + (if HasText(heard(t)) then 1 else 0)
  }

  /** The number of whispers so far, counted by the room's prompts. */
  function Whispered(s: Talk): int { |s.convR| - 1 }

  /** Every whisper, and a topic still pending, goes back to its own topic from the listener. */
  predicate TopicsAccounted(heard: nat -> Option<string>, s: Talk) {
    Whispered(s) + (if s.pending.Some? then 1 else 0) <= HeardCount(heard, s.turn)
  }

  lemma ExchangeAccounts(cfg: Settings, chat: (Voice, seq<Msg>) -> string, heard: nat -> Option<string>, s: Talk)
    requires TopicsAccounted(heard, s)
    ensures TopicsAccounted(heard, Exchange(cfg, chat, heard, s))
  {
    ExchangePending(cfg, chat, heard, s);
  }

  /** The whole loop never whispers more often than the listener has handed out topics. */
  lemma {:induction false} LoopAccounts(cfg: Settings, chat: (Voice, seq<Msg>) -> string, heard: nat -> Option<string>, s: Talk, budget: nat)
    requires TopicsAccounted(heard, s)
    ensures TopicsAccounted(heard, Loop(cfg, chat, heard, s, budget))
    decreases budget - s.turn
  {
    if s.turn < budget {
      var n := Exchange(cfg, chat, heard, s);
      ExchangeAccounts(cfg, chat, heard, s);
      if !n.stopped {
        LoopAccounts(cfg, chat, heard, n, budget);
      }
    }
  }

  /**
   * From the opening: the number of exchanges, the judge's and the user
   * persona's share of them, and no more whispers than topics heard.
   */
  lemma ConversationSchedule(cfg: Settings, chat: (Voice, seq<Msg>) -> string, heard: nat -> Option<string>, sys: Prompts, budget: nat)
    ensures var f := Loop(cfg, chat, heard, Opening(cfg, chat, sys), budget);
      && f.turn == (if cfg.maxTurns > 0 && cfg.maxTurns < budget then cfg.maxTurns else budget)
      && |f.convJ| - 1 == (if cfg.judge.Some? && cfg.judgeInterval > 0 then f.turn / cfg.judgeInterval else 0)
      && |f.convU| - 1 == (if cfg.user.Some? && cfg.userInterval > 0 then f.turn / cfg.userInterval else 0)
      && |f.convR| - 1 <= HeardCount(heard, f.turn)
  {
    var o := Opening(cfg, chat, sys);
    var f := Loop(cfg, chat, heard, o, budget);
    LoopBalances(cfg, chat, heard, o, budget);
    FireCountIsQuotient(cfg.judge.Some?, cfg.judgeInterval, f.turn);
    FireCountIsQuotient(cfg.user.Some?, cfg.userInterval, f.turn);
    LoopAccounts(cfg, chat, heard, o, budget);
  }

  /**
   * The console shows a reply cleaned once, but `append_log` cleans it
   * again, so the log can hold less than what was shown.
   */
  lemma LogCanDifferFromConsole()
    ensures CleanResponse("[a\nb]") == "[a b]" && Logged("A", CleanResponse("[a\nb]")).text == ""
  {
    CleaningTwiceDiffers();
  }
}
