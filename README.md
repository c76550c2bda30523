# llm-duet, modelled in Dafny

llm-duet runs a conversation between two chat-model agents, A and B. Each
agent is described by a Markdown persona file. A judge persona and a user
persona can comment on chosen exchanges. An ambient listener turns speech
heard in the room into topics, and a room persona whispers those topics to
both agents.

This project models the parts of llm-duet that decide what is said, logged,
queued and written:

- the listener's per-chunk speech detector, its transcription filter and its
  topic queue (`listener.py`);
- persona loading, reply cleaning, balloon text cleaning and wrapping,
  log-file naming, colour wrapping and the main loop's turn schedule
  (`duet.py`);
- the persona generator's interview, template and file name
  (`personaGen.py`).

Modules, one per concern:

| file | module | what |
|---|---|---|
| `wrappers.dfy` | `Wrappers` | `Option` |
| `pystr.dfy` | `PyStr` | the Python string operations used: `strip`, `split`, `join`, `splitlines`, `lower`, `startswith`, `find`/`rfind`, `replace` of one character |
| `listener.dfy` | `Listener` | the listener as a pure state machine (`State`, `Step`, `Process`, `Accept`) and the `AmbientListener` class whose in-place methods are proved to follow it |
| `persona.dfy` | `PersonaFile` | `load_persona`: header scan (a loop, proved against a recursive definition) and the file-name fallback |
| `persona_gen.dfy` | `PersonaGen` | `ask`, `multiline_input` (a loop), the name question, the template and the file name; a generated file loads back with its names |
| `clean.dfy` | `Cleaning` | `clean_response`, `_clean_text`, the safe topic and the log path, `cwrap` |
| `wrap.dfy` | `ComicWrap` | `_wrap_text`: greedy filling (a loop) and truncation |
| `duet.dfy` | `DuetLoop` | the first move and the main loop, step by step (methods) and as functions, with schedule lemmas |

Behaviour of the code that is easy to miss, and that the model states:

- After a forced cut at the maximum duration, the listener keeps the
  utterance's start time (`listener.py:162-164`), so every further speech
  frame is sent alone (`Listener.AfterCutoff`).
- The duration test at the end of speech is inclusive (`>=`, lines 169-170).
- A transcription is remembered in the window before the filler test, so a
  long filler would still occupy a slot. No filler has more than nine
  characters and the length filter rejects ten or fewer, so a filler never
  gets that far.
- The judge's and the user persona's replies are printed raw and logged once
  cleaned. A's, B's and the room's replies are cleaned for the console and
  then cleaned again by `append_log`. Cleaning is not idempotent: a bracket
  pair split by a newline survives the first pass, and the second pass drops
  it. So the log can hold less than the console showed
  (`DuetLoop.LogCanDifferFromConsole`).
- B is sent A's raw reply, not the cleaned one, with the brevity nudge. The
  same holds the other way round. Assistant replies are never added to the
  agents' conversations, apart from the `(acknowledged)` after a whisper.

## Model

| member | source | states |
|---|---|---|
| Listener.Initial | listener.py:97-110 | a new listener is stopped with no thread launched, is not speaking, has no start time and no buffer, and has an empty queue and an empty de-duplication window; the listener invariant holds |
| Listener.Started | listener.py:112-120 | after `start` the listener runs; a thread is launched only if it was not already running; nothing else changes |
| Listener.StartedIdempotent | listener.py:112-120 | starting twice is the same as starting once, and it launches at most one thread |
| Listener.Stopped | listener.py:122-127 | `stop` clears the running flag; audio state, window and queue are kept |
| Listener.TakeTopic | listener.py:129-137 | the result is nothing exactly when the queue is empty; otherwise it is the oldest topic, and the queue keeps the rest |
| Listener.DrainIsQueueOrder | listener.py:129-137 | taking topics until none is left gives exactly the queued topics, in queue order |
| Listener.ExtractTopic | listener.py:228-254 | the result is nothing exactly when the stripped, lower-cased text equals one of the seven filler phrases; otherwise it is the stripped text |
| Listener.FillersAreShort | listener.py:239-247 | no filler phrase is longer than nine characters |
| Listener.LongTextIsTopic | listener.py:209 | stripped text longer than nine characters is always a topic, itself |
| Listener.IsRecentIff | listener.py:211 | a text is a duplicate exactly when some remembered transcription equals it ignoring case |
| Listener.Remember | listener.py:101 | the window grows by one until it holds ten entries; after that the oldest entry falls out; the new text is last |
| Listener.RememberAll | listener.py:101 | after several insertions the window holds the sum of the sizes, capped at ten |
| Listener.WindowKeepsLastTen | listener.py:101 | after any insertions the window is exactly the last entries of the old window followed by the inserted texts |
| Listener.WindowForgets | listener.py:101 | after ten insertions the window holds only those ten, whatever it held before |
| Listener.TranscriptText | listener.py:207 | the joined segment text is stripped |
| Listener.Accept | listener.py:209-220 | text of ten characters or fewer, or a case-insensitive duplicate, changes nothing; other text is remembered, and is queued stripped unless it is a filler |
| Listener.AcceptQueuesText | listener.py:209-220 | a new long stripped text is both remembered and appended to the queue verbatim |
| Listener.RepeatIsRejected | listener.py:211-212 | once a text has been accepted, the same text in any letter case changes nothing |
| Listener.RememberedIsRecent | listener.py:211-212 | a text just remembered counts as a duplicate of itself in any letter case |
| Listener.AcceptedAgainAfterWindow | listener.py:101 | after ten other texts the window has forgotten a text, and it is queued again |
| Listener.RememberKeepsDistinct | listener.py:211-212 | the window never holds two entries equal ignoring case |
| Listener.Process | listener.py:190-226 | an empty buffer changes nothing; otherwise the buffer is sent and cleared; a failed transcription changes nothing else; a transcript goes through `Accept` |
| Listener.ShortFillerIgnored | listener.py:209 | a transcript of just "okay" leaves the queue and the window unchanged |
| Listener.SentenceHeardTwice | listener.py:190-226 | the same sentence heard twice, in different letter case, queues one topic: taking twice gives it, then nothing |
| Listener.Step | listener.py:142-177 | silence while idle changes nothing; speech starts or continues the utterance and appends the chunk, and once the maximum duration is reached the grown utterance goes through `Process` (`_process_speech`); silence after speech ends the utterance, which goes through `Process` only if it lasted at least the minimum and is otherwise dropped; a step that sends nothing changes only the utterance |
| Listener.Run | listener.py:142-177 | over any sequence of frames, a start time is set whenever the listener is speaking, and the window stays bounded |
| Listener.RunAppend | listener.py:142-177 | running frames `a + b` is running `a`, then `b` |
| Listener.SilenceKeepsIdle | listener.py:166-177 | silent frames while idle change nothing |
| Listener.SpeechAccumulates | listener.py:153-165 | speech frames before the maximum duration only append their chunks to the buffer, in order |
| Listener.Utterance | listener.py:153-177 | speech shorter than the maximum, then silence: if it lasted at least the minimum, exactly one buffer with all its chunks is sent and the window and queue are those `Process` gives for it; otherwise nothing is sent and the window and queue are unchanged |
| Listener.ThreeChunksThenSilence | listener.py:153-177 | with a 1 s minimum and a 10 s maximum, three half-second chunks followed by silence send one buffer of the three chunks |
| Listener.MinimumIsInclusive | listener.py:169-170 | speech lasting exactly the minimum is sent; one unit less is dropped |
| Listener.AfterCutoff | listener.py:162-164 | after a forced cut the start time stays, so each later speech frame is sent on its own |
| Listener.AcceptKeepsInvariant | listener.py:209-220 | accepting a stripped transcription keeps the invariant: bounded window without case-insensitive duplicates, and only long stripped topics queued |
| Listener.ProcessKeepsInvariant | listener.py:190-226 | transcribing keeps the invariant |
| Listener.StepKeepsInvariant | listener.py:142-177 | every frame keeps the invariant, including: speaking exactly when a start time is set, and no buffer while idle |
| Listener.AmbientListener.constructor | listener.py:49-110 | the fields start in the initial state, with the two durations as configuration |
| Listener.AmbientListener.Start | listener.py:112-120 | updates the fields as `Started` says |
| Listener.AmbientListener.Stop | listener.py:122-127 | updates the fields as `Stopped` says |
| Listener.AmbientListener.GetTopic | listener.py:129-137 | returns and removes the oldest topic as `TakeTopic` says |
| Listener.AmbientListener.ExtractTopicOf | listener.py:228-254 | the loop over the filler phrases returns what `ExtractTopic` says |
| Listener.AmbientListener.HandleText | listener.py:209-220 | updates the window and the queue as `Accept` says |
| Listener.AmbientListener.ProcessSpeech | listener.py:190-226 | updates the fields as `Process` says |
| Listener.AmbientListener.AudioCallback | listener.py:142-177 | updates the fields as `Step` says for the frame, keeping the invariant |
| PersonaFile.HeaderValue | duet.py:362-368 | on a `name:` or `shortname:` line, the value is what follows the key's colon, stripped |
| PersonaFile.ValueAfterFirstColon | duet.py:365 | the value follows the first colon, whatever later colons there are |
| PersonaFile.Value | duet.py:365 | the value is stripped |
| PersonaFile.LastNameIsLast | duet.py:362-369 | the scanned name is the value of the last name line, or empty if there is none |
| PersonaFile.StopFrom | duet.py:368-369 | the scan reads lines up to the first point where both headers have values, and no earlier point has both; or it reads to the end |
| PersonaFile.Headers | duet.py:362-369 | the values are the last ones seen up to the first line after which both headers are set, or up to the end when that never happens; a value found is that of a header line of its kind |
| PersonaFile.ScanHeaders | duet.py:362-369 | the loop, with its early exit, returns the headers of the lines up to the stopping point |
| PersonaFile.ScanStops | duet.py:368-369 | once both headers are first set after a line, the scan's result is their values at that line |
| PersonaFile.LaterLinesIgnored | duet.py:368-369 | after a name line and a short-name line with values, no later line is read: a later name line does not replace the name |
| PersonaFile.BaseName | duet.py:372 | the base name is the part after the last `/`, with no `/` in it |
| PersonaFile.Stem | duet.py:372 | the stem is a prefix of the base name; when it differs, what was cut starts at the last dot, and the stem is not only dots; otherwise the name had no extension |
| PersonaFile.StemDropsExtension | duet.py:372 | `p/a.md` gives `a` |
| PersonaFile.StemKeepsDotFile | duet.py:372 | `p/.a` gives `.a` |
| PersonaFile.StemDropsLastExtensionOnly | duet.py:372 | `p/a.b.c` gives `a.b` |
| PersonaFile.LoadPersona | duet.py:349-380 | the text is the stripped content; the name is the scanned one, or the file stem when it is empty; the short name is the scanned one, or the name |
| PersonaGen.Ask | personaGen.py:5-7 | an answer is the next line stripped; nothing when input has run out |
| PersonaGen.EndFrom | personaGen.py:13-16 | the first line at or after the position that strips to `END`, if any |
| PersonaGen.MultilineAnswer | personaGen.py:9-18 | nothing exactly when no `END` line follows; otherwise the lines before it, joined by newlines |
| PersonaGen.AnswerEndsAt | personaGen.py:9-18 | the answer ends at the first `END` and reading resumes after it |
| PersonaGen.MultilineInput | personaGen.py:9-18 | the loop returns what `MultilineAnswer` says, including running out of input |
| PersonaGen.GeneratePersona | personaGen.py:32-33 | line one of the file is `Name: <name>` and line two is `ShortName: <shortname>` |
| PersonaGen.AnswersAppearVerbatim | personaGen.py:32-55 | every answer appears verbatim in the file; role and communication appear in bold |
| PersonaGen.StripGenerated | personaGen.py:32-55 | stripping the file only trims the end: the header lines stay first |
| PersonaGen.HeadersOfHeaderLines | personaGen.py:32-33 | text that starts with the two header lines scans to their values |
| PersonaGen.GeneratedHeadersLoadBack | personaGen.py:32-55 | loading a generated file gives back its name and short name, when both are non-blank and single-line |
| PersonaGen.FileName | personaGen.py:116-117 | the path is `personas/`, then the short name with `_` for spaces, lower-cased, then `.md` |
| PersonaGen.FileNameHasNoSpace | personaGen.py:116-117 | the file name has no space |
| PersonaGen.NameStep | personaGen.py:68-70 | nothing only when input runs out; the name is stripped, and is either an answer or `Unnamed Persona` |
| PersonaGen.NameFallback | personaGen.py:69-70 | after `generate` in any case, the next answer is the name, or `Unnamed Persona` when it is blank |
| PersonaGen.NameKept | personaGen.py:68-69 | any other first answer is the name, and one line is read |
| PersonaGen.UnnamedIsLoadable | personaGen.py:70 | the fallback name survives loading |
| PersonaGen.CollectAnswers | personaGen.py:66-107 | the answers follow the question order: the name question, then the short name from the next line, with single-line answers stripped |
| PersonaGen.Interview | personaGen.py:110-120 | the written file is `FileName` of the short name, and its content is the template filled with the answers |
| PersonaGen.InterviewLoadsBack | personaGen.py:66-120 | when the lines typed for the name and the short name hold no line break and both names are non-blank, loading the written file gives back the names the interview settled on |
| Cleaning.Close | duet.py:454 | the first `]` after an opening `[`, unless a newline comes first |
| Cleaning.DropBrackets | duet.py:454 | removing bracketed parts only shortens the text, and adds no character |
| Cleaning.DropBracketsLeavesNoPair | duet.py:454 | afterwards no `[` is closed by a `]` on the same line |
| Cleaning.DropBracketsIdentity | duet.py:454 | text without `[` is unchanged |
| Cleaning.NumberedEnd | duet.py:456 | a match of `\b\d+-\w+` at `i` starts on a word boundary, is digits, `-` and a maximal run of word characters (at least three characters); on a boundary it is the longest such shape, and -1 means there is none |
| Cleaning.DropNumbered | duet.py:456 | removing numbered words only shortens the text, and adds no character |
| Cleaning.NumberedEndPrefix | duet.py:456 | a match starting in a prefix that ends in a non-word character other than `-` stays inside that prefix, whatever follows |
| Cleaning.DropNumberedFromPrefix | duet.py:456 | the left-to-right scan over such a prefix and what follows splits into the scan of the prefix and the scan of the rest |
| Cleaning.DropNumberedFromSuffix | duet.py:456 | scanning `y + q` from a position inside `q` gives what scanning `q` alone gives, when `q` starts with a non-word character |
| Cleaning.DropNumberedRemovesCount | duet.py:456 | `p + digits + "-" + word + q` loses exactly the numbered word: the result is the result on `p` followed by the result on `q`, when `p` ends clear of word characters and `-` and `q` starts with a non-word character |
| Cleaning.CountAfterDash | duet.py:456 | the boundary condition on `p` is needed: `5-1-a` becomes `-a`, while `5-` alone is unchanged |
| Cleaning.DropNumberedFromIdentity | duet.py:456 | text without `-` is unchanged |
| Cleaning.CountedLen | duet.py:457 | a positive length is a match of `\w+\(\d+\)` at the start (word characters, `(`, digits, `)`, at least four characters), and it is the only match length there; 0 means there is none |
| Cleaning.DropCounted | duet.py:457 | removing counted words only shortens the text, and adds no character |
| Cleaning.CountedLenPrefix | duet.py:457 | a match starting in a prefix that ends in a non-word character other than `(` stays inside that prefix |
| Cleaning.DropCountedPrefix | duet.py:457 | the scan over such a prefix and what follows splits into the scan of the prefix and the scan of the rest |
| Cleaning.DropCountedRemovesCount | duet.py:457 | `p + word + "(" + digits + ")" + q` loses exactly the counted word: the result is the result on `p` followed by the result on `q` |
| Cleaning.DropCountedIdentity | duet.py:457 | text without `(` is unchanged |
| Cleaning.Squash | duet.py:459 | the result is single-spaced and has exactly the words of the input, in order |
| Cleaning.SquashIdentity | duet.py:459-460 | single-spaced text is unchanged |
| Cleaning.CleanResponse | duet.py:451-460 | the cleaned reply is single-spaced, a single line, and stripped |
| Cleaning.CleanResponseWords | duet.py:451-460 | the cleaned reply has exactly the words left after the three removals, in order |
| Cleaning.CleanResponseDropsCount | duet.py:451-460 | in a reply without brackets, a numbered word such as `3-word` between clear boundaries is removed and the words around it are kept |
| Cleaning.CleanResponseIdentity | duet.py:451-460 | single-spaced text without `[`, `-` or `(` is unchanged |
| Cleaning.CleanResponseOnlyRemoves | duet.py:451-460 | every output character other than a space was in the reply |
| Cleaning.CleaningTwiceDiffers | duet.py:451-460 | cleaning is not idempotent: `[a` newline `b]` cleans to `[a b]`, which cleans to empty |
| Cleaning.CleanText | duet.py:318-324 | the balloon text is single-spaced, a single line, and stripped |
| Cleaning.CleanTextIdentity | duet.py:318-324 | single-spaced text without `[` is unchanged |
| Cleaning.Keep | duet.py:436-438 | returns only letters, digits, spaces, `-` and `_` taken from the text, and leaves text made only of them unchanged |
| Cleaning.Head40 | duet.py:437 | the first forty characters |
| Cleaning.SafeTopic | duet.py:436-439 | the topic part is 1 to 40 characters, each a letter, a digit, `-` or `_` |
| Cleaning.SafeTopicKeeps | duet.py:436-439 | every letter, digit, `-` and `_` among the first forty characters survives |
| Cleaning.SafeTopicDefault | duet.py:439 | with nothing to keep, the topic part is `conversation` |
| Cleaning.SafeTopicIdentity | duet.py:436-439 | a topic that is already safe is kept as it is |
| Cleaning.LogPath | duet.py:427-441 | an explicit path is used as given; otherwise the path is `logs/<timestamp>_<safe topic>.md` |
| Cleaning.CWrap | duet.py:195-198 | without colour the text is unchanged; with colour it sits between the colour code and the reset code |
| DuetLoop.VoiceColorsDistinct | duet.py:186-192 | each speaker's label colour (A blue, B magenta, judge green, user cyan, room yellow) differs from every other speaker's |
| DuetLoop.ConsoleLabel | duet.py:690 | the label is `[short name]:`, bare without colour, and between the speaker's colour code and the reset code with colour |
| ComicWrap.TruncDiv | duet.py:271 | `int(a / b)` truncates toward zero |
| ComicWrap.MaxLines | duet.py:271-272 | at least one line; otherwise as many lines as fit in the height |
| ComicWrap.PlaceSound | duet.py:257-265 | placing a word keeps the words in order, leaves no line empty, and keeps multi-word lines within the width |
| ComicWrap.PlaceBreaks | duet.py:257-265 | placing a word keeps the greedy rule: every finished line plus the first word of the next one is wider than the width |
| ComicWrap.FillAllSound | duet.py:257-265 | the filling loop keeps those properties over all words |
| ComicWrap.Groups | duet.py:253-268 | the lines hold exactly the words, in order; no line is empty; a line of several words is within the width; each line but the last breaks only because the next word would not fit |
| ComicWrap.FillLines | duet.py:253-265 | the word loop yields the finished lines and the current line of the greedy filling |
| ComicWrap.FlushedLines | duet.py:267-268 | the last partial line is added when it is not empty |
| ComicWrap.Ellipsis | duet.py:276 | up to three characters are cut from the line and `...` is appended |
| ComicWrap.Truncate | duet.py:274-277 | lines that fit are kept; otherwise the first `maxLines` are kept, and the last of them ends in `...` |
| ComicWrap.Cut | duet.py:274-277 | the truncation step computes `Truncate` |
| ComicWrap.WrapText | duet.py:247-279 | the method computes the filled, truncated lines joined by newlines |
| ComicWrap.WrapKeepsWords | duet.py:247-279 | when every line fits, the output's words are the input's words, in order |
| ComicWrap.Wrapped | duet.py:247-279 | read back by lines, the output is exactly the truncated lines: as many as the groups, capped at the lines that fit; when it is cut, the last shown line ends in `...` |
| DuetLoop.FirstMove | duet.py:676-683 | A's opening request names B between the fixed request and `to respond.` |
| DuetLoop.Recap | duet.py:745-751 | the judge's and the user persona's prompt holds A's name and cleaned reply, then B's, then their own request at the end |
| DuetLoop.RoomPrompt | duet.py:810-814 | the room's prompt quotes the overheard topic verbatim and names both agents before the closing request |
| DuetLoop.WhisperMsg | duet.py:831 | the whisper appears verbatim in parentheses after `(A whisper fills the room: ` |
| DuetLoop.Opening | duet.py:671-691 | A is asked for the first move inviting B, and its reply is what the model answers to that conversation; its twice-cleaned reply is the first log entry; the judge, user and room conversations hold only their system prompts |
| DuetLoop.SpeakOnce | duet.py:704-730 | computes B's turn and then A's turn of one exchange |
| DuetLoop.JudgeOnce | duet.py:739-765 | computes the judge's interjection |
| DuetLoop.UserOnce | duet.py:768-794 | computes the user persona's interjection |
| DuetLoop.ListenOnce | duet.py:797-800 | computes the topic taken from the listener |
| DuetLoop.WhisperOnce | duet.py:803-838 | computes the room's whisper |
| DuetLoop.ExchangeOnce | duet.py:703-843 | one pass of the loop body, in source order, is `Exchange` |
| DuetLoop.Converse | duet.py:671-848 | the first move, then passes until the limit or the interrupt |
| DuetLoop.Exchange | duet.py:703-843 | each pass increments the exchange counter by one |
| DuetLoop.Speak | duet.py:704-730 | B is sent A's raw reply plus the nudge, and A is sent B's; each new reply is what the model answers to that agent's conversation; both cleaned replies are logged, B first; the counter goes up by one; the judge, user and room conversations and the pending topic are unchanged |
| DuetLoop.JudgeStep | duet.py:739-765 | the judge gets one recap prompt of the cleaned replies and one log entry exactly when present with a positive interval dividing the counter; that entry is the judge's name and the model's answer to the judge's conversation; nothing else changes |
| DuetLoop.UserStep | duet.py:768-794 | the same for the user persona, whose entry is the model's answer to the user's conversation |
| DuetLoop.ListenStep | duet.py:797-800 | only the pending topic changes: with listening on, a non-empty topic from the listener replaces it |
| DuetLoop.WhisperStep | duet.py:803-838 | a whisper adds the room prompt and gives both agents the same two messages: the first carries the cleaned answer of the room model, the second is `(acknowledged)`; it logs that cleaned answer under the room's name and clears the topic; the agents' last replies are untouched; otherwise nothing changes |
| DuetLoop.StopStep | duet.py:840-843 | only the stop flag changes, and it is set exactly when there is a positive limit and the counter has reached it |
| DuetLoop.ExchangeMessages | duet.py:704-836 | per exchange, each agent gets the other's raw reply plus the nudge, and both get the same whisper messages |
| DuetLoop.ExchangeInterjections | duet.py:739-794 | the judge and the user persona are asked once, exactly on their exchanges |
| DuetLoop.ExchangePending | duet.py:797-838 | a whisper happens exactly when a non-empty topic is pending with listening on, on a listening exchange; it clears the topic; otherwise the topic waits |
| DuetLoop.ExchangeStops | duet.py:840-843 | the loop stops exactly when there is a positive limit and the counter has reached it |
| DuetLoop.ExchangeLog | duet.py:704-829 | the log gains B's entry and A's entry, then one entry per interjection or whisper |
| DuetLoop.FireCountIsQuotient | duet.py:739-742 | with a positive interval k, an interjection fires on t / k of the first t exchanges |
| DuetLoop.Loop | duet.py:703-848 | from below the limit, the loop runs up to the turn limit, when there is one, and no further than the interrupt allows |
| DuetLoop.ExchangeBalances | duet.py:739-794 | each exchange keeps the judge's and the user persona's prompt counts equal to their due exchanges |
| DuetLoop.LoopBalances | duet.py:739-794 | so does the whole loop |
| DuetLoop.ExchangeAccounts | duet.py:797-838 | each exchange keeps whispers plus the pending topic within the topics heard |
| DuetLoop.LoopAccounts | duet.py:797-838 | so does the whole loop |
| DuetLoop.ConversationSchedule | duet.py:671-848 | from the first move: the number of exchanges; the judge's and the user persona's prompt counts are the exchanges divided by their intervals; whispers never outnumber the topics heard |
| DuetLoop.LogCanDifferFromConsole | duet.py:463-466 | a reply shown as `[a b]` is logged as empty, because `append_log` cleans it again |

## Left out

- Audio capture, the RMS test and the speech-to-text model. A frame carries
  its speech flag, and the model is a function parameter from buffers to
  transcripts. Any transcription exception is `Failed`.
- Time is an integer clock read once per frame. The source reads
  `time.time()` twice on the first speech frame. The durations are in that
  clock's unit, not in float seconds.
- The cooldown sleep after a topic, `_listen_loop`'s polling sleep, the
  thread, the queue's locking, and the audio stream's lifetime: timing and
  concurrency are not modelled. `launches` and `sent` are ghost bookkeeping
  for stating properties.
- Listener construction errors when a dependency is missing, and the
  sample-rate, chunk-size, threshold and model-name settings: they do not
  affect the modelled behaviour.
- Python's `str.lower`, `isalnum` and `\w`/`\d` are Unicode-aware. The model
  uses ASCII for case mapping and for the letter and digit classes. `split`
  and `strip` use Python's full `str.isspace` whitespace set. Regular
  expressions are written out as the specific scans they perform.
- Chat services (Ollama, Anthropic), system-prompt construction, argument
  parsing and provider selection. Chat is a function from speaker and
  conversation to a reply, and the system prompts are parameters.
- `DuetLoop.Loop`, `DuetLoop.Converse` and `DuetLoop.ConversationSchedule`
  take every chat call to succeed. In the source a failing call raises: an
  HTTP error from `raise_for_status` (duet.py:396), a missing `message` key
  (duet.py:398), or the missing `anthropic` package (duet.py:416-419). Only
  `KeyboardInterrupt` is caught (duet.py:847), so such an error ends the
  program in the middle of an exchange. The entries logged so far stay, the
  `finally` block stops the listener and the window (duet.py:849-856), and
  the `Conversation stopped.` footer (duet.py:858-859) is not written. The
  exact exchange count of `DuetLoop.ConversationSchedule` holds only for
  runs in which no chat call fails.
- Console printing (the `print` of each line) and log-file writing. The log
  is a sequence of entries; `append_log`'s `> ` quoting of lines and the log
  header are not modelled.
- The comic window: pygame, PIL drawing, fonts, event handling and pauses.
  The font's width measure and line height are parameters.
- `ComicWrap.MaxLines`, `ComicWrap.Wrapped` and `ComicWrap.WrapText`
  require a positive line height. A zero height divides by zero in the
  source (duet.py:272). Negative heights are excluded too, although the
  source would still compute `max(1, int(max_height / line_height))` for
  them: `textbbox` does not return them.
- `visualizer.update_left` and `update_right` feed `_clean_text` in the
  loop. The loop model does not carry the balloons; `_clean_text` and
  `_wrap_text` are modelled on their own.
- Ctrl-C is modelled as a budget that ends the loop at an exchange boundary.
  An interrupt in the middle of an exchange is not modelled.
- `Listener.Run`: states that the readiness condition is kept over any frame
  sequence. The content of a run is stated by `Listener.Utterance`,
  `Listener.SpeechAccumulates`, `Listener.AfterCutoff` and
  `Listener.SilenceKeepsIdle`.
- `PersonaGen.CollectAnswers`: its contract fixes the name, the short name and
  the stripping of single-line answers. The other answers' positions follow
  from its body, and `PersonaGen.InterviewLoadsBack` is proved from them.
- The persona generator's banner and prompt texts, and the creation of the
  `personas` and `logs` directories.
- `PersonaFile.LoadPersona` takes the file content as a parameter. File
  reading is not modelled, and Python's `None` for a missing header is the
  empty string: only its truthiness is used.
