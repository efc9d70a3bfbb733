# Audio-reactive link hub: a verified model

This project models the three self-contained pieces of logic in `script.js`
of the single-page link hub:

- **HTML escaping** (`escapeHtml`, `escapeAttr`), module `HtmlEscape`
  (`escape.dfy`). The chain of `replaceAll` calls is kept as written, with `&`
  first. It is proved equal to a per-character substitution table, free of
  markup characters, and invertible by decoding the entities it inserts.
- **The score search** inside `renderScores`, module `ScoreSearch`
  (`search.dfy`). The query is trimmed and lower-cased. A score is kept when
  the query is empty or occurs in `title + ' ' + description + ' ' + tags.join(' ')`,
  lower-cased. The filter result is proved to be exactly the matching scores,
  in their original order. The "no results" branch is taken exactly when
  nothing matches.
- **Class `AudioReactive`**, modules `Energy` (`energy.dfy`, the per-frame
  arithmetic of `tick`) and `Audio` (`audio.dfy`, the class and its state
  machine). The class has the source's fields `ctx`, `analyser`, `source`,
  `stream`, `enabled`, `raf` and `smooth`, plus the length of the buffer that
  `start` allocates. Its methods `EnsureCtx`, `UseMic`, `Start`, `Tick` and
  `Stop` change them in place, and each keeps the class invariant. The
  postconditions of `Start`, `Tick` and `Stop` tie the new state to a pure
  transition function (`StartStep`, `TickStep`, `StopStep`) over a
  `Snapshot` of the fields; `EnsureCtx` and `UseMic` state their new fields
  directly. The transition functions and the lemmas about them state the
  guards, idempotence and the invariant.

Modelling choices:

- Numbers are exact: `real` stands for the source's doubles. The band
  limits `Math.floor(n * 0.03)` and `Math.floor(n * 0.18)` are the integers
  `n * 3 / 100` and `n * 18 / 100`.
- The analyser's spectrum is an input. `Tick` receives the bytes that
  `getByteFrequencyData(buf)` writes, as a `seq<byte>` whose length is the
  buffer's. With fftSize 2048 that length is 1024 (`frequencyBinCount` in the
  W3C Web Audio API).
- `requestAnimationFrame` becomes an explicit `Tick` call. Its id is a
  parameter, and `Tick` returns whether the callback would reschedule.
- `getUserMedia` becomes a parameter of `UseMic`: the stream it resolves
  with, or the error it rejects with. `UseMic` returns `Err` with that error
  in the second case, as the source's promise rejects.
- The `--react` property of `document.documentElement.style` is a separate
  `DocumentStyle` object that `Tick` and `Stop` write. The value is
  published as a real, not as the string `toFixed(4)` gives.
- `stop()` does not reset `smooth`, so after a later `start()` the
  smoothing resumes from the last value. `StopStep` keeps `smooth`
  unchanged to match.
- `useMic` does not disconnect the previous source node. The model leaves
  that node untouched.
- `usePlayer` (script.js:184-192) builds a new media-element source node on
  every call; nothing caches a node per player element.
- The run state of `AudioReactive` is the `enabled` flag together with the
  pending frame id `raf` (script.js:161-162, 196, 215, 222-224). The model
  keeps exactly these two fields.
- The transform size is fixed at 2048 (script.js:170), so the analyser has
  1024 bins and the band is [30, 184).
- `tick` (script.js:199-216) has no error handling: a failing frame read
  would end the loop. The model takes frames as given.

## Model

| member | source | states |
|---|---|---|
| HtmlEscape.ReplaceAll | script.js:67-71 | a one-character `replaceAll` leaves text without the needle unchanged, removes every needle when the replacement lacks it, and never shortens text |
| HtmlEscape.EscapeHtmlIsPerCharacter | script.js:65-72 | the `&`-first chain equals replacing each character independently by its entity, so inserted entities are never escaped again |
| HtmlEscape.EscapeAttrIsPerCharacter | script.js:73 | `escapeAttr` equals the per-character table extended with the backtick entity |
| HtmlEscape.EscapeHtml | script.js:65-72 | the output of `escapeHtml` contains no `<`, `>`, `"` or `'`, and is never shorter than the input |
| HtmlEscape.EscapeAttr | script.js:73 | the output of `escapeAttr` contains none of those and no backtick, and is never shorter than the input |
| HtmlEscape.EscapeHtmlFixedPoints | script.js:66-71 | output length is never below input length; the output equals the input exactly when the input has none of the five special characters |
| HtmlEscape.EscapeAttrFixedPoints | script.js:73 | the same for `escapeAttr`, with the backtick as a sixth special character |
| HtmlEscape.EscapeHtmlRoundTrip | script.js:65-72 | decoding the inserted entities gives back the input, so escaping loses nothing |
| HtmlEscape.EscapeAttrRoundTrip | script.js:73 | the same round trip for `escapeAttr` |
| ScoreSearch.TrimStart | script.js:30 | removes only leading whitespace and leaves a suffix that does not start with whitespace |
| ScoreSearch.TrimEnd | script.js:30 | removes only trailing whitespace and leaves a prefix that does not end with whitespace |
| ScoreSearch.Trim | script.js:30 | `trim` leaves the input with only whitespace removed at either end, neither starting nor ending with whitespace; the result is empty exactly when the input is all whitespace |
| ScoreSearch.Lower | script.js:30 | lower-casing keeps the length and maps each character on its own |
| ScoreSearch.Query | script.js:30 | the normalised query is empty exactly when the raw query is all whitespace; with the one-for-one lower-casing of the model it is also as long as the trimmed query |
| ScoreSearch.Join | script.js:34 | every tag occurs in the joined text |
| ScoreSearch.HaystackHoldsFields | script.js:34 | the searched text starts with the title, has the description right after the first space, and contains every tag |
| ScoreSearch.Includes | script.js:35 | `includes` holds exactly when the query occurs at some position of the haystack |
| ScoreSearch.Keep | script.js:34-35 | a score is kept exactly when the query is empty or occurs in its lower-cased haystack |
| ScoreSearch.FieldMatchKeeps | script.js:34-35 | a query found in the lower-cased title, description or any single tag keeps the score |
| ScoreSearch.Filter | script.js:33-36 | a score is in the result exactly when it is in the input and matches the query; the result is never longer than the input |
| ScoreSearch.BlankQueryKeepsAll | script.js:30-36 | a query that is blank after trimming keeps every score, in order |
| ScoreSearch.FilterIsOrderedSelection | script.js:33-36 | the filtered list is the scores at the kept positions, in increasing order; a position is kept exactly when its score matches |
| ScoreSearch.RenderScores | script.js:38-62 | the "no results" branch is taken exactly when nothing matches; otherwise there is one card per kept score, in order |
| ScoreSearch.CardOf | script.js:48-59 | every text a card interpolates is escaped: no `<`, `>`, `"`, `'` in title, description and pills, no backtick in the link target either; decoding the entities of title, description and link target gives back this score's title, description (or `''`) and file; the pills are the first three tags (or all of them if fewer), each escaped |
| Energy.BandStart | script.js:204 | the first bin is the floor of 3n/100 and lies inside the buffer |
| Energy.BandEnd | script.js:205 | the end bin is the floor of 18n/100, not before the first bin and not past the buffer |
| Energy.Divisor | script.js:208 | the divisor is at least 1 and at least the band width, and equals the width whenever the band is non-empty |
| Energy.BandOfAnalyser | script.js:170 | with fftSize 2048 the 1024-bin band is [30, 184) and the divisor 154 |
| Energy.SumRange | script.js:206-207 | the band sum of bytes lies between 0 and 255 times the band width |
| Energy.Average | script.js:208 | the band average lies in [0, 255] |
| Energy.Normalize | script.js:211 | the normalised value is in [0, 1]; it is 0 exactly at or below 18 and 1 exactly at or above 128 |
| Energy.Level | script.js:204-211 | a frame's level is in [0, 1]; it is 0 exactly when the band average is at most 18 and 1 exactly when it is at least 128 |
| Energy.BandLevel | script.js:204-211 | the summing loop computes the specified level of the frame, a value in [0, 1] |
| Energy.NormalizeMonotone | script.js:211 | a louder average never gives a lower level |
| Energy.LevelIgnoresOutsideBand | script.js:204-211 | bins outside [start, end) never change the level |
| Energy.LoudBandSaturates | script.js:211 | a non-empty band with every bin at least 128 gives level 1 |
| Energy.QuietBandIsZero | script.js:211 | a band with every bin at most 18, or an empty band, gives level 0 |
| Energy.Smooth | script.js:212 | the blend lies between the previous value and the new one, so it stays in [0, 1] when both are |
| Energy.SmoothStepsDistance | script.js:212 | after k frames of a fixed input the distance to it is 0.92^k times the initial distance |
| Energy.SmoothConverges | script.js:212 | after k frames that distance is at most 23 / (23 + 2k) of the initial one |
| Energy.RiseFromSilence | script.js:163 | from 0 with full-scale input the value is 1 - 0.92^k: 0.08 after one frame, strictly rising and below 1 |
| Audio.StartStep | script.js:194-198 | start keeps the invariant; it is a no-op without an analyser or while running; afterwards the loop runs exactly when it ran before or an analyser exists; only enabled, raf and the buffer length change |
| Audio.TickStep | script.js:199-216 | a frame keeps the invariant; a frame that finds the loop off changes nothing; otherwise only smooth and raf change, and smooth moves towards the frame's level without passing it |
| Audio.StopStep | script.js:221-230 | stop keeps the invariant; afterwards the loop is off, nothing is pending and no stream is held, while context, analyser, source node and smooth stay as they were |
| Audio.StartGuards | script.js:195 | start is a no-op without an analyser or while running; a second start changes nothing; start on a fresh object does nothing |
| Audio.StopSettles | script.js:199-230 | a frame that finds the loop off changes nothing; a frame after stop changes nothing; stop twice equals stop once |
| Audio.RunFramesKeepsConsistent | script.js:199-216 | over any sequence of frames, each run with the new id `requestAnimationFrame` hands out, the invariant holds and smooth stays in [0, 1]; a stopped loop stays unchanged; a running loop ends with the last id pending |
| Audio.AudioReactive.constructor | script.js:156-164 | all fields start empty, the loop is off and smooth is 0 |
| Audio.AudioReactive.EnsureCtx | script.js:166-173 | the first call creates the context and an analyser with fftSize 2048 and smoothing 0.85; later calls change nothing |
| Audio.AudioReactive.UseMic | script.js:175-182 | stops the loop and ends every track of a held stream before taking the new one; connects a new source to the analyser; passes a rejection through with no stream held; smooth and the buffer length are unchanged |
| Audio.AudioReactive.Start | script.js:194-198 | the state after start is `StartStep` of the state before: the guard, then enabled with a pending frame and a 1024-byte buffer |
| Audio.AudioReactive.Tick | script.js:199-216 | a disabled tick changes and publishes nothing and does not reschedule; otherwise smooth becomes the blend with the frame's level, it is published, and the callback reschedules |
| Audio.AudioReactive.Stop | script.js:221-230 | enabled is false, raf is cleared, 0 is published, every track of the held stream is stopped and the stream dropped |
| Audio.StopAll | script.js:227 | every track of the stream is stopped |

## Left out

- `loadData`, `init`, `renderLinks`, the view toggle and the DOM building of `renderScores`: they are fetch, `innerHTML` and event wiring. The escaped texts a score card interpolates are modelled; the markup around them is not.
- `onScroll`: it only writes a scaled title to a CSS property.
- `usePlayer`: its pass-through routing consists of foreign Web Audio graph calls only.
- `wireListen`: UI text, `localStorage` and playback glue. It calls `ar.attachMediaElement`, which `AudioReactive` does not define, so its reactive path always ends in the `catch`.
- The Web Audio and media-capture calls themselves (`createAnalyser`, `createMediaStreamSource`, `connect`, `getByteFrequencyData`, `getUserMedia`): each is a small class with only the state the model needs, or an input. A `createMediaStreamSource` that throws is not modelled.
- `requestAnimationFrame`, `cancelAnimationFrame` and async suspension: frames are explicit `Tick` calls, and cancelling is modelled by clearing `raf`.
- `toFixed(4)`: the published value is the real number, not its four-decimal string.
- IEEE rounding in `buf.length * 0.03`, `buf.length * 0.18` and in the smoothing: the model uses exact integers and reals.
- HtmlEscape.ReplaceAll: models only the one-character needles the source passes, not `replaceAll` with longer patterns.
- HtmlEscape.EscapeHtml: takes a string. The `String(str)` conversion of non-string arguments and the `''` default for a missing argument are not modelled.
- ScoreSearch.Lower: maps only the ASCII letters A to Z, one character to one character. JavaScript's `toLowerCase` follows full Unicode case mapping, which can change the length (`"\u0130"` becomes two code units) and depends on context. Three stated properties rely on the one-for-one mapping and so hold of the model, not of the program for every input: the length clause of `ScoreSearch.Query` (`|r| == |Trim(q)|`), and the occurrence facts `ScoreSearch.LowerOccurs` and `ScoreSearch.FieldMatchKeeps`, which carry an occurrence in a field over to the lower-cased haystack position by position. For text whose lower-case form keeps its length (all of ASCII) they hold of the program as well.
- ScoreSearch.Haystack: a missing `title` is not modelled; JavaScript would render it as "undefined". An absent or empty description and absent tags are modelled.
- Audio.AudioReactive.UseMic: each call runs to completion before the next begins. In the source, two overlapping `useMic` calls can both pass the `if(this.stream)` test (script.js:177) before either `await getUserMedia` (script.js:178) resolves; the later one then overwrites a live stream whose tracks are never stopped. Nothing in script.js calls `useMic`, so this interleaving is latent.
- Audio.AudioReactive.EnsureCtx: always succeeds. In the source `new AudioContext()` or `createAnalyser()` can throw (script.js:168-169). A failing `AudioContext` makes `useMic` reject; a throwing `createAnalyser` leaves `ctx` set and `analyser` null for good, a state the invariant `Consistent` rules out.
