# SportsZ state layer in Dafny

SportsZ is a browser prototype for a youth sports app. Everything it remembers
lives in the browser's local storage under six keys: the registered athletes,
the history of timed runs, uploaded videos, community talent posts, one
"dream" goal and the motivational quotes. `load(key, fallback)` reads a key and
falls back to a default when the key is empty or its text cannot be parsed.
`save(key, value)` overwrites the key with the whole value. Every form handler
loads a whole collection, validates its input, appends to or filters the
collection, and saves it back. The dashboard, history panel, chart, insight
box and report are views computed from those collections.

This project models that layer:

- `records.dfy` (module `Records`) holds one datatype per stored record. It also
  holds `Slot<T>`, the value under one key as JSON sees it:
  - `Absent`: `getItem` returned null or the empty string.
  - `Unreadable`: reading or parsing threw.
  - `Holds(v)`: the text parses back to `v`.

  `Slot.Load` is `load`. `Save` is `save`.
- `store.dfy` (module `Store`) has two classes:
  - `Storage` has one `Slot` field per key. Each of its methods is one of the
    script's read-modify-write handlers. Form values, fresh ids, timestamps,
    the measured video duration and the file's data URL come in as parameters.
  - `RunTimer` holds the page's `runStart` timer state.
- `history.dfy`, `insight.dfy`, `dashboard.dfy`, `report.dfy`, `assistant.dfy`
  and `eligibility.dfy` hold the derived views as functions, with lemmas stating
  what each view shows.
- `js.dfy` (module `Js`) models the JavaScript behaviour the guards depend on:
  - a `Number` is NaN or a finite value;
  - a `Number` is truthy when it is neither 0 nor NaN;
  - `trim` removes the full ECMAScript whitespace set;
  - `toLowerCase` lower-cases the ASCII letters and keeps every other
    character;
  - `includes` is a substring test.
- `seqs.dfy` (module `Seqs`) has `filter`, `map`, `slice(-k)` and the
  subsequence relation, which states "same relative order".
- `walkthrough.dfy` is a client of `Storage`. It shows what a caller can
  conclude from the contracts alone.

Some of the script's behaviour is easy to misread. The model follows the code
in each case:

- Registration rejects an age only when it is 0 or NaN (`!age`). A negative
  age is accepted.
- The insight index is `max(0, n/10 - 1)`. So the insight is the fastest speed
  for every n < 20. For the speeds 1..10 it is 10, not the second fastest
  (`Insight.InsightOfOneToTen`).
- A video whose duration is NaN passes the `dur < 1` check and is stored.
- The dream's progress is stored as whatever number the slider gives. The
  milestone fires for any progress of at least 100, not only at exactly 100.
  `updateDreamProgress` never fires it.
- Each report row gets the same top speed, the largest over the whole
  history. The history filter's `u` conjunct is always truthy.

## Model

| member | source | states |
|---|---|---|
| `Records.Slot.Load` | sportsz/core/static/js/script.js:17-25 | `load` gives the stored value when the key holds readable JSON. It gives the caller's fallback when the key is empty or unreadable. |
| `Records.Save` | sportsz/core/static/js/script.js:26-28 | `save` leaves the key holding a readable value. |
| `Records.LoadAfterSave` | sportsz/core/static/js/script.js:17-28 | Round trip: loading what was saved returns it, whatever the fallback. |
| `Records.LoadMissingGivesFallback` | sportsz/core/static/js/script.js:18-24 | Reading a key that was never written, or whose text is malformed, returns the fallback and does not fail. |
| `Store.Storage.InitQuotes` | sportsz/core/static/js/script.js:96 | The default quotes are written only when the quotes key is empty. An unreadable value is kept. |
| `Store.Storage.SaveDream` | sportsz/core/static/js/script.js:69-76 | Both dream fields are overwritten with the trimmed goal and the progress. The confetti fires exactly when progress >= 100, so it fires at 100 and not at 99 or NaN. |
| `Store.Storage.UpdateDreamProgress` | sportsz/core/static/js/script.js:79-85 | Only the progress changes. The goal that was stored (or the default's empty goal) is kept. |
| `Store.MilestoneThreshold` | sportsz/core/static/js/script.js:578-580 | The milestone holds exactly for progress >= 100. It holds for 100 and not for 99 or NaN. |
| `Store.Storage.RegisterUser` | sportsz/core/static/js/script.js:101-125 | A blank trimmed name, a 0 or NaN age, or a blank trimmed sport gives the missing-fields outcome. Otherwise missing consent gives the consent outcome. Either way the users slot is unchanged. Otherwise exactly one user with the trimmed fields, the id and the timestamp is appended after the loaded users. |
| `Store.Storage.AddHistory` | sportsz/core/static/js/script.js:238-243 | The entry is appended as the last element and every earlier entry is kept. |
| `Store.Storage.CalculateSpeed` | sportsz/core/static/js/script.js:178-189 | A `run_manual` entry with the given distance and time is recorded if and only if both are truthy. Otherwise the history is unchanged. |
| `Store.RunTimer.Start` | sportsz/core/static/js/script.js:145-154 | The timer holds the start time. |
| `Store.RunTimer.End` | sportsz/core/static/js/script.js:157-174 | A timer that is not running (null or 0 start) is left alone and nothing is recorded. A running timer stops. A `run` entry with elapsed seconds `(now - start) / 1000` is appended if and only if the distance is > 0. |
| `Store.Storage.UploadVideo` | sportsz/core/static/js/script.js:326-357 | There are four outcomes. No file, a duplicate (same name and size), or a duration below 1 second each leave the videos unchanged. NaN is not below 1. Otherwise exactly one video with the given fields is appended. |
| `Store.UploadKeepsFilesDistinct` | sportsz/core/static/js/script.js:332-351 | An accepted upload keeps the invariant that no two stored videos share name and size. |
| `Store.Storage.DeleteVideo` | sportsz/core/static/js/script.js:386-391 | The stored videos become the loaded list without the videos that have this id. The list is saved back even when nothing matched. |
| `Store.WithoutIdSpec` | sportsz/core/static/js/script.js:388 | After deletion no video has the id. Every other video is kept, in its original relative order. An unknown id changes nothing. |
| `Store.DeleteKeepsFilesDistinct` | sportsz/core/static/js/script.js:386-389 | Deletion keeps the distinct-files invariant. |
| `Store.Storage.PostTalent` | sportsz/core/static/js/script.js:394-405 | A post is appended if and only if the trimmed name and title are both non-empty. Otherwise the feed is unchanged. |
| `Js.Trim` | sportsz/core/static/js/script.js:102-106 | `trim` returns a contiguous slice of its input. Everything before and after the slice is whitespace, and the slice has no whitespace at either end. The result is empty exactly when the input is all whitespace. |
| `Js.IncludesIff` | sportsz/core/static/js/script.js:489 | `includes` holds exactly when the filter occurs at some position of the name. |
| `History.HistoryPanel` | sportsz/core/static/js/script.js:245-256 | The record count is the history's length. The badges are those of the most recent min(5, n) entries, oldest first. A run badge shows its speed, or nothing when the speed is 0. |
| `History.PanelAfterAppend` | sportsz/core/static/js/script.js:238-255 | After `addHistory` the count grows by one. The badges slide: the new entry's badge comes last. |
| `History.RunEntries` | sportsz/core/static/js/script.js:262 | The chart's filter keeps exactly the entries of type `run` or `run_manual`. |
| `History.ChartWindowSpec` | sportsz/core/static/js/script.js:262-273 | The chart window holds only run entries, in their original chronological order. It is exactly the last min(12, m) of the m run entries. |
| `History.ChartViewSpec` | sportsz/core/static/js/script.js:262-273 | The "No run history yet" placeholder is shown if and only if there is no run entry. Otherwise one speed is plotted per window entry, and the newest run is the last point. |
| `Insight.SortDesc` | sportsz/core/static/js/script.js:505 | Sorting with `b - a` gives a descending permutation of the speeds. |
| `Insight.SortedDescUnique` | sportsz/core/static/js/script.js:505 | Any two descending permutations of the same speeds are equal. So the browser's sort and this one give the same list. |
| `Insight.SpeedsMembers` | sportsz/core/static/js/script.js:505 | The insight's speed list holds exactly the non-zero speeds of the history. |
| `Insight.RankIndex` | sportsz/core/static/js/script.js:507 | The rank `max(0, floor(n/10) - 1)` is within [0, n) for every non-empty list. It is 0 for every n < 20. |
| `Insight.InsightOf` | sportsz/core/static/js/script.js:500-509 | "No insights yet" is shown exactly for an empty history. "No speed data yet" is shown exactly when no entry has a speed. Otherwise the speed shown is one of the recorded speeds. |
| `Insight.InsightRank` | sportsz/core/static/js/script.js:505-507 | The speed shown is the one at the rank index of the descending list. Those before it are at least as fast and those after it are not faster. |
| `Insight.InsightSmallIsMax` | sportsz/core/static/js/script.js:505-507 | With fewer than 20 speeds, the speed shown is the fastest recorded. |
| `Insight.InsightOfOneToTen` | sportsz/core/static/js/script.js:505-507 | For ten entries with speeds 1..10 the insight is 10. |
| `Dashboard.Dedup` | sportsz/core/static/js/script.js:468 | `new Set` keeps each value once and loses none. |
| `Dashboard.DedupSubsequence` | sportsz/core/static/js/script.js:468 | The deduplicated list keeps the input's relative order. |
| `Dashboard.DedupFirstSeenOrder` | sportsz/core/static/js/script.js:468 | Values are listed in increasing order of the index of their first occurrence, which is Set insertion order. |
| `Dashboard.UserSports` | sportsz/core/static/js/script.js:468 | The sport list is duplicate-free. It holds exactly the non-empty sports of the registered users. |
| `Dashboard.AppendNewOptions` | sportsz/core/static/js/script.js:470-475 | The loop keeps the current options and appends, in order, each listed sport that is not among them. |
| `Dashboard.PopulateSportOptions` | sportsz/core/static/js/script.js:464-477 | The existing options are kept. They are followed, in Set order, by exactly the non-empty user sports that are not yet options, each once. |
| `Dashboard.NewOptionsFacts` | sportsz/core/static/js/script.js:467-475 | The appended options are exactly the new non-empty sports, without duplicates. |
| `Dashboard.SportOptionsComplete` | sportsz/core/static/js/script.js:467-475 | After the refresh every non-empty user sport is an option. The options stay duplicate-free if they were before. |
| `Dashboard.AthleteRowsSpec` | sportsz/core/static/js/script.js:484-492 | The table rows are an order-preserving subsequence of the users. A user is listed if and only if both filters match. The name filter is a lower-case substring match and the sport filter is exact. |
| `Dashboard.AthleteRowsNoFilter` | sportsz/core/static/js/script.js:485-492 | A blank name filter and no selected sport list every user. |
| `Dashboard.NameFilterMeaning` | sportsz/core/static/js/script.js:485-489 | A blank name input matches every athlete. Otherwise the trimmed, lower-cased input must occur at some position of the lower-cased name. |
| `Dashboard.RenderAthleteTableSpec` | sportsz/core/static/js/script.js:493-497 | "No athletes" is shown exactly when no user matches. In that case the insight is not refreshed. |
| `Report.MaxOf` | sportsz/core/static/js/script.js:519 | `Math.max` of a non-empty list is an element of the list and at least every element. |
| `Report.TopSpeedOf` | sportsz/core/static/js/script.js:518-519 | The top-speed cell is empty exactly when no entry has both a speed and a timestamp. Otherwise it is the largest such speed. |
| `Report.GenerateReport` | sportsz/core/static/js/script.js:512-521 | There is one row per user, in order, with that user's name, age and sport. Every row has the same history-wide top speed. |
| `Assistant.ReplyTo` | sportsz/core/static/js/script.js:440-448 | The rules are tried in order on the lower-cased text. The sprint reply is given exactly when a sprint keyword occurs. The archery reply needs an archery keyword and no sprint keyword. The nutrition reply needs a nutrition keyword and neither earlier keyword. Otherwise the default reply is given. |
| `Assistant.Respond` | sportsz/core/static/js/script.js:433-449 | A blank message gets no exchange. Otherwise the exchange holds the trimmed message and the reply `ReplyTo` gives for it. |
| `Assistant.SprintBeatsNutrition` | sportsz/core/static/js/script.js:442-447 | A message containing "sprint" gets the sprint reply even when it also asks about diet. |
| `Assistant.RulesByPosition` | sportsz/core/static/js/script.js:442-446 | Each regular expression matches exactly when one of its literal keywords occurs at some position of the lower-cased text. |
| `Assistant.SprintReplyByPosition` | sportsz/core/static/js/script.js:442-443 | The sprint reply is given exactly when "100m", "100 m" or "sprint" occurs in the lower-cased message. |
| `Assistant.SprintExample` | sportsz/core/static/js/script.js:442-443 | "How do I improve my 100m and diet?" gets the sprint reply. |
| `Eligibility.ShowEligibility` | sportsz/core/static/js/script.js:225-234 | An empty selection shows nothing. A sport missing from the table shows "No info yet.". A listed sport shows its table entry's minimum age and note. |
| `Eligibility.EligibilityAges` | sportsz/core/static/js/script.js:214-223 | The table lists exactly the eight sports. Each minimum age is between 10 and 16. |
| `Eligibility.ArcheryFromTen` | sportsz/core/static/js/script.js:217 | Archery shows minimum age 10 and its note. |

## Left out

- DOM reading and rendering is not modelled: `qs`/`qsa`, `innerHTML`,
  `showSection`, the video and community feed templates, `playVideo`,
  `initDream`'s display, the news placeholder and clearing the talent form.
  Form values are parameters, and the views return datatypes instead of HTML.
- Converting form text to numbers (`Number(value || 0)`) is not modelled.
  Callers pass the resulting `Js.Number`. Infinite values are not modelled;
  they would be truthy like any non-zero number.
- Floating-point arithmetic is not modelled. The two-decimal `toFixed`
  rounding of the speed is computed by the caller and passed in. The km/h
  text, the chart's coordinates and its normalisation by the window maximum
  are also left out. `floor(n * 0.1)` is taken as the exact `n / 10`.
- Store.RunTimer.Start: the camera request before the timer starts
  (`ensureCamera`) and the `setInterval` display updates are left out. These
  are platform calls. `ensureCamera` catches its own errors, so the start
  time is recorded either way.
- Store.Storage.UploadVideo: the step is synchronous. In the script the
  duration and the data URL arrive in two later callbacks, which push onto
  the list loaded before them. A save made in between would be overwritten.
  The model does not capture that interleaving.
- Camera eye detection, notifications, confetti particles and animation
  frames are not modelled. They are platform APIs and random animation.
- `uid`, `Date.now` and `newQuote`'s random pick are not modelled. Ids and
  timestamps are parameters.
- CSV text and downloads are not modelled. This covers `exportHistory` and
  the text and Blob download of `generateReport`. The report is modelled as
  its rows plus the header constant.
- A key whose text is valid JSON of the wrong shape (for example `null` under
  the users key) is not modelled. The script would then fail at `push` or at
  a field access. `Slot.Holds` carries only well-typed values.
- `toLowerCase` is modelled on ASCII letters only.
- Records.Save: `localStorage.setItem` can throw when the storage quota is
  exceeded, and `save` does not catch it. A base64 video of a few megabytes
  can trigger this, and so can any save once storage is nearly full. The key
  then keeps its old value and the handler stops before its success message.
  The model takes every save to succeed. So `UploadVideo`, `RegisterUser`,
  `AddHistory`, `PostTalent` and `SaveDream` promise a write that the browser
  may refuse.
- Records.LoadAfterSave: `JSON.stringify` writes NaN as `null`. A NaN video
  duration or a NaN dream progress therefore loads back as `null`, not NaN.
  The round trip holds for strings and finite numbers only.
- Assistant.Respond: the reply is posted 700 ms later through `setTimeout`.
  Another message can appear in the chat between a message and its reply. The
  model pairs each message with its reply.
- Store.Storage.UploadVideo: `onloadedmetadata` never fires for a file the
  browser cannot decode. A chosen, non-duplicate file can then end with no
  outcome and no message. The model always gives one of the four outcomes.
- The eligibility lookup covers the eight table keys and absent keys. It does
  not cover inherited object properties such as `constructor`.
