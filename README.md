# Spiritual persona survey: a Dafny model of its scoring engine, session and dashboard figures

The survey asks twelve Likert questions (1 = Strongly Disagree … 7 = Strongly Agree) and
scores the respondent against twelve overlapping personas. Each persona is fed by a fixed
list of 1-based question positions, and its score is the sum of the answers at those positions.
An unanswered slot counts 0. The winner is the first persona in table order that reaches the
highest score. When several personas tie, the result is reported as a "hybrid" listing all of
them, yet only the first one's count in the aggregate tally is raised. The dashboard turns the
tally into chart rows sorted by count, a total number of responses, a "Most Common" persona and
a number of "Unique Personas".

Modules:

- `Wrappers`: `Option`, the model of JavaScript `null`.
- `Scoring` (pure part of `src/components/SpiritualSurvey.tsx`): the persona table, the slot
  read `answers[q - 1] || 0`, per-persona scores, `calculateScores`, the max / filter / map of
  `determinePersona` (`Decide`) and the functional tally update (`Tally`).
- `Survey`: class `Session` with the component's state fields (`answers`, `results`,
  `currentQuestion`, `aggregateData`, `showDashboard`) and its handlers as methods.
- `Dashboard` (`src/components/Dashboard.tsx`): `chartData` as a stable sort by non-increasing
  count, `totalResponses`, "Most Common" and "Unique Personas".

The score record is an ordered sequence of (persona, score) entries, not a map. The component
builds it by inserting the personas in table order, and JavaScript objects keep insertion order
for such keys. `determinePersona`'s tie-break depends on that order.

The tally is a `map<string, nat>` in the session. The dashboard receives it as the list of its
entries in key-insertion order, which is what `Object.entries` yields. `Dashboard.Enumerates`
ties such a list to the map.

Three behaviours of the code that the model keeps as they are:

- A tie raises only the primary persona's count in the tally, not the count of every tied
  persona (src/components/SpiritualSurvey.tsx:91-94).
- A completed sheet is scored as it was before the last answer was written, so question 12
  always counts 0 (see Findings).
- `viewDashboard` is reachable from the question screen as well as from the results screen
  (src/components/SpiritualSurvey.tsx:216), so the model lets it run in any valid state.

## Model

| member | source | states |
|---|---|---|
| `Scoring.CalculateScores` | src/components/SpiritualSurvey.tsx:76-83 | the record has one entry per persona of the table, in table order, named after it |
| `Scoring.Slot` | src/components/SpiritualSurvey.tsx:80 | `answers[q - 1] \|\| 0`: a question with no answer (unanswered or outside the sheet) reads 0; otherwise the answer stored for it |
| `Scoring.Score` | src/components/SpiritualSurvey.tsx:79-80 | a persona none of whose questions has been answered scores 0 (bounds in `Scoring.ScoreBounds`, linearity in `Scoring.UniformScore`) |
| `Scoring.PersonaNamesDistinct` | src/components/SpiritualSurvey.tsx:42-55 | the twelve persona names are pairwise distinct, so the record has exactly one entry per name |
| `Scoring.ScoreBounds` | src/components/SpiritualSurvey.tsx:79-80 | with Likert answers, a persona with k questions of which u are unanswered scores between k - u and 7(k - u) |
| `Scoring.CompleteScoreRange` | src/components/SpiritualSurvey.tsx:76-83 | on a fully answered Likert sheet every persona with k questions scores within [k, 7k] |
| `Scoring.NoneUnanswered` | src/components/SpiritualSurvey.tsx:79-80 | on a fully answered sheet no in-range question position counts as unanswered |
| `Scoring.UniformScore` | src/components/SpiritualSurvey.tsx:79-80 | scoring is linear: when every referenced answer is c, the score is c times the number of questions |
| `Scoring.BlankSlot` | src/components/SpiritualSurvey.tsx:80 | an unanswered slot counts 0: blanking slot i lowers a score by that answer once per occurrence of question i + 1 |
| `Scoring.AbsentNotCounted` | src/components/SpiritualSurvey.tsx:79-80 | a question a persona does not list never contributes to its score |
| `Scoring.OnlyTraditionalReligiousUsesLast` | src/components/SpiritualSurvey.tsx:42-55 | question 12 feeds "Traditional Religious" once and no other persona |
| `Scoring.LastSlotBlanked` | src/components/SpiritualSurvey.tsx:76-83 | blanking the 12th slot leaves every score but "Traditional Religious"'s unchanged and lowers that one by the 12th answer |
| `Scoring.MaxScore` | src/components/SpiritualSurvey.tsx:86 | `Math.max` of the scores: no entry exceeds it and some entry attains it |
| `Scoring.PositionsAt` | src/components/SpiritualSurvey.tsx:87-88 | the filter keeps, in increasing order, exactly the positions whose score equals the given one |
| `Scoring.NamesAt` | src/components/SpiritualSurvey.tsx:89 | the map keeps one name per kept position, in the same order: the i-th name is the persona of the i-th position |
| `Scoring.MaxScorePositions` | src/components/SpiritualSurvey.tsx:86-88 | filtering on the maximum keeps, ascending, every position that reaches the highest score and no other, and keeps at least one |
| `Scoring.TopPositions` | src/components/SpiritualSurvey.tsx:86-89 | the positions reaching the highest score, ascending, complete and non-empty |
| `Scoring.Decide` | src/components/SpiritualSurvey.tsx:96-100 | the result carries the scores; a hybrid list has at least two names and starts with the primary |
| `Scoring.FirstTopPosition` | src/components/SpiritualSurvey.tsx:87-97 | the first kept position is the first entry in record order to reach the highest score |
| `Scoring.PrimaryIsFirstMax` | src/components/SpiritualSurvey.tsx:86-97 | the primary is the name of the first entry reaching the highest score |
| `Scoring.HybridIffTie` | src/components/SpiritualSurvey.tsx:87-98 | hybrid is absent exactly when every other entry scores strictly below the first top scorer |
| `Scoring.HybridListsTopInOrder` | src/components/SpiritualSurvey.tsx:87-98 | a hybrid list names every top-scoring entry, and only those, in record order |
| `Scoring.SoleWinner` | src/components/SpiritualSurvey.tsx:86-98 | an entry scoring strictly above all others is the primary of a result that is not hybrid |
| `Scoring.Count` | src/components/SpiritualSurvey.tsx:93 | `prev[name] \|\| 0`: a persona without a key counts 0, one with a key its stored count |
| `Scoring.Tally` | src/components/SpiritualSurvey.tsx:91-94 | the primary's count (absent = 0) rises by exactly 1, it becomes a key, and every other key's count is unchanged |
| `Survey.BlankSheet` | src/components/SpiritualSurvey.tsx:58 | twelve slots, all unanswered |
| `Survey.Session.constructor` | src/components/SpiritualSurvey.tsx:57-68 | blank sheet, question 0, no results, dashboard hidden, tally as read from storage |
| `Survey.Session.DeterminePersona` | src/components/SpiritualSurvey.tsx:85-101 | returns the decided result and applies the tally update for its primary only |
| `Survey.Session.HandleAnswer` | src/components/SpiritualSurvey.tsx:103-114 | writes the answer only at the current question; advances by one below question 11; on question 11 scores the sheet from before the write, so on completion question 12 counts 0, records the result and updates the tally |
| `Survey.Session.ResetSurvey` | src/components/SpiritualSurvey.tsx:116-121 | blank sheet, question 0, no results, dashboard hidden; tally untouched |
| `Survey.Session.ViewDashboard` | src/components/SpiritualSurvey.tsx:123-125 | only raises the dashboard flag |
| `Survey.Session.ClearAllData` | src/components/SpiritualSurvey.tsx:127-133 | confirmed: empty tally and a reset survey; declined: no field changes |
| `Survey.TallyAddsOneResponse` | src/components/SpiritualSurvey.tsx:91-94 | each completed survey raises the sum of all counts by exactly 1, ties included |
| `Survey.IntendedResults` | src/components/SpiritualSurvey.tsx:103-112 | scoring the sheet after the last write: every persona but "Traditional Religious" scores as in the as-written result, and that one gains the 12th answer |
| `Survey.QuestionsPerPersona` | src/components/SpiritualSurvey.tsx:42-55 | "Traditional Religious" lists three questions; every other persona lists at most two |
| `Survey.SevensScores` | src/components/SpiritualSurvey.tsx:76-83 | on a sheet answered 7 throughout, each persona scores 7 per question it lists |
| `Survey.SevensSoleWinner` | src/components/SpiritualSurvey.tsx:76-100 | a sheet answered 7 throughout, every answer scored: "Traditional Religious" wins alone |
| `Survey.AsWrittenAllSevens` | src/components/SpiritualSurvey.tsx:104-111 | all answers 7 with the 12th not scored: a hybrid result whose primary is "Traditional Spiritual" |
| `Survey.IntendedAllSevens` | src/components/SpiritualSurvey.tsx:104-111 | all answers 7, all scored: "Traditional Religious" wins alone |
| `Survey.StaleReadChangesWinner` | src/components/SpiritualSurvey.tsx:104-111 | all answers 7: as written the result is a hybrid with primary "Traditional Spiritual"; scored in full, "Traditional Religious" wins alone |
| `Dashboard.Insert` | src/components/Dashboard.tsx:14 | inserting a row makes the list exactly one row longer |
| `Dashboard.InsertPermutes` | src/components/Dashboard.tsx:14 | inserting a row yields a permutation of the row plus the list |
| `Dashboard.InsertBounded` | src/components/Dashboard.tsx:14 | inserting a row of count at most m into rows of count at most m leaves every count at most m |
| `Dashboard.InsertSorted` | src/components/Dashboard.tsx:14 | inserting into a list sorted by non-increasing count keeps it sorted |
| `Dashboard.SortByCount` | src/components/Dashboard.tsx:14 | the sort returns a permutation of its input ordered by non-increasing count |
| `Dashboard.ChartData` | src/components/Dashboard.tsx:12-14 | the chart rows are a permutation of the tally's entries, ordered by non-increasing count |
| `Dashboard.InsertStable` | src/components/Dashboard.tsx:14 | inserting keeps the rows of each count in the order of the row followed by the list |
| `Dashboard.ChartDataStable` | src/components/Dashboard.tsx:14 | the sort is stable: the rows of every count keep their insertion order |
| `Dashboard.ChartEnumeratesTally` | src/components/Dashboard.tsx:12-13 | the chart holds exactly one row per tally key, with that key's count |
| `Dashboard.TotalResponses` | src/components/Dashboard.tsx:16 | the sum of the entries' counts is at least each entry's count (its equality with the tally's sum is `Dashboard.TotalResponsesIsTotal`) |
| `Dashboard.TotalRemove` | src/components/Dashboard.tsx:16 | the sum of a tally's counts can take out any one key first |
| `Dashboard.EnumeratesInit` | src/components/Dashboard.tsx:12 | dropping the last entry lists the tally without that key |
| `Dashboard.TotalResponsesIsTotal` | src/components/Dashboard.tsx:16 | "Total Responses" equals the sum of all counts in the tally, and there is one entry per key |
| `Dashboard.ChartHeadIsFirstMax` | src/components/Dashboard.tsx:12-14 | the first chart row is the first entry in insertion order with the highest count |
| `Dashboard.MostCommon` | src/components/Dashboard.tsx:34 | an empty tally shows 'N/A' |
| `Dashboard.MostCommonIsMax` | src/components/Dashboard.tsx:34 | empty tally: 'N/A'; otherwise a key with the highest count, the first such in insertion order |
| `Dashboard.UniquePersonas` | src/components/Dashboard.tsx:38 | the number of chart rows equals the number of tally entries |
| `Dashboard.UniquePersonasIsKeyCount` | src/components/Dashboard.tsx:38 | "Unique Personas" equals the number of keys in the tally |

## Findings

| source | as written | input that shows it | evidently intended | confidence | as-written member | corrected member |
|---|---|---|---|---|---|---|
| src/components/SpiritualSurvey.tsx:104-111 | `handleAnswer` stores the new sheet but then calls `calculateScores()`, which reads the `answers` captured before that write, so question 12 always counts 0 and only "Traditional Religious" is affected | all twelve answers 7: "Traditional Religious" scores 14 instead of 21 and ties with seven others; the result is a hybrid with primary "Traditional Spiritual" | the completed result scores all twelve answers, so "Traditional Religious" wins alone with 21 | not executed | `Survey.StaleReadChangesWinner` | `Survey.IntendedResults` |

`Survey.Session.HandleAnswer` keeps the as-written behaviour, because the session models what the
component does. `Survey.IntendedResults` is the corrected scoring of a completed sheet.
`Survey.StaleReadChangesWinner` shows where the two differ.

## Left out

- JSX rendering, Tailwind classes and the recharts bar and pie charts: presentation only.
- Reading and writing `localStorage` and the `JSON.parse` / `JSON.stringify` of the tally: browser I/O. The constructor takes the stored tally as a parameter, and a clear is modelled as the empty map.
- `window.confirm`: a browser dialog, modelled as the boolean parameter of `ClearAllData`.
- Percentages (`toFixed`), progress-bar and score-bar widths: floating-point display values.
- The question prompts and Likert labels: display text; only their counts (12 questions, values 1..7) are modelled.
- React's effect scheduling and state batching: the handlers are modelled as sequential updates, apart from the stale `answers` read at completion, which is modelled.
- Which buttons each screen shows: the session's methods can be called in any valid state, as the handlers themselves do not check the screen.
- Tally values other than non-negative integers, which only a hand-edited storage entry could hold.
- JavaScript numbers are doubles; all sums here are small integers and are modelled as unbounded `int`.
- `Object.entries` lists integer-like keys first in ascending order: persona names are never integer-like, so the dashboard takes the entries in the order given.
- Scoring.Decide and Survey.Session.DeterminePersona: require a non-empty score record; with an empty one the component would count a survey under the key "undefined", but its only caller passes the twelve-entry record.
- Dashboard.MostCommonIsMax: the "highest count" guarantee is stated only when no key is the empty string; with such a key at the head of the chart the component shows 'N/A', and `Dashboard.MostCommon` models that case too.
- The tally map keeps no key order, but `Object.entries` lists keys in the order the personas first won. That order decides the chart order among equal counts and the "Most Common" persona in a tie. The dashboard takes it as an input (the entry list that `Dashboard.Enumerates` ties to the map) rather than deriving it from the session, and every dashboard lemma holds for every such order.
- `src/app/page.tsx`: a layout wrapper that renders the component.
