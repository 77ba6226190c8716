# SSC Test Ace: a verified model of the exam engine and its aggregators

This project models in Dafny the logic of the SSC mock-test application
(a React front end over a Supabase/Drizzle store). It covers:

- **The exam attempt** (`TestTaking.tsx`). The attempt page is a class,
  `TestTaking.AttemptSession`, whose methods update its state in place:
  - the current question index, the seconds left, the answer map and the
    mark-for-review set;
  - scoring with negative marking: a loop over the ordered questions,
    clamped once and turned into a rounded percentage;
  - the countdown and its auto-submit;
  - restoration of stored answers and the status each handler upserts;
  - the `HH:MM:SS` rendering and the Previous/Next clamping.
- **The result aggregators** of the analytics page, the dashboard and the
  server's `getUserAnalytics`: counts, rounded and unrounded means, maxima,
  total time, improvement, the per-section reduce and the per-type reduce.
- **The catalogue**: search and section filtering, the type tabs, the
  completion badge and the no-user guard of `startTest`.
- **The password check**: a plain equality against the profile found by
  e-mail.
- **The profile page**: avatar initials, the profile-to-form defaults,
  edits, Cancel and Save.
- **The settings page**: a class with one toggle method.
- **The seed script's question generator**: nested loops, and the links
  that order the questions.

Modules and files:

| file | module | models |
|---|---|---|
| common.dfy | Common | Option/Result, `Math.round`, two-decimal rounding, sums, maxima, means, filter |
| text.dfy | Text | ASCII `toLowerCase`/`toUpperCase`, `includes`, `toString`/`padStart` of naturals |
| scoring.dfy | Scoring | the score loop, the percentage, the submission update, resubmission |
| timer.dfy | Timer | the remaining time and the one-second tick |
| answers.dfy | Answers | the answer map, the review set, the upserted statuses |
| clock.dfy | Clock | `formatTime` and the navigation buttons |
| testtaking.dfy | TestTaking | the attempt page as a class |
| analytics.dfy | Analytics | the analytics page |
| dashboard.dfy | Dashboard | the dashboard statistics |
| catalogue.dfy | Catalogue | the test catalogue |
| storage.dfy | Storage | `verifyPassword`, `getUserAnalytics` |
| profile.dfy | Profile | initials and the profile form |
| settings.dfy | Settings | the settings page as a class |
| seed.dfy | Seed | the seed question generator |

Numbers are modelled exactly: marks, penalties and percentages are `real`.
`Math.round(x)` is `Floor(x + 0.5)`, and rounding to two decimals is
`Math.round(100x) / 100`. JavaScript's `||` fallbacks are modelled as
written:

- a mark of 0 or null counts as 1;
- a penalty of 0 or null counts as 0.25;
- a null percentage counts as 0;
- a null duration counts as 0;
- an empty or missing section is 'General' (analytics) or
  'QUANTITATIVE_APTITUDE' (seed);
- an empty or missing type is 'Other'.

The design describes submitting an already completed attempt as a no-op.
The code does not do that. Its update (`TestTaking.tsx:206-217`) has no
condition on the completion flag, and the model follows the code:
`Scoring.ResubmissionOverwrites` shows a second submission overwriting the
submission time and the duration taken. Completed attempts are closed only
by the page's guards. The handlers of `TestTaking.AttemptSession` therefore
require `Open()`: it describes the page rendering the exam, that is, an
attempt that is loaded, not completed and has questions.

The design also promises that an attempt is submitted when its time is up,
and that it survives a reload. An open attempt loaded in its last second,
or after its end, gets 0 seconds (`TestTaking.tsx:124-135`). The countdown
effect installs an interval only while time is left (`TestTaking.tsx:138`),
so such an attempt is never auto-submitted: it stays open at 00:00:00 until
the user submits it. `Timer.ExpiredOnLoadNeverSubmits` states this.

## Model

| member | source | states |
|---|---|---|
| Common.Round | client/src/pages/Analytics.tsx:57 | `Math.round` lands within half a unit of its argument |
| Common.Round2 | client/src/pages/TestTaking.tsx:212 | a whole number of hundredths, in the half-open bracket of 0.005 around the argument |
| Common.Round2IsNearestCent | client/src/pages/TestTaking.tsx:212 | only one whole number of hundredths lies in that bracket, so the two facts pin `Math.round(100x) / 100` |
| Scoring.AwardFor | client/src/pages/TestTaking.tsx:194 | a correct answer earns `marks`, or 1 when marks is 0 or null |
| Scoring.PenaltyFor | client/src/pages/TestTaking.tsx:197 | a wrong answer costs `negative_marks`, or 0.25 when it is 0 or null |
| Scoring.ComputeScore | client/src/pages/TestTaking.tsx:186-199 | the `forEach` loop computes the raw total and the correct count defined question by question |
| Scoring.RawScoreAppend | client/src/pages/TestTaking.tsx:186-199 | the raw total of a concatenation is the sum of the parts, so an early penalty is carried to the end |
| Scoring.RawScoreBounds | client/src/pages/TestTaking.tsx:190-198 | with non-negative marks the raw total lies between minus all penalties and the sum of all marks, and the correct count is at most the number of questions |
| Scoring.AllCorrectEarnsMax | client/src/pages/TestTaking.tsx:192-194 | answering every question correctly earns every mark and counts every question |
| Scoring.AllBlankScoresZero | client/src/pages/TestTaking.tsx:195 | a blank sheet scores 0 with no correct answers: blanks are never penalised |
| Scoring.ZeroPenaltyStillPenalised | client/src/pages/TestTaking.tsx:197 | a question explicitly set to 0 negative marks still costs 0.25 when answered wrongly |
| Scoring.StoredScore | client/src/pages/TestTaking.tsx:211 | `Math.max(0, raw)`: the raw total when it is non-negative, 0 when it is negative |
| Scoring.ClampOnceNotAbovePerStep | client/src/pages/TestTaking.tsx:186-211 | clamping once at the end never gives more than clamping after every question |
| Scoring.EarlyPenaltyOffsetByLaterMarks | client/src/pages/TestTaking.tsx:186-211 | a wrong answer followed by a correct one keeps the penalty, where per-step clamping would lose it |
| Scoring.Percentage | client/src/pages/TestTaking.tsx:202-204 | 0 with no or zero total marks; otherwise never negative, total marks times it is 100 times the raw score when that is non-negative, and at most 100 when the raw score does not exceed the total |
| Scoring.StoredPercentage | client/src/pages/TestTaking.tsx:212 | the stored percentage is a whole number of hundredths within the half-open 0.005 bracket of the percentage (so the two-decimal rounding of it), never negative, and at most 100 when the raw score does not exceed the total |
| Scoring.SubmissionUpdate | client/src/pages/TestTaking.tsx:183-216 | fails exactly without attempt id or user; otherwise marks the attempt completed at the given time, with the score `Math.max(0, raw)` (0 for a negative raw total), the stored percentage and the duration minus the whole minutes left, all 0 while no test is loaded |
| Scoring.ApplySubmission | client/src/pages/TestTaking.tsx:206-217 | the update changes only the addressed row, and only its submission columns, whatever its completion flag |
| Scoring.ResubmissionOverwrites | client/src/pages/TestTaking.tsx:206-217 | a second submission keeps score and percentage but overwrites the submission time and, when the minutes left differ, the duration taken |
| Scoring.ThreeQuestionScenario | client/src/pages/TestTaking.tsx:186-212 | marks 2, 2 and 1 with one right, one wrong and one blank give 1.5 points, stored as 30% of 5 |
| Timer.RemainingMillis | client/src/pages/TestTaking.tsx:126-131 | the milliseconds left are 0 exactly once the end time is reached, otherwise the end time minus now |
| Timer.InitialRemaining | client/src/pages/TestTaking.tsx:132 | the whole seconds left bracket the milliseconds left, are 0 exactly in the last second, and never exceed the duration once started |
| Timer.RemainingNonIncreasing | client/src/pages/TestTaking.tsx:124-133 | a later load never shows more time left |
| Timer.TimerAfterLoad | client/src/pages/TestTaking.tsx:124-134 | the clock is set only for an uncompleted attempt |
| Timer.TickOnce | client/src/pages/TestTaking.tsx:137-146 | a tick counts down by one above 1, sets 0 and submits at 1, and does nothing at 0 or once completed |
| Timer.ExpiryFiresOnce | client/src/pages/TestTaking.tsx:137-151 | from r seconds, k ticks show r - k with no submission while k < r, and 0 with exactly one submission afterwards |
| Timer.StoppedClockStaysStopped | client/src/pages/TestTaking.tsx:138 | a clock at 0 or a completed attempt never ticks or submits |
| Timer.ExpiredOnLoadNeverSubmits | client/src/pages/TestTaking.tsx:124-150 | an open attempt loaded in its last second or later shows 0, and no number of ticks submits it |
| Timer.TenMinuteExpiry | client/src/pages/TestTaking.tsx:124-146 | a ten-minute attempt loaded at its start shows 600 seconds and submits on the 600th tick only |
| Answers.OrNull | client/src/pages/TestTaking.tsx:167 | `answer \|\| null` keeps exactly the non-empty selections |
| Answers.AnswerMapOfSpec | client/src/pages/TestTaking.tsx:109-112 | the restored map has a key exactly when some row selects an answer for it, with the value of the last such row |
| Answers.RestoreAnswers | client/src/pages/TestTaking.tsx:104-121 | the restoration loop builds the answer map and the set of questions stored as MARKED_FOR_REVIEW |
| Answers.MarkedRowStaysMarked | client/src/pages/TestTaking.tsx:113-115 | a MARKED_FOR_REVIEW row anywhere keeps its question in the restored review set, whatever rows follow |
| Answers.RowOf | client/src/pages/TestTaking.tsx:162-170 | the stored row carries the payload's question, selection and status |
| Answers.SaveAsWritten | client/src/pages/TestTaking.tsx:162-170 | a save without id or conflict target appends one row and keeps the others |
| Answers.UnmarkedQuestionRestoredAsMarked | client/src/pages/TestTaking.tsx:109-116 | as written, mark then unmark sends a non-marked status last, yet reloading restores the question as marked |
| Answers.FindRow | client/src/pages/TestTaking.tsx:162-170 | the first row of the question, or none |
| Answers.KeyedSaveRestoresLastStatus | client/src/pages/TestTaking.tsx:162-170 | a save keyed by question keeps one row per question; the saved question is restored as marked exactly when the save sent MARKED_FOR_REVIEW; other marks are unchanged |
| Answers.KeyedUnmarkRestoredUnmarked | client/src/pages/TestTaking.tsx:240-255 | with the keyed save, mark then unmark is restored as unmarked |
| Answers.ToggleReview | client/src/pages/TestTaking.tsx:241-246 | the toggle flips membership of exactly the chosen question |
| Answers.ToggleReviewTwice | client/src/pages/TestTaking.tsx:241-247 | toggling the same question twice restores the set |
| Answers.ReviewStatus | client/src/pages/TestTaking.tsx:252-253 | the status sent after a toggle is never ANSWERED_AND_MARKED |
| Answers.ReviewStatusMatchesDisplay | client/src/pages/TestTaking.tsx:313-317 | the status sent and the navigator's colour agree on every question |
| Answers.AnswerChangeRequest | client/src/pages/TestTaking.tsx:233-237 | an answer change upserts ANSWERED with the selection, null when empty |
| Answers.MarkRequest | client/src/pages/TestTaking.tsx:249-254 | MARKED_FOR_REVIEW exactly when marked, else ANSWERED exactly when a selection exists, else NOT_ATTEMPTED |
| Answers.UnmarkRevertsStatus | client/src/pages/TestTaking.tsx:240-254 | marking then unmarking sends MARKED_FOR_REVIEW, then the status the question had before |
| Clock.PartsOf | client/src/pages/TestTaking.tsx:262-264 | minutes and seconds are below 60 and hours, minutes and seconds recompose the total |
| Clock.FormatTime | client/src/pages/TestTaking.tsx:261-266 | the rendering has colons at the fixed places from the end, is 8 characters below 100 hours, and its minute and second fields are two digits reading below 60 |
| Clock.ParseTimeOfParts | client/src/pages/TestTaking.tsx:265 | a clock string with minute and second fields below 60 splits back into its three digit fields |
| Clock.ClockStringUnique | client/src/pages/TestTaking.tsx:261-266 | below 100 hours the rendering is the only eight-character clock string, with fields below 60, for its seconds |
| Clock.FormatTimeRoundTrip | client/src/pages/TestTaking.tsx:261-266 | reading the rendered time gives back the seconds |
| Clock.Previous | client/src/pages/TestTaking.tsx:451 | Previous moves back by one, never below 0 |
| Clock.Next | client/src/pages/TestTaking.tsx:458 | Next moves forward by one, never past the last question |
| Clock.NavigationStaysInRange | client/src/pages/TestTaking.tsx:451-459 | both buttons keep the index valid, move it by at most one, and stay put exactly at their boundary |
| TestTaking.AttemptSession.constructor | client/src/pages/TestTaking.tsx:32-35 | the page starts at question 0 with no time, no answers and no marks |
| TestTaking.AttemptSession.LoadExistingAnswers | client/src/pages/TestTaking.tsx:104-121 | stored rows, when any, replace answers and marks by the restored ones; nothing else changes |
| TestTaking.AttemptSession.InitTimer | client/src/pages/TestTaking.tsx:124-134 | the clock is set from start, duration and now only for an uncompleted attempt |
| TestTaking.AttemptSession.Tick | client/src/pages/TestTaking.tsx:137-147 | one interval firing performs the tick, and submits exactly when an open attempt had 1 second left |
| TestTaking.ClosedAttemptIsInert | client/src/pages/TestTaking.tsx:124-147 | a completed attempt's session shows 0 seconds, is not open, and a tick does not submit it |
| TestTaking.TenMinuteAttempt | client/src/pages/TestTaking.tsx:124-147 | a ten-minute attempt loaded at its start shows 600 seconds, then 599 after one tick, without submitting |
| TestTaking.AttemptSession.AnswerChange | client/src/pages/TestTaking.tsx:231-238 | only the chosen question's answer changes, and the ANSWERED row is returned |
| TestTaking.AttemptSession.MarkForReview | client/src/pages/TestTaking.tsx:240-255 | the review set is toggled and the row carries the status derived after the toggle |
| TestTaking.AttemptSession.GoPrevious | client/src/pages/TestTaking.tsx:451 | the index moves back as Previous says and stays a valid question index |
| TestTaking.AttemptSession.GoNext | client/src/pages/TestTaking.tsx:458 | the index moves forward as Next says and stays a valid question index |
| TestTaking.AttemptSession.GoTo | client/src/pages/TestTaking.tsx:493 | a navigator button selects its question |
| TestTaking.AttemptSession.Submit | client/src/pages/TestTaking.tsx:181-217 | submission scores the current answers in question order and builds the completed row update |
| Analytics.Summarize | client/src/pages/Analytics.tsx:54-66 | count; rounded mean within 0.5 of the mean; best attained and above all; total minutes with null as 0; last minus first from two attempts, else 0; zeros when empty |
| Analytics.SummaryScoresInRange | client/src/pages/Analytics.tsx:56-61 | with percentages in [0, 100] the average and the best are too |
| Analytics.TotalTimeAppend | client/src/pages/Analytics.tsx:62 | one more attempt adds exactly its own minutes |
| Analytics.ShortName | client/src/pages/Analytics.tsx:73 | the label is the first 15 characters plus "..." (at most 18), "undefined..." without a title |
| Analytics.PerformanceData | client/src/pages/Analytics.tsx:69-74 | point i is test i+1 with the i-th attempt's percentage, in order |
| Analytics.SectionKey | client/src/pages/Analytics.tsx:78 | a missing or empty section is grouped as 'General' |
| Analytics.FindSection | client/src/pages/Analytics.tsx:79 | the first entry of the section, or none |
| Analytics.SectionPerformance | client/src/pages/Analytics.tsx:77-86 | the in-place reduce yields the section grouping folded over the attempts |
| Analytics.SectionFoldCorrect | client/src/pages/Analytics.tsx:77-86 | one entry per section met, each counting its attempts and summing their percentages with the rounded mean, the counts adding up to the number of attempts |
| Analytics.TypeKey | client/src/pages/Analytics.tsx:92 | a missing or empty type is counted as 'Other' |
| Analytics.FindType | client/src/pages/Analytics.tsx:93 | `find` gives the first entry with the name, or none |
| Analytics.TestTypeData | client/src/pages/Analytics.tsx:91-100 | the in-place reduce yields the type distribution folded over the attempts |
| Analytics.FirstSeen | client/src/pages/Analytics.tsx:97 | the first position at which a type occurs |
| Analytics.TypeFoldCorrect | client/src/pages/Analytics.tsx:91-100 | one entry per distinct type in first-seen order, each counting its attempts, the counts adding up to the number of attempts |
| Analytics.TypeNamesDistinct | client/src/pages/Analytics.tsx:93-98 | no type has two entries |
| Dashboard.OwnRows | client/src/pages/Dashboard.tsx:44 | only the user's rows |
| Dashboard.RecentAttempts | client/src/pages/Dashboard.tsx:31-46 | the first five of the user's rows newest first, all of them when fewer |
| Dashboard.CompletedCountIsFilterLength | client/src/pages/Dashboard.tsx:57 | the completed count is the length of the `is_completed` filter |
| Dashboard.CompletedCountBounds | client/src/pages/Dashboard.tsx:57 | the completed count is at most the total; equal exactly when all are completed, 0 exactly when none is |
| Dashboard.DashboardStats | client/src/pages/Dashboard.tsx:55-64 | count; completed is the number of completed attempts, at most count and equal exactly when all are; rounded mean with null as 0; best attained and above all; zeros when empty |
| Dashboard.StatsInRange | client/src/pages/Dashboard.tsx:58-63 | with percentages in [0, 100] the average and the best are too |
| Dashboard.CompletionProgress | client/src/pages/Dashboard.tsx:196 | the progress lies in [0, 100], is the completed share of 100, 0 without attempts, 100 when all are completed |
| Dashboard.FractionAtMostOne | client/src/pages/Dashboard.tsx:194 | a count over a larger count lies in [0, 1] |
| Dashboard.CompletionRate | client/src/pages/Dashboard.tsx:194 | the rate lies in [0, 100], within 0.5 of the progress, 0 without attempts or completions, 100 when all are completed |
| Catalogue.FilteredTests | client/src/pages/Tests.tsx:93-98 | only catalogue tests passing both conditions, never more than the catalogue |
| Catalogue.FilteredTestsSpec | client/src/pages/Tests.tsx:93-98 | a test is listed exactly when it passes the search and the section condition |
| Catalogue.SearchIgnoresTermCase | client/src/pages/Tests.tsx:94-95 | the search does not depend on the case of the term |
| Catalogue.InitialFilterShowsAll | client/src/pages/Tests.tsx:28-29 | the empty term with 'ALL' lists every test in order |
| Catalogue.OfType | client/src/pages/Tests.tsx:102-105 | a tab holds only listed tests of its type |
| Catalogue.GroupByType | client/src/pages/Tests.tsx:101-106 | each tab holds only listed tests of its type |
| Catalogue.GroupMembership | client/src/pages/Tests.tsx:101-106 | a listed test is in its type's tab exactly, and a test of an untabbed type such as MINI_QUIZ is in none |
| Catalogue.GroupSizes | client/src/pages/Tests.tsx:101-106 | the tab sizes and the untabbed tests add up to the listed tests |
| Catalogue.TabIsOneFilter | client/src/pages/Tests.tsx:93-106 | a tab is the catalogue filtered by search, section and type at once, so it keeps catalogue order |
| Catalogue.GetCompletionStatus | client/src/pages/Tests.tsx:118-121 | completed exactly when some attempt of the test is completed, with the score of the first such attempt |
| Catalogue.StartTest | client/src/pages/Tests.tsx:63-78 | nothing is inserted without a user; otherwise an uncompleted attempt of the test, started now |
| Storage.ProfileByEmail | server/storage.ts:15-18 | none exactly when no profile has the e-mail, else the first that does |
| Storage.VerifyPassword | server/storage.ts:25-33 | a returned profile is stored and has the e-mail and that exact password |
| Storage.UnknownEmailRejected | server/storage.ts:26-27 | an unknown e-mail gives null |
| Storage.PasswordDecides | server/storage.ts:29-32 | the profile on an exact match, null on a mismatch |
| Storage.UniqueEmailLogin | server/storage.ts:25-33 | with unique e-mails a profile is accepted exactly with its own password |
| Storage.CompletedAttempts | server/storage.ts:62-66 | only the user's completed attempts |
| Storage.GetUserAnalytics | server/storage.ts:128-141 | count of completed attempts; unrounded mean of their percentages; best attained and above all; total minutes with null as 0; zeros when none |
| Storage.AverageTimesCount | server/storage.ts:133-135 | the average times the number of completed attempts equals the sum of their percentages |
| Storage.IgnoredRowChangesNothing | server/storage.ts:62-66 | rows of other users or unfinished attempts do not change the analytics |
| Storage.CompletedRowCounts | server/storage.ts:128-141 | one more completed attempt counts once, adds its minutes and bounds the best from below |
| Storage.AverageInRange | server/storage.ts:133-138 | with percentages in [0, 100] the average and the best are too |
| Profile.Split | src/pages/Profile.tsx:117 | `split(' ')` always gives at least one piece |
| Profile.WordStarts | src/pages/Profile.tsx:116-120 | the word starts are non-space characters of the name, never more than it |
| Profile.FirstsOfSplit | src/pages/Profile.tsx:117-119 | splitting on spaces and joining first characters gives exactly the word starts |
| Profile.GetInitials | src/pages/Profile.tsx:114-122 | "U" for the empty name; otherwise exactly the first two of the upper-cased word starts, or all of them when there are fewer; no lower-case letter |
| Profile.BlankNameHasNoInitials | src/pages/Profile.tsx:116-121 | a name of spaces only has empty initials |
| Profile.AllSpacesNoStarts | src/pages/Profile.tsx:117-118 | spaces start no word |
| Profile.TwoWordInitials | src/pages/Profile.tsx:114-122 | "rahul kumar" gives "RK" |
| Profile.OneWordInitial | src/pages/Profile.tsx:114-122 | "rahul" gives "R" |
| Profile.TwoWordStarts | src/pages/Profile.tsx:117-119 | the word starts of "rahul kumar" are "rk" |
| Profile.FirstWordStart | src/pages/Profile.tsx:117-119 | a single word starts once |
| Profile.SecondWordStart | src/pages/Profile.tsx:117-119 | a space then a word gives that word's start |
| Profile.FallbackInitials | src/pages/Profile.tsx:157 | the avatar's fallback "User" gives "U" |
| Profile.WordStartsAppend | src/pages/Profile.tsx:117-119 | after a non-space, the word starts of a concatenation continue in the second part |
| Profile.WordStartsNotAtStart | src/pages/Profile.tsx:117-119 | the rest of a word contributes no start |
| Profile.AvatarName | src/pages/Profile.tsx:157 | the avatar's name is the profile's name when non-empty, else the metadata name when non-empty, else "User"; never empty |
| Profile.AvatarInitialsFromName | src/pages/Profile.tsx:157 | the avatar shows the initials of a non-empty name, never the "U" of an empty one |
| Profile.InitialForm | src/pages/Profile.tsx:53-63 | the form starts empty with SSC_CGL and ENGLISH |
| Profile.FormFromProfile | src/pages/Profile.tsx:68-73 | each null column takes its default |
| Profile.EmptyProfileGivesInitialForm | src/pages/Profile.tsx:59-73 | an all-null profile gives the initial form |
| Profile.FormAfterLoad | src/pages/Profile.tsx:66-75 | the form is replaced only when a profile loaded |
| Profile.ApplyEdit | src/pages/Profile.tsx:110-112 | an input change sets exactly its field |
| Profile.Cancel | src/pages/Profile.tsx:312-322 | Cancel leaves editing and resets the form from the loaded profile, when there is one |
| Profile.CancelDiscardsEdits | src/pages/Profile.tsx:312-322 | whatever was edited, Cancel restores the loaded profile's form |
| Profile.SavedProfile | src/pages/Profile.tsx:84-90 | the upserted row carries every form field |
| Profile.SaveThenReload | src/pages/Profile.tsx:66-90 | the row built from a form maps back to that form |
| Settings.Flip | client/src/pages/Settings.tsx:34 | the chosen setting is negated and every other is unchanged |
| Settings.SameSettings | client/src/pages/Settings.tsx:25-31 | two records agreeing on all five keys are equal |
| Settings.FlipTwice | client/src/pages/Settings.tsx:33-34 | flipping the same setting twice restores the record |
| Settings.FlipsCommute | client/src/pages/Settings.tsx:33-34 | flips of two settings commute |
| Settings.SettingsPage.constructor | client/src/pages/Settings.tsx:25-31 | notifications on, e-mail updates off, dark mode off, sound on, auto-submit on |
| Settings.SettingsPage.HandleSettingChange | client/src/pages/Settings.tsx:33-36 | exactly the chosen setting is negated |
| Seed.Questions | server/seed-data.ts:109-136 | n questions, the k-th being question number k+1 |
| Seed.GenerateQuestions | server/seed-data.ts:106-136 | the loop generates `totalQuestions` questions, 10 when 0 or null, none when negative, numbered from 1, each with a key from A to D, 5 marks in a MINI_QUIZ and 2 otherwise, penalty 0.5 and the test's section |
| Seed.AnswersCycle | server/seed-data.ts:126 | every key lies in A-D and repeats every four questions, cycling B, C, D, A from question 1 |
| Seed.ExplanationNamesQuestion | server/seed-data.ts:127 | the explanation ends with the question's number in decimal |
| Seed.LinkQuestions | server/seed-data.ts:142-146 | one link per question, to its test and to that question |
| Seed.LinkOrders | server/seed-data.ts:145 | the orders are exactly 1 to n, increasing along the questions |
| Seed.SeedQuestions | server/seed-data.ts:105-149 | the outer loop yields every test's questions and links in insertion order |
| Seed.LinksMatchQuestions | server/seed-data.ts:142-146 | link k names question k and the question's own test |
| Seed.QuestionsBelongToTests | server/seed-data.ts:105-136 | every generated question belongs to one of the tests |
| Seed.QuestionIdsDistinct | server/seed-data.ts:110 | a sanity check on the stand-in id only: with distinct test ids no two generated questions share one (the real `uuidv4()` ids are random) |
| Seed.ScoringQuestions | server/seed-data.ts:126-132 | the scoring view of each generated question |
| Seed.MaxScoreUniform | server/seed-data.ts:131 | n questions of m marks each can earn n times m |
| Seed.MaxScoreOfQuestions | server/seed-data.ts:107-132 | a test's generated questions can earn count times marks, and are well formed |
| Seed.DeclaredMarksMismatch | server/seed-data.ts:44-99 | as declared, only the full-length test and the mini quiz carry the marks their questions add up to |
| Seed.SectionalPerfectScoreIsHalf | server/seed-data.ts:55-65 | as declared, the quantitative sectional test is stored as at most 50%, and as 50% for a perfect sheet |
| Seed.CorrectedMarksConsistent | server/seed-data.ts:44-99 | with the corrected totals every seeded test's total equals what its questions carry |
| Seed.FullMarksStoredAsHundred | client/src/pages/TestTaking.tsx:202-212 | a raw score equal to the total marks is stored as 100% |
| Seed.PerfectScoreIsFull | server/seed-data.ts:105-136 | with a consistent total the stored percentage is at most 100, and 100 for a perfect sheet |
| Seed.CorrectedSeedPerfectScores | server/seed-data.ts:44-99 | every corrected seeded test is stored as 100% for a perfect sheet |

## Left out

- The Supabase, Drizzle and fetch calls. Each table read is a sequence given
  as input, and each write is the row or update the code builds. The store
  behind them is not part of this model.
- The orderings the store applies (`started_at` descending, `submitted_at`,
  `question_order`, `created_at`) are not modelled as sorting: the rows come
  in already ordered. `getCompletedTestAttempts`' ordering does not affect
  its aggregates.
- The `question_attempts` store is a sequence of rows. The upsert's payload
  has no `id` and no conflict target, and the table's key is a random uuid
  with no unique (attempt, question) pair (`shared/schema.ts:112-121`), so
  each save appends a row (`Answers.SaveAsWritten`). Restoration visits the
  returned rows in save order: the answer map keeps the last truthy
  selection per question, while the review set holds a question when ANY of
  its rows is MARKED_FOR_REVIEW. The order in which the store returns rows
  is not modelled (there is no order clause).
- The `profiles` upsert (`Profile.tsx:82-89`) is modelled as the row it
  builds. It sends no conflict target, so whether the store replaces the
  user's existing row is not modelled.
- The dashboard's query calls `supabase` (`Dashboard.tsx:31`), but the file
  imports only `api` (`Dashboard.tsx:20`). Read as written, the query would
  throw and the statistics would stay at their empty values; nothing was
  executed. The model takes the query as returning the user's rows.
- Wall-clock reads (`Date.now()`, `new Date()`) are parameters. Date
  parsing and `toLocaleDateString` are left out: `started_at` is a number of
  milliseconds, and the chart's date label is not modelled.
- Floating point: sums, quotients and percentages are exact reals, so
  binary rounding errors of JavaScript numbers are not captured.
- `toLowerCase`/`toUpperCase` are modelled on ASCII letters only, with no
  Unicode case mapping. A string is a sequence of Unicode scalar values, while
  `substring(0, 15)` (Analytics.tsx:73) and `word[0]` (Profile.tsx:118) count
  UTF-16 code units; the two differ for titles or names holding characters
  outside the Basic Multilingual Plane, such as emoji, which the model does not capture.
- `uuidv4()` in the seed is replaced by an id built from the test and the
  question number. It is distinct by construction, where the real id is
  random.
- The seed's Hindi texts, option labels, difficulty and question type are
  constant columns with no behaviour, and are not modelled. The seed's topic
  inserts, logging and error rethrow are also left out.
- React rendering, toasts, navigation after submit, charts, the progress
  bar of the current question, the delete/export buttons of the settings
  page and the sign-out are left out.
- Races between the timer's submit and a manual submit, and effect
  re-runs: concurrency that the code does not guard against.
- The mutations' error branches (a store error is thrown and shown as a
  toast) are not modelled. Only the missing-data error of submission is.
- `Object.values(sectionPerformance)` is modelled as the entries in the
  order their sections are first met.
- HTTP routing, the JWT middleware and the client's authentication hook
  are left out.
- Scoring.ApplySubmission: the row is keyed by attempt id in a map. Row
  columns that submission does not write are carried over unchanged.

## Findings

| source | as written | input that shows it | evidently intended | confidence | as-written member | corrected member |
|---|---|---|---|---|---|---|
| server/seed-data.ts:62-63,73-74,95-96 | the sectional tests declare 100 total marks (English 75), but the generator gives each of their 25 (15) questions 2 marks, so they carry only 50 (30) | a perfect answer sheet for "Quantitative Aptitude - Sectional Test" is stored as 50% | each declared total equals count times marks, as for the full-length test (100 x 2 = 200) and the mini quiz (10 x 5 = 50) | not executed | Seed.SectionalPerfectScoreIsHalf | Seed.PerfectScoreIsFull |
| client/src/pages/TestTaking.tsx:162-170 | the answer upsert sends no row id and no conflict target, and the table has no unique (attempt, question) key, so every save adds a row; restoration marks a question when any of its rows is MARKED_FOR_REVIEW | mark a question for review, then unmark it, then reload: the saved rows are MARKED_FOR_REVIEW then ANSWERED (or NOT_ATTEMPTED), and the question is shown as marked again | one row per question, replaced by each save, so a reload restores the last status sent | not executed | Answers.UnmarkedQuestionRestoredAsMarked | Answers.KeyedUnmarkRestoredUnmarked |
