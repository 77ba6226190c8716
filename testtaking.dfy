/** The exam-attempt page (TestTaking.tsx) as an object: the loaded attempt
    and its ordered questions, and the page state its handlers and effects
    update in place (current question, seconds left, answers, review set). */
module TestTaking {
  import opened Common
  import opened Scoring
  import opened Timer
  import opened Answers
  import opened Clock

  class AttemptSession {
    /** The test's questions in `question_order`. */
    const questions: seq<Question>
    /** The joined test columns of the attempt. */
    const test: TestInfo
    const startedAtMs: int
    /** `testAttempt.is_completed` as loaded. */
    const completed: bool

    var currentIndex: int
    var timeRemaining: nat
    var answers: map<string, string>
    var markedForReview: set<string>

    /** The current question index points at a question (or is the initial 0). */
    ghost predicate Valid()
      reads this
    {
      currentIndex == 0 || 0 <= currentIndex < |questions|
    }

    /** The page renders the exam (and so its handlers) only for a loaded,
        non-empty, uncompleted attempt; otherwise it shows "Test Not Found"
        or "Test Completed". */
    predicate Open()
    {
      !completed && |questions| > 0
    }

    /** The initial `useState` values. */
    constructor (questions: seq<Question>, test: TestInfo, startedAtMs: int, completed: bool)
      ensures Valid()
      ensures this.questions == questions && this.test == test
      ensures this.startedAtMs == startedAtMs && this.completed == completed
      ensures currentIndex == 0 && timeRemaining == 0
      ensures answers == map[] && markedForReview == {}
    {
      this.questions := questions;
      this.test := test;
      this.startedAtMs := startedAtMs;
      this.completed := completed;
      currentIndex := 0;
      timeRemaining := 0;
      answers := map[];
      markedForReview := {};
    }

    /** The restoration effect: replace the answer map and the review set by
        those rebuilt from the stored rows, when there are any. */
    method LoadExistingAnswers(rows: seq<AnswerRow>)
      requires Valid()
      modifies this
      ensures Valid()
      ensures |rows| > 0 ==> answers == AnswerMapOf(rows) && markedForReview == ReviewSetOf(rows)
      ensures |rows| == 0 ==> answers == old(answers) && markedForReview == old(markedForReview)
      ensures currentIndex == old(currentIndex) && timeRemaining == old(timeRemaining)
    {
      if |rows| > 0 {
        var answerMap, reviewSet := RestoreAnswers(rows);
        answers := answerMap;
        markedForReview := reviewSet;
      }
    }

    /** The timer initialisation effect, at wall-clock time `nowMs`. */
    method InitTimer(nowMs: int)
      requires Valid()
      modifies this
      ensures Valid()
      ensures timeRemaining == TimerAfterLoad(old(timeRemaining), completed, startedAtMs, test.durationMinutes, nowMs)
      ensures completed ==> timeRemaining == old(timeRemaining)
      ensures currentIndex == old(currentIndex) && answers == old(answers) && markedForReview == old(markedForReview)
    {
      if !completed {
        timeRemaining := InitialRemaining(startedAtMs, test.durationMinutes, nowMs);
      }
    }

    /** One firing of the one-second interval; `fireSubmit` reports that it
        called `handleSubmitTest`. */
    method Tick() returns (fireSubmit: bool)
      requires Valid()
      modifies this
      ensures Valid()
      ensures Timer.Tick(timeRemaining, fireSubmit) == TickOnce(old(timeRemaining), completed)
      ensures fireSubmit <==> !completed && old(timeRemaining) == 1
      ensures currentIndex == old(currentIndex) && answers == old(answers) && markedForReview == old(markedForReview)
    {
      fireSubmit := false;
      if timeRemaining > 0 && !completed {
        if timeRemaining <= 1 {
          fireSubmit := true;
          timeRemaining := 0;
        } else {
          timeRemaining := timeRemaining - 1;
        }
      }
    }

    /** `handleAnswerChange`: record the selection for one question and
        return the row it upserts. */
    method AnswerChange(qid: string, answer: string) returns (req: SaveRequest)
      requires Valid() && Open()
      modifies this
      ensures Valid()
      ensures answers == old(answers)[qid := answer]
      ensures forall other :: other != qid ==> Lookup(answers, other) == Lookup(old(answers), other)
      ensures req == AnswerChangeRequest(qid, answer)
      ensures currentIndex == old(currentIndex) && timeRemaining == old(timeRemaining)
      ensures markedForReview == old(markedForReview)
    {
      answers := answers[qid := answer];
      req := AnswerChangeRequest(qid, answer);
    }

    /** `handleMarkForReview`: toggle the question's review mark and return
        the row it upserts, carrying the status derived after the toggle. */
    method MarkForReview(qid: string) returns (req: SaveRequest)
      requires Valid() && Open()
      modifies this
      ensures Valid()
      ensures markedForReview == ToggleReview(old(markedForReview), qid)
      ensures req == MarkRequest(markedForReview, answers, qid)
      ensures currentIndex == old(currentIndex) && timeRemaining == old(timeRemaining)
      ensures answers == old(answers)
    {
      var newMarked := ToggleReview(markedForReview, qid);
      markedForReview := newMarked;
      req := MarkRequest(newMarked, answers, qid);
    }

    /** The Previous button. */
    method GoPrevious()
      requires Valid() && Open()
      modifies this
      ensures Valid()
      ensures currentIndex == Previous(old(currentIndex))
      ensures 0 <= currentIndex < |questions|
      ensures timeRemaining == old(timeRemaining) && answers == old(answers) && markedForReview == old(markedForReview)
    {
      NavigationStaysInRange(currentIndex, |questions|);
      currentIndex := if currentIndex - 1 < 0 then 0 else currentIndex - 1;
    }

    /** The Next button. */
    method GoNext()
      requires Valid() && Open()
      modifies this
      ensures Valid()
      ensures currentIndex == Next(old(currentIndex), |questions|)
      ensures 0 <= currentIndex < |questions|
      ensures timeRemaining == old(timeRemaining) && answers == old(answers) && markedForReview == old(markedForReview)
    {
      NavigationStaysInRange(currentIndex, |questions|);
      var n := |questions|;
      currentIndex := if n - 1 < currentIndex + 1 then n - 1 else currentIndex + 1;
    }

    /** A click on a navigator button, which exists for indices of questions only. */
    method GoTo(index: nat)
      requires Valid() && Open()
      requires index < |questions|
      modifies this
      ensures Valid()
      ensures currentIndex == index
      ensures timeRemaining == old(timeRemaining) && answers == old(answers) && markedForReview == old(markedForReview)
    {
      currentIndex := index;
    }

    /** `submitTestMutation`: score the current answers in question order and
        build the row update, at wall-clock time `nowMs`. The page exists only
        with an attempt id and a signed-in user, and nothing here consults the
        completion flag. */
    method Submit(nowMs: int) returns (totalScore: real, correctAnswers: nat, update: AttemptUpdate)
      ensures totalScore == RawScore(questions, answers)
      ensures correctAnswers == CorrectCount(questions, answers)
      ensures SubmissionUpdate(true, totalScore, Some(test), timeRemaining, nowMs) == Ok(update)
      ensures update.isCompleted && update.submittedAt == nowMs && update.totalScore >= 0.0
      ensures update.percentage == StoredPercentage(totalScore, test.totalMarks)
    {
      totalScore, correctAnswers := ComputeScore(questions, answers);
      var r := SubmissionUpdate(true, totalScore, Some(test), timeRemaining, nowMs);
      update := r.value;
    }
  }

  /** A completed attempt is closed on the client: loading its timer and
      ticking leave everything unchanged and never submit. */
  method ClosedAttemptIsInert(questions: seq<Question>, test: TestInfo, startedAtMs: int, nowMs: int)
    returns (remaining: nat, fired: bool, open: bool)
    ensures remaining == 0 && !fired && !open
  {
    var s := new AttemptSession(questions, test, startedAtMs, true);
    s.InitTimer(nowMs);
    fired := s.Tick();
    remaining, open := s.timeRemaining, s.Open();
  }

  /** An open ten-minute attempt loaded at its start time: 600 seconds, and
      the 600th tick is the one that submits. */
  method TenMinuteAttempt(questions: seq<Question>, startedAtMs: int)
    returns (loaded: nat, afterTick: nat, fired: bool)
    ensures loaded == 600 && afterTick == 599 && !fired
  {
    var s := new AttemptSession(questions, TestInfo(10, Some(100)), startedAtMs, false);
    s.InitTimer(startedAtMs);
    loaded := s.timeRemaining;
    fired := s.Tick();
    afterTick := s.timeRemaining;
  }
}
