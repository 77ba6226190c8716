/** Per-question answer state of an attempt (TestTaking.tsx): the answer map
    and the mark-for-review set, their restoration from stored rows, the
    status each change sends to the store, and the navigator's status. */
module Answers {
  import opened Common

  /** The stored `attempt_status` values. */
  datatype AttemptStatus = NotAttempted | Answered | MarkedForReview | AnsweredAndMarked

  /** A stored `question_attempts` row, as read back for restoration. */
  datatype AnswerRow = AnswerRow(questionId: string, selectedAnswer: Option<string>, status: Option<AttemptStatus>)

  /** The payload `saveAnswerMutation` upserts: `selected_answer` is
      `answer || null`. */
  datatype SaveRequest = SaveRequest(questionId: string, selectedAnswer: Option<string>, status: AttemptStatus)

  /** A JavaScript-truthy selection: present and non-empty. */
  predicate Truthy(s: Option<string>)
  {
    s.Some? && s.value != ""
  }

  /** The lookup `answers[questionId]` as a nullable value. */
  function Lookup(answers: map<string, string>, qid: string): Option<string>
  {
    if qid in answers then Some(answers[qid]) else None
  }

  /** `answer || null`. */
  function OrNull(answer: Option<string>): (r: Option<string>)
    ensures Truthy(answer) <==> r.Some?
    ensures r.Some? ==> r == answer && r.value != ""
  {
    if Truthy(answer) then answer else None
  }

  /** The row selects an answer for `qid` that restoration keeps. */
  predicate SelectsFor(row: AnswerRow, qid: string)
  {
    row.questionId == qid && Truthy(row.selectedAnswer)
  }

  /** `answerMap` after visiting the rows in order: a truthy selection
      overwrites the key; a later row for the same question wins. */
  function AnswerMapOf(rows: seq<AnswerRow>): map<string, string>
  {
    if rows == [] then map[]
    else
      var m := AnswerMapOf(rows[..|rows| - 1]);
      var last := rows[|rows| - 1];
      if Truthy(last.selectedAnswer) then m[last.questionId := last.selectedAnswer.value] else m
  }

  /** `reviewSet`: the questions of the rows whose status is exactly
      MARKED_FOR_REVIEW (ANSWERED_AND_MARKED rows are not restored as marked). */
  function ReviewSetOf(rows: seq<AnswerRow>): set<string>
  {
    set i | 0 <= i < |rows| && rows[i].status == Some(MarkedForReview) :: rows[i].questionId
  }

  /** The restored answer map holds a key exactly when some row selects an
      answer for it, and its value is the selection of the last such row. */
  lemma {:induction false} AnswerMapOfSpec(rows: seq<AnswerRow>, qid: string)
    ensures qid in AnswerMapOf(rows) <==> exists i :: 0 <= i < |rows| && SelectsFor(rows[i], qid)
    ensures qid in AnswerMapOf(rows) ==>
      exists i :: 0 <= i < |rows| && SelectsFor(rows[i], qid) &&
        AnswerMapOf(rows)[qid] == rows[i].selectedAnswer.value &&
        forall j :: i < j < |rows| ==> !SelectsFor(rows[j], qid)
  {
    if rows != [] {
      var n := |rows| - 1;
      var init, last := rows[..n], rows[n];
      AnswerMapOfSpec(init, qid);
      assert forall i :: 0 <= i < n ==> rows[i] == init[i];
      if SelectsFor(last, qid) {
        assert AnswerMapOf(rows)[qid] == last.selectedAnswer.value;
        assert SelectsFor(rows[n], qid);
      } else {
        assert qid in AnswerMapOf(rows) <==> qid in AnswerMapOf(init);
        assert qid in AnswerMapOf(init) ==> AnswerMapOf(rows)[qid] == AnswerMapOf(init)[qid];
        if qid in AnswerMapOf(init) {
          var i :| 0 <= i < n && SelectsFor(init[i], qid) &&
            AnswerMapOf(init)[qid] == init[i].selectedAnswer.value &&
            forall j :: i < j < n ==> !SelectsFor(init[j], qid);
          assert SelectsFor(rows[i], qid) && AnswerMapOf(rows)[qid] == rows[i].selectedAnswer.value;
        }
      }
    }
  }

  /** The restoration effect's `forEach` loop. */
  method RestoreAnswers(rows: seq<AnswerRow>) returns (answerMap: map<string, string>, reviewSet: set<string>)
    ensures answerMap == AnswerMapOf(rows)
    ensures reviewSet == ReviewSetOf(rows)
  {
    answerMap, reviewSet := map[], {};
    var i := 0;
    while i < |rows|
      invariant 0 <= i <= |rows|
      invariant answerMap == AnswerMapOf(rows[..i])
      invariant reviewSet == ReviewSetOf(rows[..i])
    {
      var row := rows[i];
      assert rows[..i + 1][..i] == rows[..i];
      if Truthy(row.selectedAnswer) {
        answerMap := answerMap[row.questionId := row.selectedAnswer.value];
      }
      if row.status == Some(MarkedForReview) {
        reviewSet := reviewSet + {row.questionId};
      }
      assert ReviewSetOf(rows[..i + 1]) ==
        ReviewSetOf(rows[..i]) + (if row.status == Some(MarkedForReview) then {row.questionId} else {});
      i := i + 1;
    }
    assert rows[..|rows|] == rows;
  }

  /** Restoration only ever adds to the review set: a MARKED_FOR_REVIEW row
      anywhere keeps its question marked, whatever rows follow it. */
  lemma {:induction false} MarkedRowStaysMarked(rows: seq<AnswerRow>, later: seq<AnswerRow>, i: nat)
    requires i < |rows| && rows[i].status == Some(MarkedForReview)
    ensures rows[i].questionId in ReviewSetOf(rows + later)
  {
    assert (rows + later)[i] == rows[i];
  }

  /** `handleMarkForReview`'s set update: remove the question if marked, add
      it otherwise. */
  function ToggleReview(marked: set<string>, qid: string): (r: set<string>)
    ensures qid in r <==> qid !in marked
    ensures forall other :: other != qid ==> (other in r <==> other in marked)
  {
    if qid in marked then marked - {qid} else marked + {qid}
  }

  /** Toggling the same question twice restores the set. */
  lemma ToggleReviewTwice(marked: set<string>, qid: string)
    ensures ToggleReview(ToggleReview(marked, qid), qid) == marked
  {
  }

  /** The status `handleMarkForReview` sends after the toggle. */
  function ReviewStatus(marked: set<string>, answers: map<string, string>, qid: string): (s: AttemptStatus)
    ensures s != AnsweredAndMarked
  {
    if qid in marked then MarkedForReview
    else if Truthy(Lookup(answers, qid)) then Answered
    else NotAttempted
  }

  /** The navigator's colour class (`getQuestionStatus`). */
  datatype DisplayStatus = Review | AnsweredDisplay | NotAttemptedDisplay

  function QuestionStatus(marked: set<string>, answers: map<string, string>, qid: string): DisplayStatus
  {
    if qid in marked then Review
    else if Truthy(Lookup(answers, qid)) then AnsweredDisplay
    else NotAttemptedDisplay
  }

  /** The status sent to the store and the status the navigator shows agree
      on every question. */
  lemma ReviewStatusMatchesDisplay(marked: set<string>, answers: map<string, string>, qid: string)
    ensures ReviewStatus(marked, answers, qid) == MarkedForReview <==> QuestionStatus(marked, answers, qid) == Review
    ensures ReviewStatus(marked, answers, qid) == Answered <==> QuestionStatus(marked, answers, qid) == AnsweredDisplay
    ensures ReviewStatus(marked, answers, qid) == NotAttempted <==> QuestionStatus(marked, answers, qid) == NotAttemptedDisplay
  {
  }

  /** The payload of `handleAnswerChange`. */
  function AnswerChangeRequest(qid: string, answer: string): (r: SaveRequest)
    ensures r.questionId == qid && r.status == Answered
    ensures r.selectedAnswer == if answer == "" then None else Some(answer)
  {
    SaveRequest(qid, OrNull(Some(answer)), Answered)
  }

  /** The payload of `handleMarkForReview`, given the set after the toggle. */
  function MarkRequest(newMarked: set<string>, answers: map<string, string>, qid: string): (r: SaveRequest)
    ensures r.questionId == qid
    ensures r.selectedAnswer == OrNull(Lookup(answers, qid))
    ensures r.status == MarkedForReview <==> qid in newMarked
    ensures r.status == Answered <==> qid !in newMarked && r.selectedAnswer.Some?
    ensures r.status == NotAttempted <==> qid !in newMarked && r.selectedAnswer.None?
  {
    SaveRequest(qid, OrNull(Lookup(answers, qid)), ReviewStatus(newMarked, answers, qid))
  }

  /** Unmarking restores the status the question had before it was marked:
      ANSWERED when a selection exists, NOT_ATTEMPTED otherwise. */
  lemma UnmarkRevertsStatus(marked: set<string>, answers: map<string, string>, qid: string)
    requires qid !in marked
    ensures var on := ToggleReview(marked, qid);
            var off := ToggleReview(on, qid);
            MarkRequest(on, answers, qid).status == MarkedForReview &&
            MarkRequest(off, answers, qid).status == (if Truthy(Lookup(answers, qid)) then Answered else NotAttempted)
  {
  }

  // ----- how a save lands in the `question_attempts` table ---------------------

  /** The row a save request writes. */
  function RowOf(r: SaveRequest): (row: AnswerRow)
    ensures row.questionId == r.questionId && row.selectedAnswer == r.selectedAnswer
    ensures row.status == Some(r.status)
  {
    AnswerRow(r.questionId, r.selectedAnswer, Some(r.status))
  }

  /** The upsert as written: the payload has no `id`, the key is a fresh random
      uuid and no (attempt, question) pair is unique, so every save adds a row. */
  function SaveAsWritten(table: seq<AnswerRow>, r: SaveRequest): (t: seq<AnswerRow>)
    ensures |t| == |table| + 1 && t[..|table|] == table && t[|table|] == RowOf(r)
  {
    table + [RowOf(r)]
  }

  /** As written, marking and then unmarking a question stores two rows, and
      reloading restores the question as marked although the last status
      sent was not MARKED_FOR_REVIEW. */
  lemma UnmarkedQuestionRestoredAsMarked(table: seq<AnswerRow>, marked: set<string>, answers: map<string, string>, qid: string)
    requires qid !in marked
    ensures var on := ToggleReview(marked, qid);
            var off := ToggleReview(on, qid);
            var t := SaveAsWritten(SaveAsWritten(table, MarkRequest(on, answers, qid)), MarkRequest(off, answers, qid));
            MarkRequest(off, answers, qid).status != MarkedForReview && qid in ReviewSetOf(t)
  {
    var on := ToggleReview(marked, qid);
    var off := ToggleReview(on, qid);
    var t1 := SaveAsWritten(table, MarkRequest(on, answers, qid));
    MarkedRowStaysMarked(t1, [RowOf(MarkRequest(off, answers, qid))], |table|);
  }

  /** At most one row per question, as a unique (attempt, question) key gives. */
  predicate OneRowPerQuestion(table: seq<AnswerRow>)
  {
    forall i, j :: 0 <= i < j < |table| ==> table[i].questionId != table[j].questionId
  }

  /** The position of the question's row, or `|table|` when it has none. */
  function FindRow(table: seq<AnswerRow>, qid: string): (i: nat)
    ensures i <= |table|
    ensures i < |table| ==> table[i].questionId == qid
    ensures forall j :: 0 <= j < i ==> table[j].questionId != qid
  {
    if table == [] then 0
    else if table[0].questionId == qid then 0
    else 1 + FindRow(table[1..], qid)
  }

  /** The upsert keyed by question, as intended: the question's row is
      replaced, or added when it has none. */
  function SaveKeyed(table: seq<AnswerRow>, r: SaveRequest): seq<AnswerRow>
  {
    var i := FindRow(table, r.questionId);
    if i < |table| then table[i := RowOf(r)] else table + [RowOf(r)]
  }

  /** A keyed save keeps one row per question, and restoration then marks the
      saved question exactly when the save sent MARKED_FOR_REVIEW, leaving
      every other question's mark as it was. */
  lemma KeyedSaveRestoresLastStatus(table: seq<AnswerRow>, r: SaveRequest)
    requires OneRowPerQuestion(table)
    ensures OneRowPerQuestion(SaveKeyed(table, r))
    ensures r.questionId in ReviewSetOf(SaveKeyed(table, r)) <==> r.status == MarkedForReview
    ensures forall q :: q != r.questionId ==> (q in ReviewSetOf(SaveKeyed(table, r)) <==> q in ReviewSetOf(table))
  {
    var t := SaveKeyed(table, r);
    var i := FindRow(table, r.questionId);
    assert forall j :: 0 <= j < |t| && j != i ==> j < |table| && t[j] == table[j];
    assert i < |t| && t[i] == RowOf(r);
    assert forall j :: 0 <= j < |t| && t[j].questionId == r.questionId ==> j == i;
    forall q | q != r.questionId
      ensures q in ReviewSetOf(t) <==> q in ReviewSetOf(table)
    {
      if q in ReviewSetOf(table) {
        var j :| 0 <= j < |table| && table[j].status == Some(MarkedForReview) && table[j].questionId == q;
        assert j != i && t[j] == table[j];
      }
    }
  }

  /** With the keyed save, marking and then unmarking leaves the question
      unmarked after a reload. */
  lemma KeyedUnmarkRestoredUnmarked(table: seq<AnswerRow>, marked: set<string>, answers: map<string, string>, qid: string)
    requires OneRowPerQuestion(table) && qid !in marked
    ensures var on := ToggleReview(marked, qid);
            var off := ToggleReview(on, qid);
            qid !in ReviewSetOf(SaveKeyed(SaveKeyed(table, MarkRequest(on, answers, qid)), MarkRequest(off, answers, qid)))
  {
    var on := ToggleReview(marked, qid);
    var off := ToggleReview(on, qid);
    KeyedSaveRestoresLastStatus(table, MarkRequest(on, answers, qid));
    KeyedSaveRestoresLastStatus(SaveKeyed(table, MarkRequest(on, answers, qid)), MarkRequest(off, answers, qid));
  }
}
