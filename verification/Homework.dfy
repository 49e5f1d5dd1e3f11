/**
 Homework answers: a student's record over a run of submissions, and the score totals of a
 report (engine/src/juliabox/plugins/course_homework/course_homework_tbl.py). One table holds
 the students' records and, under the student id "-", the answer keys.
 */
module Homework {
  import opened Basics
  import opened SqlTable

  const ANSWER_KEY: string := "-"

  datatype Mark = Correct | Incorrect
  // For an answer key, score and attempts are the maximal ones; no limit is set by 0.
  datatype Rec = Rec(answer: string, mark: Mark, attempts: int, score: real, explanation: Option<string>)
  // A question (course, problem set and question id joined) and a student
  type Slot = (string, string)
  type Table = map<Slot, Rec>

  datatype Sub = Sub(question: string, student: string, answer: string)

  // get_answer for the key of a question
  function KeyAnswer(t: Table, question: string): Option<string> {
    if (question, ANSWER_KEY) in t then Some(t[(question, ANSWER_KEY)].answer) else None
  }

  function MaxScore(t: Table, question: string): real {
    if (question, ANSWER_KEY) in t then t[(question, ANSWER_KEY)].score else 0.0
  }

  function MaxAttempts(t: Table, question: string): int {
    if (question, ANSWER_KEY) in t then t[(question, ANSWER_KEY)].attempts else 0
  }

  function MarkOf(t: Table, question: string, answer: string): Mark {
    if KeyAnswer(t, question) == Some(answer) then Correct else Incorrect
  }

  // The record left by a submission, given the one before it
  function Recorded(before: Option<Rec>, answer: string, mark: Mark, maxScore: real, maxAttempts: int): Rec {
    var more := if mark.Incorrect? then 1 else 0;
    var score := if mark.Correct? then maxScore else 0.0;
    match before
    case None => Rec(answer, mark, more, score, None)
    case Some(r) =>
      if r.mark.Correct? || r.attempts >= maxAttempts > 0 then r.(attempts := r.attempts + more)
      else r.(answer := answer, mark := mark, attempts := r.attempts + more, score := score)
  }

  function RecordIn(t: Table, slot: Slot): Option<Rec> {
    if slot in t then Some(t[slot]) else None
  }

  function Submitted(t: Table, s: Sub): Table {
    t[(s.question, s.student) :=
      Recorded(RecordIn(t, (s.question, s.student)), s.answer, MarkOf(t, s.question, s.answer),
               MaxScore(t, s.question), MaxAttempts(t, s.question))]
  }

  function AfterAll(t: Table, subs: seq<Sub>): Table {
    if subs == [] then t else Submitted(AfterAll(t, subs[..|subs| - 1]), subs[|subs| - 1])
  }

  // ---------- A record in closed form ----------

  // The answers that one student gave to one question
  function Answers(subs: seq<Sub>, slot: Slot): seq<string> {
    if subs == [] then []
    else
      var rest, last := Answers(subs[..|subs| - 1], slot), subs[|subs| - 1];
      if (last.question, last.student) == slot then rest + [last.answer] else rest
  }

  function Wrong(answers: seq<string>, key: Option<string>): nat {
    if answers == [] then 0
    else Wrong(answers[..|answers| - 1], key) + if Some(answers[|answers| - 1]) == key then 0 else 1
  }

  // A right answer was given while attempts were left.
  predicate IsSolved(answers: seq<string>, key: Option<string>, maxAttempts: int) {
    exists i :: 0 <= i < |answers| && Some(answers[i]) == key
                && (maxAttempts <= 0 || Wrong(answers[..i], key) < maxAttempts)
  }

  // The answer on record: the right one if solved, else the last one given with attempts left
  predicate IsKept(answer: string, answers: seq<string>, key: Option<string>, maxAttempts: int)
    requires answers != []
  {
    if IsSolved(answers, key, maxAttempts) then key == Some(answer)
    else answer == answers[(if 0 < maxAttempts < |answers| then maxAttempts else |answers|) - 1]
  }

  ghost predicate InClosedForm(r: Option<Rec>, answers: seq<string>, key: Option<string>, maxScore: real,
                               maxAttempts: int) {
    if answers == [] then r.None?
    else
      && r.Some?
      && r.value.attempts == Wrong(answers, key)
      && (r.value.mark.Correct? <==> IsSolved(answers, key, maxAttempts))
      && r.value.score == (if IsSolved(answers, key, maxAttempts) then maxScore else 0.0)
      && IsKept(r.value.answer, answers, key, maxAttempts)
  }

  lemma {:induction false} WrongIsLength(answers: seq<string>, key: Option<string>)
    ensures Wrong(answers, key) <= |answers|
    ensures Wrong(answers, key) == |answers| <==> forall a <- answers :: Some(a) != key
  {
    if answers != [] {
      var front, last := answers[..|answers| - 1], answers[|answers| - 1];
      WrongIsLength(front, key);
      assert answers == front + [last];
    }
  }

  lemma SolvedGrows(answers: seq<string>, a: string, key: Option<string>, maxAttempts: int)
    ensures IsSolved(answers + [a], key, maxAttempts) <==>
              IsSolved(answers, key, maxAttempts)
              || (Some(a) == key && (maxAttempts <= 0 || Wrong(answers, key) < maxAttempts))
  {
    var all := answers + [a];
    assert all[..|answers|] == answers;
    assert forall i :: 0 <= i < |answers| ==> all[i] == answers[i] && all[..i] == answers[..i];
  }

  // While a question is unsolved, attempts run out when all of the first maxAttempts answers
  // were wrong, so that every answer so far was wrong or attempts have run out.
  lemma {:induction false} UnsolvedAnswersAreWrong(answers: seq<string>, key: Option<string>, maxAttempts: int)
    requires !IsSolved(answers, key, maxAttempts)
    ensures Wrong(answers, key) == |answers| || (0 < maxAttempts < |answers| && Wrong(answers, key) >= maxAttempts)
  {
    if answers != [] {
      var front, last := answers[..|answers| - 1], answers[|answers| - 1];
      assert answers == front + [last];
      SolvedGrows(front, last, key, maxAttempts);
      UnsolvedAnswersAreWrong(front, key, maxAttempts);
      WrongIsLength(front, key);
    }
  }

  // What one more answer does to the facts of the closed form
  lemma AnswerAppended(answers: seq<string>, a: string, key: Option<string>, maxAttempts: int)
    ensures var all := answers + [a];
            && Wrong(all, key) == Wrong(answers, key) + (if key == Some(a) then 0 else 1)
            && (IsSolved(all, key, maxAttempts) <==>
                  IsSolved(answers, key, maxAttempts)
                  || (key == Some(a) && (maxAttempts <= 0 || Wrong(answers, key) < maxAttempts)))
            && (answers == [] ==> Wrong(answers, key) == 0 && !IsSolved(answers, key, maxAttempts))
            && (!IsSolved(answers, key, maxAttempts) ==>
                  Wrong(answers, key) == |answers| || (0 < maxAttempts < |answers| && Wrong(answers, key) >= maxAttempts))
            && Wrong(answers, key) <= |answers|
  {
    var all := answers + [a];
    assert all[..|all| - 1] == answers;
    SolvedGrows(answers, a, key, maxAttempts);
    WrongIsLength(answers, key);
    if !IsSolved(answers, key, maxAttempts) {
      UnsolvedAnswersAreWrong(answers, key, maxAttempts);
    }
  }

  // One more submission keeps the closed form.
  lemma StepInClosedForm(before: Option<Rec>, answers: seq<string>, a: string, key: Option<string>,
                         maxScore: real, maxAttempts: int)
    requires InClosedForm(before, answers, key, maxScore, maxAttempts)
    ensures var mark := if key == Some(a) then Correct else Incorrect;
            InClosedForm(Some(Recorded(before, a, mark, maxScore, maxAttempts)), answers + [a], key, maxScore, maxAttempts)
  {
    hide IsSolved, Wrong;
    AnswerAppended(answers, a, key, maxAttempts);
  }

  // Submissions leave the keys as they are.
  lemma {:induction false} KeysStay(t: Table, subs: seq<Sub>, question: string)
    requires forall s <- subs :: s.student != ANSWER_KEY
    ensures RecordIn(AfterAll(t, subs), (question, ANSWER_KEY)) == RecordIn(t, (question, ANSWER_KEY))
  {
    if subs != [] {
      KeysStay(t, subs[..|subs| - 1], question);
    }
  }

  // Over any run of submissions by any students, a student's record of a question is
  // determined by that student's own answers to it.
  lemma {:induction false} RecordInClosedForm(t: Table, subs: seq<Sub>, slot: Slot)
    requires slot !in t && slot.1 != ANSWER_KEY && forall s <- subs :: s.student != ANSWER_KEY
    ensures var r, answers := RecordIn(AfterAll(t, subs), slot), Answers(subs, slot);
            match RecordIn(t, (slot.0, ANSWER_KEY))
            case Some(k) => InClosedForm(r, answers, Some(k.answer), k.score, k.attempts)
            case None => InClosedForm(r, answers, None, 0.0, 0)
  {
    if subs != [] {
      var front, last := subs[..|subs| - 1], subs[|subs| - 1];
      RecordInClosedForm(t, front, slot);
      KeysStay(t, front, slot.0);
      hide InClosedForm;
      if (last.question, last.student) == slot {
        StepInClosedForm(RecordIn(AfterAll(t, front), slot), Answers(front, slot), last.answer,
                         KeyAnswer(t, slot.0), MaxScore(t, slot.0), MaxAttempts(t, slot.0));
      }
    }
  }

  // Once correct, a record's answer, mark and score never change.
  lemma {:induction false} CorrectIsFinal(t: Table, subs: seq<Sub>, slot: Slot)
    requires slot in t && t[slot].mark.Correct?
    ensures var t' := AfterAll(t, subs);
            slot in t' && t'[slot].answer == t[slot].answer && t'[slot].mark.Correct? && t'[slot].score == t[slot].score
  {
    if subs != [] {
      CorrectIsFinal(t, subs[..|subs| - 1], slot);
    }
  }

  // ---------- Reports ----------

  datatype Entry = Entry(id: string, answer: string, mark: Mark, score: real, attempts: int)
  datatype Question = Question(id: string, students: seq<Entry>, maxScore: real, maxAttempts: int)

  function EntryOf(t: Table, question: string, id: string): Entry
    requires (question, id) in t
  {
    var r := t[(question, id)];
    Entry(id, r.answer, r.mark, r.score, r.attempts)
  }

  // The two queries: all ids greater than a blank, or one student's
  predicate IsAsked(student: Option<string>, id: string) {
    if student.Some? then student.value == id else id != "" && id[0] >= ' ' && id != " "
  }

  predicate IsReported(t: Table, question: string, student: Option<string>, id: string) {
    (question, id) in t && id != ANSWER_KEY && IsAsked(student, id)
  }

  // A student's scores added up over the questions
  function Total(t: Table, questions: seq<string>, student: Option<string>, id: string): real {
    if questions == [] then 0.0
    else
      var q := questions[|questions| - 1];
      Total(t, questions[..|questions| - 1], student, id)
      + if IsReported(t, q, student, id) then t[(q, id)].score else 0.0
  }

  ghost predicate IsReport(t: Table, question: string, student: Option<string>, students: seq<Entry>) {
    && (forall i, j :: 0 <= i < j < |students| ==> students[i].id != students[j].id)
    && forall e :: e in students <==> IsReported(t, question, student, e.id) && e == EntryOf(t, question, e.id)
  }

  // The ids that a query for ids after a blank finds, as the store compares texts
  lemma AskedAsQueried(id: string)
    ensures IsAsked(None, id) <==> TextBefore(" ", id)
  {
    assert " "[1..] == "";
    if id != "" && id[0] == ' ' {
      assert id == " " + id[1..];
    }
  }

  // A report is on the one student asked for, or on all whose ids come after a blank, and never
  // on the key.
  lemma WhoIsReported(t: Table, question: string, student: Option<string>, id: string)
    ensures IsReported(t, question, student, id)
            <==> (question, id) in t && id != "-" && (student == Some(id) || (student == None && TextBefore(" ", id)))
  {
    AskedAsQueried(id);
  }

  // The maximal scores of the questions that a student has solved
  function SolvedScore(t: Table, subs: seq<Sub>, questions: seq<string>, id: string): real {
    if questions == [] then 0.0
    else
      var q := questions[|questions| - 1];
      SolvedScore(t, subs, questions[..|questions| - 1], id)
      + match RecordIn(t, (q, ANSWER_KEY))
        case Some(k) => if IsSolved(Answers(subs, (q, id)), Some(k.answer), k.attempts) then k.score else 0.0
        case None => 0.0
  }

  // Whatever has been submitted, in any order and by whomever, a student's total is the sum of
  // the maximal scores of the questions that the student's own answers solve.
  lemma {:induction false} TotalIsSolvedScore(t: Table, subs: seq<Sub>, questions: seq<string>, student: Option<string>,
                                              id: string)
    requires (forall slot <- t :: slot.1 == ANSWER_KEY) && (forall s <- subs :: s.student != ANSWER_KEY)
    requires id != ANSWER_KEY && IsAsked(student, id)
    ensures Total(AfterAll(t, subs), questions, student, id) == SolvedScore(t, subs, questions, id)
  {
    if questions != [] {
      var q := questions[|questions| - 1];
      TotalIsSolvedScore(t, subs, questions[..|questions| - 1], student, id);
      RecordInClosedForm(t, subs, (q, id));
      hide AfterAll, Answers, IsKept, IsAsked;
      if Answers(subs, (q, id)) == [] {
        assert forall k: Rec :: !IsSolved([], Some(k.answer), k.attempts);
      }
    }
  }

  // Each student asked for once, with what is on record, and the number of attempts allowed.
  // The maximal score is read from an attribute that no record has.
  ghost predicate IsQuestion(t: Table, question: string, student: Option<string>, q: Question) {
    && q.id == question && IsReport(t, question, student, q.students)
    && q.maxAttempts == MaxAttempts(t, question) && q.maxScore == 0.0
  }

  // Totals over some questions and the first scores of another.
  ghost predicate IsTotalled(t: Table, questions: seq<string>, student: Option<string>, scores: map<string, real>,
                             more: seq<Entry>)
  {
    && (forall id :: id in scores <==>
          (exists q <- questions :: IsReported(t, q, student, id)) || (exists s <- more :: s.id == id))
    && (forall s <- more :: s.id in scores ==> scores[s.id] == Total(t, questions, student, s.id) + s.score)
    && (forall id <- scores :: (forall s <- more :: s.id != id) ==> scores[id] == Total(t, questions, student, id))
  }

  lemma {:induction false} NotReportedTotal(t: Table, questions: seq<string>, student: Option<string>, id: string)
    requires forall q <- questions :: !IsReported(t, q, student, id)
    ensures Total(t, questions, student, id) == 0.0
  {
    if questions != [] {
      assert questions[|questions| - 1] in questions;
      NotReportedTotal(t, questions[..|questions| - 1], student, id);
    }
  }

  lemma OneScoreMore(t: Table, questions: seq<string>, student: Option<string>, scores: map<string, real>,
                     students: seq<Entry>, j: nat)
    requires j < |students| && IsTotalled(t, questions, student, scores, students[..j])
    requires forall i, j :: 0 <= i < j < |students| ==> students[i].id != students[j].id
    ensures var s := students[j];
            IsTotalled(t, questions, student,
                       scores[s.id := if s.id in scores then s.score + scores[s.id] else s.score], students[..j] + [s])
  {
    hide Total, IsReported;
    var s := students[j];
    forall r | r in students[..j] ensures r.id != s.id {
      var i :| 0 <= i < j && students[i] == r;
    }
    if s.id !in scores {
      NotReportedTotal(t, questions, student, s.id);
    }
    var more := students[..j] + [s];
    assert forall r :: r in more <==> r in students[..j] || r == s;
  }

  lemma NothingTotalled(t: Table, student: Option<string>)
    ensures IsTotalled(t, [], student, map[], [])
  {
  }

  lemma TotalsMean(t: Table, questions: seq<string>, student: Option<string>, scores: map<string, real>)
    requires IsTotalled(t, questions, student, scores, [])
    ensures forall st :: st in scores <==> exists q <- questions :: IsReported(t, q, student, st)
    ensures forall st <- scores :: scores[st] == Total(t, questions, student, st)
  {
  }

  lemma OneQuestionMore(t: Table, questions: seq<string>, q: string, student: Option<string>,
                        scores: map<string, real>, students: seq<Entry>)
    requires IsTotalled(t, questions, student, scores, students) && IsReport(t, q, student, students)
    ensures IsTotalled(t, questions + [q], student, scores, [])
  {
    hide IsAsked;
    var all := questions + [q];
    assert all[..|questions|] == questions;
    assert forall x :: x in all <==> x in questions || x == q;
    forall id ensures IsReported(t, q, student, id) <==> exists s <- students :: s.id == id {
      if IsReported(t, q, student, id) {
        assert EntryOf(t, q, id) in students;
      }
    }
  }

  // ---------- The implementation ----------

  class CourseHomework {
    var records: Table

    constructor (records: Table)
      ensures this.records == records
    {
      this.records := records;
    }

    method CheckAnswer(question: string, student: string, answer: string, record: bool)
      returns (mark: Mark, score: real, usedAttempts: int, maxScore: real, maxAttempts: int, explanation: Option<string>)
      modifies `records
      ensures records == if record then Submitted(old(records), Sub(question, student, answer)) else old(records)
      ensures mark == MarkOf(old(records), question, answer)
      ensures maxScore == MaxScore(old(records), question) && maxAttempts == MaxAttempts(old(records), question)
      // the score shown is the one on record afterwards
      ensures record ==> score == records[(question, student)].score
      ensures !record ==> score == if mark.Correct? then maxScore else 0.0
      ensures usedAttempts == if record && (question, student) in old(records)
                              then old(records)[(question, student)].attempts else 1
      // the explanation is shown with a correct answer only
      ensures explanation == if mark.Correct? then old(records)[(question, ANSWER_KEY)].explanation else None
    {
      var ans := None;
      maxScore, maxAttempts, explanation := 0.0, 0, None;
      if (question, ANSWER_KEY) in records {
        var key := records[(question, ANSWER_KEY)];
        ans, maxScore, maxAttempts, explanation := Some(key.answer), key.score, key.attempts, key.explanation;
      }
      if ans == Some(answer) {
        score, mark := maxScore, Correct;
      } else {
        score, mark, explanation := 0.0, Incorrect, None;
      }
      usedAttempts := 1;
      if record {
        var slot := (question, student);
        var rec;
        if slot in records {
          rec := records[slot];
          usedAttempts := rec.attempts;
          var attemptsRanOut := usedAttempts >= maxAttempts > 0;
          if rec.mark != Correct && !attemptsRanOut {
            rec := rec.(answer := answer, mark := mark);
          } else {
            score := rec.score;
          }
        } else {
          rec := Rec(answer, mark, 0, 0.0, None);
        }
        if mark == Incorrect {
          rec := rec.(attempts := rec.attempts + 1);
        }
        rec := rec.(score := score);
        records := records[slot := rec];
      }
    }

    // get_report. The answer key's row has no student of its own.
    method Report(questions: seq<string>, student: Option<string>)
      returns (reports: seq<Question>, maxScore: real, scores: map<string, real>)
      ensures |reports| == |questions|
      ensures forall k :: 0 <= k < |questions| ==> IsQuestion(records, questions[k], student, reports[k])
      ensures maxScore == 0.0
      ensures forall st :: st in scores <==> exists q <- questions :: IsReported(records, q, student, st)
      ensures forall st <- scores :: scores[st] == Total(records, questions, student, st)
    {
      hide IsTotalled, IsReport, Total, IsReported, MaxAttempts;
      reports, maxScore := [], 0.0;
      for i := 0 to |questions|
        invariant |reports| == i && forall k :: 0 <= k < i ==> IsQuestion(records, questions[k], student, reports[k])
        invariant maxScore == 0.0
      {
        var report := QuestionReport(questions[i], student);
        maxScore := maxScore + report.maxScore;
        reports := reports + [report];
      }
      scores := map[];
      NothingTotalled(records, student);
      for i := 0 to |reports|
        invariant IsTotalled(records, questions[..i], student, scores, [])
      {
        assert questions[..i + 1] == questions[..i] + [questions[i]];
        scores := AddScores(scores, questions[..i], questions[i], student, reports[i].students);
      }
      assert questions[..|reports|] == questions;
      TotalsMean(records, questions, student, scores);
    }

    // One question's scores are added to the totals.
    method AddScores(before: map<string, real>, ghost questions: seq<string>, ghost question: string,
                     ghost student: Option<string>, students: seq<Entry>)
      returns (scores: map<string, real>)
      requires IsTotalled(records, questions, student, before, []) && IsReport(records, question, student, students)
      ensures IsTotalled(records, questions + [question], student, scores, [])
    {
      hide IsTotalled, Total;
      scores := before;
      assert students[..0] == [];
      for j := 0 to |students|
        invariant IsTotalled(records, questions, student, scores, students[..j])
      {
        var id, score := students[j].id, students[j].score;
        OneScoreMore(records, questions, student, scores, students, j);
        if id in scores {
          score := score + scores[id];
        }
        scores := scores[id := score];
        assert students[..j + 1] == students[..j] + [students[j]];
      }
      assert students[..|students|] == students;
      OneQuestionMore(records, questions, question, student, scores, students);
    }

    // One question: the records that the query finds, in any order, and then, if only one
    // student was asked for, the answer key.
    method QuestionReport(question: string, student: Option<string>) returns (report: Question)
      ensures IsQuestion(records, question, student, report)
    {
      var students: seq<Entry> := [];
      var maxAttempts := 0;
      var slots := set slot | slot in records && slot.0 == question && IsAsked(student, slot.1);
      ghost var all, done: set<Slot> := slots, {};
      while slots != {}
        invariant slots !! done && slots + done == all
        invariant forall i, j :: 0 <= i < j < |students| ==> students[i].id != students[j].id
        invariant forall e :: e in students <==>
                    (question, e.id) in done && e.id != ANSWER_KEY && e == EntryOf(records, question, e.id)
        invariant maxAttempts == if (question, ANSWER_KEY) in done then MaxAttempts(records, question) else 0
        decreases slots
      {
        var slot :| slot in slots;
        slots, done := slots - {slot}, done + {slot};
        if slot.1 == ANSWER_KEY {
          maxAttempts := records[slot].attempts;
          continue;
        }
        var rec := records[slot];
        ghost var before := students;
        students := students + [Entry(slot.1, rec.answer, rec.mark, rec.score, rec.attempts)];
        assert forall e :: e in students <==> e in before || e == EntryOf(records, question, slot.1);
      }
      if student.Some? && (question, ANSWER_KEY) in records {
        maxAttempts := records[(question, ANSWER_KEY)].attempts;
      }
      assert student.None? ==> IsAsked(student, ANSWER_KEY);
      report := Question(question, students, 0.0, maxAttempts);
    }
  }
}
