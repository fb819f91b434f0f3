/**
 * The survey session: the component's state (answer sheet, current question, results,
 * dashboard flag and aggregate tally) and the user actions that change it.
 */
module Survey {
  import opened Wrappers
  import opened Scoring
  import Dashboard

  /** `Array(QUESTIONS.length).fill(null)`: a sheet with every question unanswered. */
  function BlankSheet(): (a: Answers)
    ensures |a| == QuestionCount
    ensures forall i :: 0 <= i < |a| ==> a[i].None?
  {
    seq(QuestionCount, _ => None)
  }

  class Session {
    var answers: Answers
    var results: Option<SurveyResults>
    var currentQuestion: nat
    var aggregateData: map<string, nat>
    var showDashboard: bool

    /**
     * The sheet has one slot per question and the current question is one of them;
     * before a result exists, no question from the current one on has been answered,
     * and a result only exists once the last question is reached.
     */
    ghost predicate Valid()
      reads this
    {
      && |answers| == QuestionCount
      && currentQuestion < QuestionCount
      && (results.None? ==> forall i :: currentQuestion <= i < QuestionCount ==> answers[i].None?)
      && (results.Some? ==> currentQuestion == QuestionCount - 1)
    }

    /** A fresh session; `stored` is the tally read back from persistent storage. */
    constructor (stored: map<string, nat>)
      ensures Valid()
      ensures answers == BlankSheet() && currentQuestion == 0 && results == None
      ensures aggregateData == stored && !showDashboard
    {
      answers := BlankSheet();
      results := None;
      currentQuestion := 0;
      aggregateData := stored;
      showDashboard := false;
    }

    /** `determinePersona`: decides the winner and counts one more survey for the primary persona only. */
    method DeterminePersona(scores: seq<ScoreEntry>) returns (r: SurveyResults)
      requires |scores| > 0
      modifies this`aggregateData
      ensures r == Decide(scores)
      ensures aggregateData == Tally(old(aggregateData), r.primary)
    {
      r := Decide(scores);
      aggregateData := Tally(aggregateData, r.primary);
    }

    /**
     * `handleAnswer`: records `value` for the current question and moves on; on the last
     * question it scores the sheet as it was BEFORE this answer was written (the handler
     * reads the state captured when it was created), records the result and updates the tally.
     */
    method HandleAnswer(value: int)
      requires Valid()
      modifies this
      ensures Valid()
      ensures answers == old(answers)[old(currentQuestion) := Some(value)]
      ensures showDashboard == old(showDashboard)
      ensures old(currentQuestion) < QuestionCount - 1 ==>
        && currentQuestion == old(currentQuestion) + 1
        && results == old(results)
        && aggregateData == old(aggregateData)
      ensures old(currentQuestion) == QuestionCount - 1 ==>
        && currentQuestion == old(currentQuestion)
        && results == Some(Decide(CalculateScores(old(answers))))
        && aggregateData == Tally(old(aggregateData), results.value.primary)
      ensures old(results).None? && old(currentQuestion) == QuestionCount - 1 ==>
        results == Some(Decide(CalculateScores(answers[QuestionCount - 1 := None])))
    {
      var stale := answers;
      var newAnswers := answers[currentQuestion := Some(value)];
      answers := newAnswers;
      if currentQuestion < QuestionCount - 1 {
        currentQuestion := currentQuestion + 1;
      } else {
        var scores := CalculateScores(stale);
        if results.None? {
          RewriteBlank(stale, QuestionCount - 1, value);
          assert CalculateScores(newAnswers[QuestionCount - 1 := None]) == scores;
        }
        var r := DeterminePersona(scores);
        results := Some(r);
      }
    }

    /** `resetSurvey`: a blank sheet at the first question, no result, dashboard hidden; the tally stays. */
    method ResetSurvey()
      modifies this
      ensures Valid()
      ensures answers == BlankSheet() && currentQuestion == 0 && results == None && !showDashboard
      ensures aggregateData == old(aggregateData)
    {
      answers := BlankSheet();
      currentQuestion := 0;
      results := None;
      showDashboard := false;
    }

    /** `viewDashboard`: shows the dashboard and changes nothing else. */
    method ViewDashboard()
      requires Valid()
      modifies this`showDashboard
      ensures Valid() && showDashboard
    {
      showDashboard := true;
    }

    /**
     * `clearAllData`: when the user confirms, empties the tally and resets the survey;
     * when they decline, nothing changes.
     */
    method ClearAllData(confirmed: bool)
      requires Valid()
      modifies this
      ensures Valid()
      ensures confirmed ==>
        && aggregateData == map[]
        && answers == BlankSheet() && currentQuestion == 0 && results == None && !showDashboard
      ensures !confirmed ==> unchanged(this)
    {
      if confirmed {
        aggregateData := map[];
        ResetSurvey();
      }
    }
  }

  /** Writing an answer into an unanswered slot and blanking it again gives back the sheet. */
  lemma RewriteBlank(sheet: Answers, i: nat, value: int)
    requires i < |sheet| && sheet[i].None?
    ensures sheet[i := Some(value)][i := None] == sheet
  {
  }

  /** Each completed survey adds exactly one to the total number of responses. */
  lemma TallyAddsOneResponse(tally: map<string, nat>, primary: string)
    ensures Dashboard.Total(Tally(tally, primary)) == Dashboard.Total(tally) + 1
  {
    var after := Tally(tally, primary);
    Dashboard.TotalRemove(after, primary);
    if primary in tally {
      Dashboard.TotalRemove(tally, primary);
      assert after - {primary} == tally - {primary};
    } else {
      assert after - {primary} == tally;
    }
  }

  // ---------------------------------------------------------------------------
  // The last answer is not scored
  // ---------------------------------------------------------------------------

  /** The results the survey evidently means to record: scores of the sheet including the last answer. */
  function IntendedResults(completed: Answers): (r: SurveyResults)
    requires |completed| == QuestionCount
    ensures |r.scores| == |Personas|
    ensures forall i :: 0 <= i < |Personas| && i != TraditionalReligious ==>
      r.scores[i] == CalculateScores(completed[QuestionCount - 1 := None])[i]
    ensures r.scores[TraditionalReligious].score ==
      CalculateScores(completed[QuestionCount - 1 := None])[TraditionalReligious].score
      + Slot(completed, QuestionCount)
  {
    LastSlotBlanked(completed);
    Decide(CalculateScores(completed))
  }

  /** Twelve answers of `c`. */
  function Uniform(c: int): (a: Answers)
    ensures |a| == QuestionCount
  {
    seq(QuestionCount, _ => Some(c))
  }

  /** "Traditional Religious" has three questions; every other persona has at most two. */
  lemma QuestionsPerPersona()
    ensures |Personas[TraditionalReligious].questions| == 3
    ensures |Personas[0].questions| == 2 && |Personas[3].questions| == 2
    ensures forall i :: 0 <= i < |Personas| && i != TraditionalReligious ==> |Personas[i].questions| <= 2
  {
  }

  /** Any sheet answered 7 throughout: each persona scores 7 per question. */
  lemma SevensScores(a: Answers)
    requires |a| == QuestionCount && forall i :: 0 <= i < |a| ==> a[i] == Some(7)
    ensures forall i :: 0 <= i < |Personas| ==>
      CalculateScores(a)[i].score == 7 * |Personas[i].questions|
  {
    forall i | 0 <= i < |Personas| ensures CalculateScores(a)[i].score == 7 * |Personas[i].questions| {
      UniformScore(a, Personas[i].questions, 7);
    }
  }

  /** Any sheet answered 7 throughout, every answer scored: "Traditional Religious" wins alone. */
  lemma SevensSoleWinner(a: Answers)
    requires |a| == QuestionCount && forall i :: 0 <= i < |a| ==> a[i] == Some(7)
    ensures var full := Decide(CalculateScores(a));
      full.primary == "Traditional Religious" && full.hybrid.None?
  {
    var s := CalculateScores(a);
    SevensScores(a);
    QuestionsPerPersona();
    assert s[TraditionalReligious].score == 21;
    forall j | 0 <= j < |s| && j != TraditionalReligious ensures s[j].score < 21 {
      assert |Personas[j].questions| <= 2;
    }
    assert FirstMaxAt(s, TraditionalReligious) by {
      assert !MaxAt(s, 0);
    }
    SoleWinner(s, TraditionalReligious);
  }

  /** All answers 7, scored as written: a hybrid whose primary is "Traditional Spiritual". */
  lemma AsWrittenAllSevens()
    ensures var asWritten := Decide(CalculateScores(Uniform(7)[QuestionCount - 1 := None]));
      asWritten.primary == "Traditional Spiritual" && asWritten.hybrid.Some?
  {
    var full := Uniform(7);
    var sFull := CalculateScores(full);
    var sStale := CalculateScores(full[QuestionCount - 1 := None]);
    SevensScores(full);
    QuestionsPerPersona();
    LastSlotBlanked(full);
    assert Slot(full, QuestionCount) == 7;
    assert sStale[0].score == 14 && sStale[TraditionalReligious].score == 14;
    assert FirstMaxAt(sStale, 0) by {
      forall j | 0 <= j < |sStale| ensures sStale[j].score <= 14 {
        if j != TraditionalReligious {
          assert sStale[j] == sFull[j];
        }
      }
    }
    PrimaryIsFirstMax(sStale, 0);
    HybridIffTie(sStale, 0);
  }

  /** All answers 7, scored as intended: "Traditional Religious" wins alone. */
  lemma IntendedAllSevens()
    ensures var intended := IntendedResults(Uniform(7));
      intended.primary == "Traditional Religious" && intended.hybrid.None?
  {
    SevensSoleWinner(Uniform(7));
  }

  /**
   * Answering "Strongly Agree" (7) to all twelve questions: as written, "Traditional Religious"
   * loses its 12th answer, ties with seven other personas at 14, and the hybrid result's
   * primary is "Traditional Spiritual"; scoring the whole sheet gives "Traditional Religious"
   * 21 and makes it the sole winner.
   */
  lemma StaleReadChangesWinner()
    ensures var asWritten := Decide(CalculateScores(Uniform(7)[QuestionCount - 1 := None]));
      asWritten.primary == "Traditional Spiritual" && asWritten.hybrid.Some?
    ensures var intended := IntendedResults(Uniform(7));
      intended.primary == "Traditional Religious" && intended.hybrid.None?
    ensures Decide(CalculateScores(Uniform(7)[QuestionCount - 1 := None])).primary
      != IntendedResults(Uniform(7)).primary
  {
    AsWrittenAllSevens();
    IntendedAllSevens();
  }
}
