/**
 * The scoring engine of the spiritual persona survey: the fixed persona table,
 * the per-persona scores of an answer sheet, the choice of the winning persona(s)
 * with its tie-break rule, and the increment of the aggregate tally.
 */
module Scoring {
  import opened Wrappers

  /** Number of questions shown by the survey. */
  const QuestionCount: nat := 12

  /** The Likert scale offered for every question: 1 (Strongly Disagree) to 7 (Strongly Agree). */
  const LikertMin: int := 1
  const LikertMax: int := 7

  /** One slot per question, `None` while the question is unanswered. */
  type Answers = seq<Option<int>>

  /** A persona and the 1-based positions of the questions that feed its score. */
  datatype Persona = Persona(name: string, questions: seq<int>)

  /** The persona table, in declaration order; that order is the tie-break order. */
  const Personas: seq<Persona> := [
    Persona("Traditional Spiritual", [1, 9]),
    Persona("Traditional Religious", [1, 6, 12]),
    Persona("Traditional Astrologer", [3]),
    Persona("Traditional Cultural", [4, 8]),
    Persona("Scientific Spiritual", [2, 5]),
    Persona("Scientific Religious", [2]),
    Persona("Scientific Astrologer", [3, 7]),
    Persona("Scientific Cultural", [8]),
    Persona("Practical Spiritual", [5, 9]),
    Persona("Practical Religious", [6]),
    Persona("Practical Astrologer", [3, 11]),
    Persona("Practical Cultural", [4, 10])
  ]

  /** Position of "Traditional Religious" in the table: the only persona fed by question 12. */
  const TraditionalReligious: nat := 1

  /** One entry of the score record: a persona name and its score. */
  datatype ScoreEntry = ScoreEntry(persona: string, score: int)

  /** The outcome of a completed survey. */
  datatype SurveyResults = SurveyResults(primary: string, hybrid: Option<seq<string>>, scores: seq<ScoreEntry>)

  // ---------------------------------------------------------------------------
  // Scores
  // ---------------------------------------------------------------------------

  /** True when question `q` (1-based) has no answer to read: unanswered, or outside the sheet. */
  predicate Missing(answers: Answers, q: int)
  {
    !(1 <= q <= |answers| && answers[q - 1].Some?)
  }

  /** `answers[q - 1] || 0`: the answer to question `q`, or 0 when there is none. */
  function Slot(answers: Answers, q: int): (v: int)
    ensures Missing(answers, q) ==> v == 0
    ensures !Missing(answers, q) ==> v == answers[q - 1].value
  {
    if Missing(answers, q) then 0 else answers[q - 1].value
  }

  /**
   * A persona's score: the `reduce` that adds the slots of its questions, left to right.
   * A persona none of whose questions has been answered scores 0.
   */
  function Score(answers: Answers, qs: seq<int>): (r: int)
    ensures Unanswered(answers, qs) == |qs| ==> r == 0
  {
    if |qs| == 0 then 0 else Score(answers, qs[..|qs| - 1]) + Slot(answers, qs[|qs| - 1])
  }

  /** How many of the positions `qs` have no answer. */
  function Unanswered(answers: Answers, qs: seq<int>): (n: nat)
    ensures n <= |qs|
  {
    if |qs| == 0 then 0
    else Unanswered(answers, qs[..|qs| - 1]) + (if Missing(answers, qs[|qs| - 1]) then 1 else 0)
  }

  /** How often position `q` occurs in `qs`. */
  function Occurrences(qs: seq<int>, q: int): nat
  {
    if |qs| == 0 then 0 else Occurrences(qs[..|qs| - 1], q) + (if qs[|qs| - 1] == q then 1 else 0)
  }

  /** Every answered slot holds a value of the Likert scale (what the survey's buttons offer). */
  ghost predicate LikertAnswers(answers: Answers)
  {
    forall i :: 0 <= i < |answers| && answers[i].Some? ==> LikertMin <= answers[i].value <= LikertMax
  }

  /** The score record: one entry per persona, in table order. */
  function CalculateScores(answers: Answers): (r: seq<ScoreEntry>)
    ensures |r| == |Personas|
    ensures forall i :: 0 <= i < |r| ==> r[i].persona == Personas[i].name
  {
    seq(|Personas|, i requires 0 <= i < |Personas| =>
      ScoreEntry(Personas[i].name, Score(answers, Personas[i].questions)))
  }

  /** The persona names are pairwise distinct, so the score record has exactly one entry per name. */
  lemma PersonaNamesDistinct()
    ensures forall i, j :: 0 <= i < j < |Personas| ==> Personas[i].name != Personas[j].name
  {
  }

  /**
   * With Likert answers, a persona with k questions of which u are unanswered scores
   * between k - u and 7 * (k - u): each unanswered slot lowers both bounds.
   */
  lemma {:induction false} ScoreBounds(answers: Answers, qs: seq<int>)
    requires LikertAnswers(answers)
    ensures LikertMin * (|qs| - Unanswered(answers, qs)) <= Score(answers, qs)
    ensures Score(answers, qs) <= LikertMax * (|qs| - Unanswered(answers, qs))
  {
    if |qs| > 0 {
      ScoreBounds(answers, qs[..|qs| - 1]);
    }
  }

  /** A fully answered Likert sheet puts every persona with k questions in [k, 7k]. */
  lemma CompleteScoreRange(answers: Answers, i: nat)
    requires LikertAnswers(answers)
    requires |answers| == QuestionCount && forall j :: 0 <= j < |answers| ==> answers[j].Some?
    requires i < |Personas|
    ensures var k := |Personas[i].questions|;
      LikertMin * k <= CalculateScores(answers)[i].score <= LikertMax * k
  {
    var qs := Personas[i].questions;
    assert Unanswered(answers, qs) == 0 by {
      NoneUnanswered(answers, qs);
    }
    ScoreBounds(answers, qs);
  }

  /** Positions inside a fully answered sheet are never missing. */
  lemma {:induction false} NoneUnanswered(answers: Answers, qs: seq<int>)
    requires forall j :: 0 <= j < |answers| ==> answers[j].Some?
    requires forall k :: 0 <= k < |qs| ==> 1 <= qs[k] <= |answers|
    ensures Unanswered(answers, qs) == 0
  {
    if |qs| > 0 {
      NoneUnanswered(answers, qs[..|qs| - 1]);
    }
  }

  /** Scoring is linear: when every referenced question is answered c, the score is c times k. */
  lemma {:induction false} UniformScore(answers: Answers, qs: seq<int>, c: int)
    requires forall k :: 0 <= k < |qs| ==> !Missing(answers, qs[k]) && answers[qs[k] - 1].value == c
    ensures Score(answers, qs) == c * |qs|
  {
    if |qs| > 0 {
      UniformScore(answers, qs[..|qs| - 1], c);
    }
  }

  /**
   * Blanking slot i removes exactly that answer's contribution, once per occurrence of
   * question i + 1: an unanswered slot counts 0.
   */
  lemma {:induction false} BlankSlot(answers: Answers, qs: seq<int>, i: nat)
    requires i < |answers|
    ensures Score(answers, qs) == Score(answers[i := None], qs) + Occurrences(qs, i + 1) * Slot(answers, i + 1)
  {
    if |qs| > 0 {
      var init, last := qs[..|qs| - 1], qs[|qs| - 1];
      BlankSlot(answers, init, i);
      var n, v := Occurrences(init, i + 1), Slot(answers, i + 1);
      assert Score(answers, qs) == Score(answers, init) + Slot(answers, last);
      assert Score(answers[i := None], qs) == Score(answers[i := None], init) + Slot(answers[i := None], last);
      if last == i + 1 {
        assert Slot(answers[i := None], last) == 0;
        assert Occurrences(qs, i + 1) == n + 1;
        assert (n + 1) * v == n * v + v;
      } else {
        assert Slot(answers[i := None], last) == Slot(answers, last);
        assert Occurrences(qs, i + 1) == n;
      }
    }
  }

  /** Of all personas, only "Traditional Religious" refers to question 12, and it does so once. */
  lemma OnlyTraditionalReligiousUsesLast()
    ensures forall i :: 0 <= i < |Personas| && i != TraditionalReligious ==>
      Occurrences(Personas[i].questions, QuestionCount) == 0
    ensures Occurrences(Personas[TraditionalReligious].questions, QuestionCount) == 1
    ensures Personas[TraditionalReligious].name == "Traditional Religious"
  {
    forall i | 0 <= i < |Personas|
      ensures Occurrences(Personas[i].questions, QuestionCount) ==
        (if i == TraditionalReligious then 1 else 0)
    {
      AbsentNotCounted(Personas[i].questions[..|Personas[i].questions| - 1], QuestionCount);
    }
  }

  /** A position that does not occur in `qs` is counted zero times. */
  lemma {:induction false} AbsentNotCounted(qs: seq<int>, q: int)
    requires q !in qs
    ensures Occurrences(qs, q) == 0
  {
    if |qs| > 0 {
      AbsentNotCounted(qs[..|qs| - 1], q);
    }
  }

  /**
   * Scoring a sheet whose 12th slot is blanked: every persona but "Traditional Religious"
   * keeps its score, and that one loses exactly the 12th answer.
   */
  lemma LastSlotBlanked(answers: Answers)
    requires |answers| == QuestionCount
    ensures var before := CalculateScores(answers);
      var after := CalculateScores(answers[QuestionCount - 1 := None]);
      && (forall i :: 0 <= i < |Personas| && i != TraditionalReligious ==> after[i] == before[i])
      && after[TraditionalReligious].score == before[TraditionalReligious].score - Slot(answers, QuestionCount)
  {
    OnlyTraditionalReligiousUsesLast();
    forall i | 0 <= i < |Personas|
      ensures CalculateScores(answers)[i].score ==
        CalculateScores(answers[QuestionCount - 1 := None])[i].score
        + Occurrences(Personas[i].questions, QuestionCount) * Slot(answers, QuestionCount)
    {
      BlankSlot(answers, Personas[i].questions, QuestionCount - 1);
    }
  }

  // ---------------------------------------------------------------------------
  // Winner selection (determinePersona)
  // ---------------------------------------------------------------------------

  /** Entry i reaches the highest score of the record. */
  ghost predicate MaxAt(s: seq<ScoreEntry>, i: int)
  {
    0 <= i < |s| && forall j :: 0 <= j < |s| ==> s[j].score <= s[i].score
  }

  /**
   * Entry i is the first, in record order, to reach the highest score. The dashboard states
   * the same notion over its chart rows (`Dashboard.FirstMaxAt`).
   */
  ghost predicate FirstMaxAt(s: seq<ScoreEntry>, i: int)
  {
    MaxAt(s, i) && forall j :: 0 <= j < i ==> s[j].score < s[i].score
  }

  /** `ps` lists, in increasing order, exactly the positions that reach the highest score. */
  ghost predicate MaxPositionsIn(s: seq<ScoreEntry>, ps: seq<nat>)
  {
    && (forall a, b :: 0 <= a < b < |ps| ==> ps[a] < ps[b])
    && (forall a :: 0 <= a < |ps| ==> MaxAt(s, ps[a]))
    && (forall i :: MaxAt(s, i) ==> i in ps)
  }

  /** `Math.max(...Object.values(scores))`. */
  function MaxScore(s: seq<ScoreEntry>): (m: int)
    requires |s| > 0
    ensures forall j :: 0 <= j < |s| ==> s[j].score <= m
    ensures exists i :: 0 <= i < |s| && s[i].score == m
  {
    if |s| == 1 then s[0].score
    else
      var rest := MaxScore(s[1..]);
      if s[0].score < rest then rest else s[0].score
  }

  /** The `filter(score === m)` of the entries from position `from` on, as the positions it keeps. */
  function PositionsAt(s: seq<ScoreEntry>, m: int, from: nat): (ps: seq<nat>)
    requires from <= |s|
    ensures forall a :: 0 <= a < |ps| ==> from <= ps[a] < |s| && s[ps[a]].score == m
    ensures forall a, b :: 0 <= a < b < |ps| ==> ps[a] < ps[b]
    ensures forall i :: from <= i < |s| && s[i].score == m ==> i in ps
    decreases |s| - from
  {
    if from == |s| then []
    else if s[from].score == m then [from] + PositionsAt(s, m, from + 1)
    else PositionsAt(s, m, from + 1)
  }

  /** The names at the given positions (the `map(([persona]) => persona)`). */
  function NamesAt(s: seq<ScoreEntry>, ps: seq<nat>): (names: seq<string>)
    requires forall a :: 0 <= a < |ps| ==> ps[a] < |s|
    ensures |names| == |ps|
    ensures forall a :: 0 <= a < |ps| ==> names[a] == s[ps[a]].persona
  {
    seq(|ps|, a requires 0 <= a < |ps| => s[ps[a]].persona)
  }

  /** Keeping the entries equal to the highest score keeps exactly the positions that reach it. */
  lemma MaxScorePositions(s: seq<ScoreEntry>)
    requires |s| > 0
    ensures var ps := PositionsAt(s, MaxScore(s), 0);
      MaxPositionsIn(s, ps) && |ps| > 0
  {
    var m := MaxScore(s);
    var ps := PositionsAt(s, m, 0);
    assert forall a :: 0 <= a < |ps| ==> MaxAt(s, ps[a]);
    assert forall i :: MaxAt(s, i) ==> i in ps by {
      forall i | MaxAt(s, i) ensures i in ps {
        var w :| 0 <= w < |s| && s[w].score == m;
        assert s[w].score <= s[i].score;
      }
    }
    var w :| 0 <= w < |s| && s[w].score == m;
    assert w in ps;
  }

  /** The positions of the entries that reach the highest score, in record order. */
  function TopPositions(s: seq<ScoreEntry>): (ps: seq<nat>)
    requires |s| > 0
    ensures MaxPositionsIn(s, ps) && |ps| > 0
    ensures forall a :: 0 <= a < |ps| ==> ps[a] < |s|
  {
    MaxScorePositions(s);
    PositionsAt(s, MaxScore(s), 0)
  }

  /**
   * The pure part of `determinePersona`: the top personas in record order; the first is
   * the primary one, and the whole list is reported as hybrid when more than one ties.
   */
  function Decide(s: seq<ScoreEntry>): (r: SurveyResults)
    requires |s| > 0
    ensures r.scores == s
    ensures r.hybrid.Some? ==> |r.hybrid.value| > 1 && r.hybrid.value[0] == r.primary
  {
    var top := NamesAt(s, TopPositions(s));
    SurveyResults(top[0], if |top| > 1 then Some(top) else None, s)
  }

  /** The first of the top positions is the first entry to reach the highest score. */
  lemma FirstTopPosition(s: seq<ScoreEntry>, ps: seq<nat>, k: nat)
    requires MaxPositionsIn(s, ps) && |ps| > 0 && FirstMaxAt(s, k)
    ensures ps[0] == k
  {
    assert k in ps;
    var a :| 0 <= a < |ps| && ps[a] == k;
    assert ps[0] <= k && s[k].score <= s[ps[0]].score;
  }

  /** The primary persona is the first entry reaching the highest score; nothing scores above it. */
  lemma PrimaryIsFirstMax(s: seq<ScoreEntry>, k: nat)
    requires FirstMaxAt(s, k)
    ensures Decide(s).primary == s[k].persona
  {
    FirstTopPosition(s, TopPositions(s), k);
  }

  /** The result is hybrid exactly when some other entry ties with the first top scorer. */
  lemma HybridIffTie(s: seq<ScoreEntry>, k: nat)
    requires FirstMaxAt(s, k)
    ensures Decide(s).hybrid.None? <==> forall j :: 0 <= j < |s| && j != k ==> s[j].score < s[k].score
  {
    var ps := TopPositions(s);
    FirstTopPosition(s, ps, k);
    if |ps| == 1 {
      forall j | 0 <= j < |s| && j != k ensures s[j].score < s[k].score {
        assert MaxAt(s, j) ==> j in ps;
      }
    } else {
      assert MaxAt(s, ps[1]) && ps[1] != k;
    }
  }

  /** An entry that scores strictly above every other entry is the primary persona of a non-hybrid result. */
  lemma SoleWinner(s: seq<ScoreEntry>, k: nat)
    requires FirstMaxAt(s, k)
    requires forall j :: 0 <= j < |s| && j != k ==> s[j].score < s[k].score
    ensures Decide(s).primary == s[k].persona && Decide(s).hybrid.None?
  {
    PrimaryIsFirstMax(s, k);
    HybridIffTie(s, k);
  }

  /**
   * A hybrid result lists, in record order, the name of every entry that reaches the highest
   * score and nothing else.
   */
  lemma HybridListsTopInOrder(s: seq<ScoreEntry>)
    requires |s| > 0 && Decide(s).hybrid.Some?
    ensures exists ps: seq<nat> ::
      && MaxPositionsIn(s, ps)
      && NamesAt.requires(s, ps)
      && Decide(s).hybrid.value == NamesAt(s, ps)
  {
    var ps := TopPositions(s);
    assert MaxPositionsIn(s, ps) && Decide(s).hybrid.value == NamesAt(s, ps);
  }

  // ---------------------------------------------------------------------------
  // Aggregate tally
  // ---------------------------------------------------------------------------

  /** `prev[name] || 0`: a persona's count, 0 when it has none yet. */
  function Count(tally: map<string, nat>, name: string): (c: nat)
    ensures name !in tally ==> c == 0
    ensures name in tally ==> c == tally[name]
  {
    if name in tally then tally[name] else 0
  }

  /** The functional update of `setAggregateData`: one more survey won by `primary`. */
  function Tally(tally: map<string, nat>, primary: string): (r: map<string, nat>)
    ensures r.Keys == tally.Keys + {primary}
    ensures Count(r, primary) == Count(tally, primary) + 1
    ensures forall name :: name != primary ==> Count(r, name) == Count(tally, name)
  {
    tally[primary := Count(tally, primary) + 1]
  }
}
