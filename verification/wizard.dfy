/**
 * The questionnaire wizard: the per-session state (stage, current question,
 * collected answers, computed result, evaluation date) and the transitions
 * that drive it: the answer callback, the start and reset buttons, and the
 * page router with the guards of its views.
 *
 * The clock is a parameter: each transition that stamps the evaluation
 * receives the already formatted date.
 */
module Wizard {
  import opened Questionnaire
  import opened Scoring

  /** The page being shown; any other stage name is sent back to the start page. */
  datatype Stage = Inicio | Test | Resultados | Unrecognised(name: string)

  /** A fresh answer set: every catalog key present and unanswered. */
  function EmptyAnswers(): (a: Answers)
    ensures a.Keys == CatalogKeys()
    ensures forall k :: k in a ==> a[k].None?
  {
    map k | k in CatalogKeys() :: None
  }

  /** The key of catalog item i has been answered. */
  predicate Answered(a: Answers, i: int)
    requires 0 <= i < |Catalog|
  {
    Catalog[i].key in a && a[Catalog[i].key].Some?
  }

  /**
   * The answer part of the session invariant: exactly the catalog keys,
   * given answers on the Likert scale, and every question before `next`
   * answered.
   */
  predicate Progress(a: Answers, next: int) {
    && a.Keys == CatalogKeys()
    && AnswersOnLikert(a)
    && 0 <= next <= |Catalog|
    && (forall i :: 0 <= i < next ==> Answered(a, i))
  }

  /** Recording an answer to the current question extends the answered prefix by one. */
  lemma RecordAnswer(a: Answers, next: int, v: int)
    requires Progress(a, next) && next < |Catalog| && 1 <= v <= 5
    ensures Progress(a[Catalog[next].key := Some(v)], next + 1)
  {
    var k := Catalog[next].key;
    var a' := a[k := Some(v)];
    assert k in CatalogKeys() by {
      assert Catalog[next] in Catalog;
    }
    assert a'.Keys == a.Keys;
    assert AnswersOnLikert(a');
    forall i | 0 <= i < next + 1 ensures Answered(a', i) {
      if i < next {
        assert Answered(a, i);
      }
    }
  }

  class Session {
    var stage: Stage
    var qIndex: int
    var answers: Answers
    var result: Option<map<Dim, real>>
    var fecha: Option<string>

    /**
     * The session invariant: the answer set holds exactly the catalog keys,
     * every given answer is on the Likert scale, every question before the
     * current one is answered, and the results page is only ever shown
     * after the last question, with the scores of the current answers.
     */
    ghost predicate Valid()
      reads this
    {
      && Progress(answers, qIndex)
      && (stage == Resultados ==> qIndex == |Catalog| && result == Some(Scores(answers)))
    }

    /** The state a new session starts in. */
    constructor ()
      ensures Valid()
      ensures stage == Inicio && qIndex == 0 && answers == EmptyAnswers()
      ensures result == None && fecha == None
    {
      stage := Inicio;
      qIndex := 0;
      answers := EmptyAnswers();
      result := None;
      fecha := None;
    }

    /**
     * The answer callback: with a current question and a selection, record
     * the selection for that question and move to the next one; after the
     * last question, score the answers, stamp the date and show the results.
     * The radio button only offers the five Likert values.
     */
    method OnSelect(sel: Option<int>, now: string)
      requires Valid()
      requires sel.Some? ==> 1 <= sel.value <= 5
      modifies this
      ensures Valid()
      ensures old(0 <= qIndex < |Catalog|) && sel.Some? ==>
        answers == old(answers)[Catalog[old(qIndex)].key := sel] && qIndex == old(qIndex) + 1
      ensures !(old(0 <= qIndex < |Catalog|) && sel.Some?) ==>
        answers == old(answers) && qIndex == old(qIndex)
      ensures old(0 <= qIndex < |Catalog|) && sel.Some? && qIndex == |Catalog| ==>
        stage == Resultados && result == Some(Scores(answers)) && fecha == Some(now)
      ensures !(old(0 <= qIndex < |Catalog|) && sel.Some? && qIndex == |Catalog|) ==>
        stage == old(stage) && result == old(result) && fecha == old(fecha)
    {
      var idx := qIndex;
      if 0 <= idx < |Catalog| {
        var q := Catalog[idx];
        if sel.Some? {
          RecordAnswer(answers, idx, sel.value);
          answers := answers[q.key := sel];
          qIndex := idx + 1;
          if qIndex >= |Catalog| {
            var scores := ComputeScores(answers);
            result := Some(scores);
            fecha := Some(now);
            stage := Resultados;
          }
        }
      }
    }

    /** The start button: go to the questions, from the first one. */
    method Start()
      requires Valid()
      modifies this`stage, this`qIndex
      ensures Valid()
      ensures stage == Test && qIndex == 0
    {
      stage := Test;
      qIndex := 0;
    }

    /** The new-evaluation button: back to the start page with every answer cleared. */
    method Reset()
      requires Valid()
      modifies this`stage, this`qIndex, this`answers, this`result
      ensures Valid()
      ensures stage == Inicio && qIndex == 0 && answers == EmptyAnswers() && result == None
    {
      stage := Inicio;
      qIndex := 0;
      answers := EmptyAnswers();
      result := None;
    }

    /**
     * The guard at the top of the questions page: past the last question,
     * score the answers, stamp the date and show the results.
     */
    method TestGuard(now: string)
      requires stage == Test
      modifies this`stage, this`result, this`fecha
      ensures old(Valid()) ==> Valid()
      ensures old(qIndex) >= |Catalog| ==>
        stage == Resultados && result == Some(Scores(answers)) && fecha == Some(now)
      ensures old(qIndex) < |Catalog| ==>
        stage == Test && result == old(result) && fecha == old(fecha)
    {
      if qIndex >= |Catalog| {
        var scores := ComputeScores(answers);
        result := Some(scores);
        fecha := Some(now);
        stage := Resultados;
      }
    }

    /**
     * The guard at the top of the results page: without a result (none, or
     * an empty one) go back to the start page. From a valid session it
     * never fires.
     */
    method ResultsGuard()
      requires stage == Resultados
      modifies this`stage
      ensures stage == (if result.None? || result.value == map[] then Inicio else Resultados)
      ensures old(Valid()) ==> Valid() && stage == Resultados
    {
      assert result == Some(Scores(answers)) ==> Apertura in result.value;
      if result.None? || result.value == map[] {
        stage := Inicio;
      }
    }

    /**
     * The router, without any button pressed: the questions and results
     * pages run their guards; an unknown stage returns to the start page.
     */
    method Route(now: string)
      modifies this`stage, this`result, this`fecha
      ensures old(Valid()) ==> Valid()
      ensures old(stage) == Inicio ==>
        stage == Inicio && result == old(result) && fecha == old(fecha)
      ensures old(stage) == Test && old(qIndex) >= |Catalog| ==>
        stage == Resultados && result == Some(Scores(answers)) && fecha == Some(now)
      ensures old(stage) == Test && old(qIndex) < |Catalog| ==>
        stage == Test && result == old(result) && fecha == old(fecha)
      ensures old(stage) == Resultados ==>
        stage == (if old(result).None? || old(result).value == map[] then Inicio else Resultados)
        && result == old(result) && fecha == old(fecha)
      ensures old(stage).Unrecognised? ==>
        stage == Inicio && result == old(result) && fecha == old(fecha)
      ensures old(Valid()) && old(stage) == Resultados ==> stage == Resultados
    {
      match stage
      case Inicio =>
      case Test =>
        TestGuard(now);
      case Resultados =>
        ResultsGuard();
      case Unrecognised(_) =>
        stage := Inicio;
    }
  }

  /**
   * Whenever the results page is shown, every question has been answered on
   * the Likert scale and every dimension's score lies within 0..100.
   */
  lemma ResultsComplete(s: Session)
    requires s.Valid() && s.stage == Resultados
    ensures forall i :: 0 <= i < |Catalog| ==> Answered(s.answers, i)
    ensures s.result.Some?
    ensures forall d :: d in s.result.value && 0.0 <= s.result.value[d] <= 100.0
  {
    ScoresInRange(s.answers);
  }

  /** Scoring a fresh answer set gives 50 in every dimension. */
  lemma EmptyAnswersScoreNeutral()
    ensures forall d :: d in Scores(EmptyAnswers()) && Scores(EmptyAnswers())[d] == 50.0
  {
    NeutralBaseline(EmptyAnswers());
  }
}
