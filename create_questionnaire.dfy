/**
 * The questionnaire manager: create a questionnaire by title, then open it
 * and compose a draft list of questions, each with its answer options, and
 * send the non-blank ones to the backend.
 *
 * The draft keeps two invariants: there is always at least one question, and
 * every question has at least one option.
 */
module Questionnaires {
  import opened Wrappers
  import opened JsStrings
  import opened JsArrays

  datatype Question = Question(id: Option<int>, texte: string, choix: seq<string>)

  datatype Questionnaire = Questionnaire(id: int, titre: string, questions: seq<Question>)

  /** A questionnaire as the backend returns it after a create. */
  datatype ApiQuestionnaire = ApiQuestionnaire(id: Option<int>, titre: string)

  /** The body of one `createQuestion` request. */
  datatype QuestionData = QuestionData(texte: string, choix: seq<string>, questionnaireId: int)

  datatype View = List | Create | Edit

  datatype CreateOutcome = TitleMissing | CreateFailed | Created

  datatype AddOutcome = NoQuestionnaire | NoValidQuestion | AddFailed | Added

  /** `{ texte: '', choix: [''] }` */
  const EmptyQuestion := Question(None, "", [""])

  /** The draft invariant. */
  ghost predicate DraftInvariant(questions: seq<Question>) {
    |questions| >= 1 && forall i :: 0 <= i < |questions| ==> |questions[i].choix| >= 1
  }

  // ------------------------------------------------------------ validQuestions

  /** `choix.filter(opt => opt.trim() !== '')` */
  function NonBlankOptions(choix: seq<string>): (r: seq<string>)
    ensures forall k :: 0 <= k < |r| ==> !IsBlank(r[k]) && r[k] in choix
    ensures forall k :: 0 <= k < |choix| && !IsBlank(choix[k]) ==> choix[k] in r
    ensures |r| <= |choix|
  {
    if |choix| == 0 then []
    else if IsBlank(choix[0]) then NonBlankOptions(choix[1..])
    else [choix[0]] + NonBlankOptions(choix[1..])
  }

  /** The option filter keeps each non-blank option as often as it occurs, and no blank one. */
  lemma {:induction false} NonBlankOptionsCount(choix: seq<string>, y: string)
    ensures multiset(NonBlankOptions(choix))[y] == if IsBlank(y) then 0 else multiset(choix)[y]
  {
    if |choix| > 0 {
      NonBlankOptionsCount(choix[1..], y);
      assert choix == [choix[0]] + choix[1..];
    }
  }

  /** Filtering the options distributes over concatenation, so the kept options stay in their order. */
  lemma {:induction false} NonBlankOptionsAppend(a: seq<string>, b: seq<string>)
    ensures NonBlankOptions(a + b) == NonBlankOptions(a) + NonBlankOptions(b)
  {
    if |a| > 0 {
      var ab := a + b;
      assert ab[0] == a[0];
      assert ab[1..] == a[1..] + b;
      NonBlankOptionsAppend(a[1..], b);
    } else {
      assert a + b == b;
    }
  }

  /** The question as submitted: its blank options dropped. */
  function Normalized(q: Question): Question {
    q.(choix := NonBlankOptions(q.choix))
  }

  /**
   * `validQuestions`: the questions whose trimmed text is not empty, in
   * order, each with its blank options dropped.
   */
  function ValidQuestions(questions: seq<Question>): (r: seq<Question>)
    ensures |r| <= |questions|
    ensures forall i :: 0 <= i < |r| ==> !IsBlank(r[i].texte)
    ensures forall i, k :: 0 <= i < |r| && 0 <= k < |r[i].choix| ==> !IsBlank(r[i].choix[k])
    ensures r == [] <==> forall i :: 0 <= i < |questions| ==> IsBlank(questions[i].texte)
  {
    if |questions| == 0 then []
    else
      var rest := ValidQuestions(questions[1..]);
      assert forall i :: 1 <= i < |questions| ==> questions[i] == questions[1..][i - 1];
      if IsBlank(questions[0].texte) then rest
      else [Normalized(questions[0])] + rest
  }

  /** Filtering distributes over concatenation, so it keeps the relative order of the questions. */
  lemma {:induction false} ValidQuestionsAppend(a: seq<Question>, b: seq<Question>)
    ensures ValidQuestions(a + b) == ValidQuestions(a) + ValidQuestions(b)
  {
    if |a| > 0 {
      var ab := a + b;
      assert ab[0] == a[0];
      assert ab[1..] == a[1..] + b;
      ValidQuestionsAppend(a[1..], b);
    } else {
      assert a + b == b;
    }
  }

  /** A single question is kept, normalised, exactly when its text is not blank. */
  lemma ValidQuestionsSingle(q: Question)
    ensures ValidQuestions([q]) == if IsBlank(q.texte) then [] else [Normalized(q)]
  {
    assert [q][1..] == [];
  }

  /** The body of the request for one valid question. */
  function ToRequest(q: Question, questionnaireId: int): QuestionData {
    QuestionData(q.texte, q.choix, questionnaireId)
  }

  class QuestionnaireManager {
    var view: View
    var questionnaires: seq<Questionnaire>
    var currentQuestionnaire: Option<Questionnaire>
    var titre: string
    var questions: seq<Question>

    ghost predicate Valid()
      reads this
    {
      DraftInvariant(questions)
    }

    /** The initial state; the list is filled by a fetch from the backend, not modelled here. */
    constructor ()
      ensures Valid()
      ensures view == List && questionnaires == [] && currentQuestionnaire == None
      ensures titre == "" && questions == [EmptyQuestion]
    {
      view := List;
      questionnaires := [];
      currentQuestionnaire := None;
      titre := "";
      questions := [EmptyQuestion];
    }

    /** The title input: stores the typed text as it is, blank or not. */
    method SetTitre(value: string)
      requires Valid()
      modifies this`titre
      ensures Valid()
      ensures titre == value
    {
      titre := value;
    }

    /** `handleAddQuestion` */
    method HandleAddQuestion()
      requires Valid()
      modifies this`questions
      ensures Valid()
      ensures questions == old(questions) + [EmptyQuestion]
    {
      questions := questions + [EmptyQuestion];
    }

    /** `handleAddOption(qIndex)`: the source fails on a missing question, so one must exist. */
    method HandleAddOption(qIndex: int)
      requires Valid()
      requires 0 <= qIndex < |questions|
      modifies this`questions
      ensures Valid()
      ensures |questions| == |old(questions)|
      ensures questions == old(questions)[qIndex := old(questions)[qIndex].(choix := old(questions)[qIndex].choix + [""])]
    {
      var updated := questions;
      updated := updated[qIndex := updated[qIndex].(choix := updated[qIndex].choix + [""])];
      questions := updated;
    }

    /** `handleRemoveQuestion(qIndex)`: never removes the last question. */
    method HandleRemoveQuestion(qIndex: int)
      requires Valid()
      modifies this`questions
      ensures Valid()
      ensures |old(questions)| <= 1 ==> questions == old(questions)
      ensures |old(questions)| > 1 ==> questions == ExceptIndex(old(questions), qIndex)
    {
      if |questions| <= 1 {
        return;
      }
      questions := ExceptIndex(questions, qIndex);
    }

    /** `handleRemoveOption(qIndex, oIndex)`: never removes a question's last option. */
    method HandleRemoveOption(qIndex: int, oIndex: int)
      requires Valid()
      requires 0 <= qIndex < |questions|
      modifies this`questions
      ensures Valid()
      ensures |old(questions)[qIndex].choix| <= 1 ==> questions == old(questions)
      ensures |old(questions)[qIndex].choix| > 1 ==>
                questions == old(questions)[qIndex := old(questions)[qIndex].(choix := ExceptIndex(old(questions)[qIndex].choix, oIndex))]
    {
      var updated := questions;
      if |updated[qIndex].choix| <= 1 {
        return;
      }
      updated := updated[qIndex := updated[qIndex].(choix := ExceptIndex(updated[qIndex].choix, oIndex))];
      questions := updated;
    }

    /** `handleChangeQuestionText(qIndex, value)` */
    method HandleChangeQuestionText(qIndex: int, value: string)
      requires Valid()
      requires 0 <= qIndex < |questions|
      modifies this`questions
      ensures Valid()
      ensures questions == old(questions)[qIndex := old(questions)[qIndex].(texte := value)]
    {
      var updated := questions;
      updated := updated[qIndex := updated[qIndex].(texte := value)];
      questions := updated;
    }

    /** `handleChangeOption(qIndex, oIndex, value)` */
    method HandleChangeOption(qIndex: int, oIndex: int, value: string)
      requires Valid()
      requires 0 <= qIndex < |questions|
      requires 0 <= oIndex < |questions[qIndex].choix|
      modifies this`questions
      ensures Valid()
      ensures questions == old(questions)[qIndex := old(questions)[qIndex].(choix := old(questions)[qIndex].choix[oIndex := value])]
    {
      var updated := questions;
      updated := updated[qIndex := updated[qIndex].(choix := updated[qIndex].choix[oIndex := value])];
      questions := updated;
    }

    /**
     * `handleCreateQuestionnaire`, with `response` the backend's answer
     * (`None` when the request fails). A blank title is refused before any request.
     */
    method HandleCreateQuestionnaire(response: Option<ApiQuestionnaire>) returns (outcome: CreateOutcome)
      requires Valid()
      modifies this`questionnaires, this`titre, this`view
      ensures Valid()
      ensures outcome == TitleMissing <==> IsBlank(old(titre))
      ensures outcome == Created <==> !IsBlank(old(titre)) && response.Some?
      ensures outcome != Created ==> questionnaires == old(questionnaires) && titre == old(titre) && view == old(view)
      ensures outcome == Created ==>
                && questionnaires == old(questionnaires) + [Questionnaire(response.value.id.GetOr(0), response.value.titre, [])]
                && titre == "" && view == List
    {
      if IsBlank(titre) {
        return TitleMissing;
      }
      if response.None? {
        return CreateFailed;
      }
      var created := Questionnaire(response.value.id.GetOr(0), response.value.titre, []);
      questionnaires := questionnaires + [created];
      titre := "";
      view := List;
      outcome := Created;
    }

    /** `openQuestionnaire(q)`, with `response` the fetched questions (`None` on failure). */
    method OpenQuestionnaire(q: Questionnaire, response: Option<seq<Question>>)
      requires Valid()
      modifies this`currentQuestionnaire, this`questions, this`view
      ensures Valid()
      ensures response.None? ==> currentQuestionnaire == old(currentQuestionnaire) && questions == old(questions) && view == old(view)
      ensures response.Some? ==>
                currentQuestionnaire == Some(q.(questions := response.value)) && questions == [EmptyQuestion] && view == Edit
    {
      if response.Some? {
        currentQuestionnaire := Some(q.(questions := response.value));
        questions := [EmptyQuestion];
        view := Edit;
      }
    }

    /**
     * `handleAddQuestions`. The valid questions are sent one request at a
     * time, in order; `failAt` is the position of the first request the
     * backend rejects (none when out of range), after which nothing more is
     * sent and the draft is kept. `refreshed` is the re-fetched list
     * (`None` when that fetch fails, which only alerts).
     */
    method HandleAddQuestions(failAt: int, refreshed: Option<seq<Questionnaire>>) returns (outcome: AddOutcome, issued: seq<QuestionData>)
      requires Valid()
      modifies this`questionnaires, this`questions, this`view
      ensures Valid()
      ensures outcome == NoQuestionnaire <==> old(currentQuestionnaire).None? || old(currentQuestionnaire).value.id == 0
      ensures outcome == NoQuestionnaire || outcome == NoValidQuestion ==> issued == []
      ensures outcome == NoValidQuestion <==> old(currentQuestionnaire).Some? && old(currentQuestionnaire).value.id != 0 && ValidQuestions(old(questions)) == []
      ensures outcome == AddFailed || outcome == Added ==>
                var valid, id := ValidQuestions(old(questions)), old(currentQuestionnaire).value.id;
                && |issued| == (if 0 <= failAt < |valid| then failAt + 1 else |valid|)
                && (forall k :: 0 <= k < |issued| ==> issued[k] == ToRequest(valid[k], id))
                && (outcome == Added <==> !(0 <= failAt < |valid|))
      ensures outcome != Added ==> questionnaires == old(questionnaires) && questions == old(questions) && view == old(view)
      ensures outcome == Added ==>
                && questionnaires == (if refreshed.Some? then refreshed.value else old(questionnaires))
                && questions == [EmptyQuestion] && view == List
    {
      issued := [];
      if currentQuestionnaire.None? || currentQuestionnaire.value.id == 0 {
        return NoQuestionnaire, issued;
      }
      var id := currentQuestionnaire.value.id;
      var valid := ValidQuestions(questions);
      if |valid| == 0 {
        return NoValidQuestion, issued;
      }
      var i := 0;
      var failed := false;
      while i < |valid| && !failed
        invariant 0 <= i <= |valid|
        invariant |issued| == i
        invariant forall k :: 0 <= k < i ==> issued[k] == ToRequest(valid[k], id)
        invariant failed <==> 0 <= failAt < i
        invariant failed ==> i == failAt + 1
        invariant !failed ==> !(0 <= failAt < i)
      {
        issued := issued + [ToRequest(valid[i], id)];
        failed := i == failAt;
        i := i + 1;
      }
      if failed {
        return AddFailed, issued;
      }
      if refreshed.Some? {
        questionnaires := refreshed.value;
      }
      questions := [EmptyQuestion];
      view := List;
      outcome := Added;
    }
  }
}
