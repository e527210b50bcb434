/**
 * The interviewer screen: pick a questionnaire, load its questions, answer
 * them, and submit the answers; beside it a to-do list with a selected item.
 */
module Enqueteurs {
  import opened Wrappers
  import opened JsStrings

  datatype QuestionnaireSummary = QuestionnaireSummary(id: Option<int>, titre: string)

  datatype Question = Question(id: Option<int>, texte: string, choix: seq<string>)

  datatype ReponseQuestion = ReponseQuestion(questionId: Option<int>, choixSelectionne: string)

  /**
   * The submitted body. An id that `parseInt` turns into `NaN` is serialised
   * as `null`, which `None` stands for.
   */
  datatype ReponseQuestionnaire = ReponseQuestionnaire(enqueteurId: Option<int>, questionnaireId: Option<int>, reponses: seq<ReponseQuestion>)

  datatype Tab = Selection | Questions

  datatype Todo = Todo(id: int, title: string, description: string, dueDate: string, status: string)

  datatype LoadOutcome = NothingSelected | LoadFailed | Loaded

  datatype SubmitOutcome = MissingEnqueteurId | Unanswered | SubmitFailed | Submitted

  const DefaultDueDate := "2023-12-31"
  const PendingStatus := "Pending"

  /** JavaScript `s || d` on a string that may be `null`: both `null` and `""` give `d`. */
  function OrDefault(s: Option<string>, d: string): (r: string)
    ensures s.None? || s.value == "" ==> r == d
    ensures s.Some? && s.value != "" ==> r == s.value
  {
    if s.None? || s.value == "" then d else s.value
  }

  // ------------------------------------------------------------ answer entries

  /** Every non-empty finite set of integers has a least element. */
  lemma {:induction false} MinimumExists(s: set<int>)
    requires s != {}
    ensures exists m :: m in s && forall j :: j in s ==> m <= j
    decreases |s|
  {
    assert exists y :: y in s by {
      if forall y :: y !in s {
        assert false;
      }
    }
    var x :| x in s;
    if s != {x} {
      MinimumExists(s - {x});
      var m :| m in s - {x} && forall j :: j in s - {x} ==> m <= j;
      var least := if x < m then x else m;
      forall j | j in s
        ensures least <= j
      {
        if j != x {
          assert j in s - {x};
        }
      }
      assert least in s;
    }
  }

  /**
   * After some steps of `ReponseEntries`: `entries` lists, in ascending
   * order and with their values, exactly the keys no longer in `remaining`,
   * all of them below every remaining key.
   */
  ghost predicate EntriesSoFar(reponses: map<int, string>, entries: seq<(int, string)>, remaining: set<int>) {
    && remaining <= reponses.Keys
    && |entries| + |remaining| == |reponses.Keys|
    && (forall i :: 0 <= i < |entries| ==> entries[i].0 in reponses && entries[i].0 !in remaining && entries[i].1 == reponses[entries[i].0])
    && (forall k :: k in reponses && k !in remaining ==> (k, reponses[k]) in entries)
    && (forall i, j :: 0 <= i < j < |entries| ==> entries[i].0 < entries[j].0)
    && (forall i, k :: 0 <= i < |entries| && k in remaining ==> entries[i].0 < k)
  }

  /** Moving the least remaining key to the end of the entries keeps `EntriesSoFar`. */
  lemma EntriesStep(reponses: map<int, string>, entries: seq<(int, string)>, remaining: set<int>, k: int)
    requires EntriesSoFar(reponses, entries, remaining)
    requires k in remaining && forall j :: j in remaining ==> k <= j
    ensures EntriesSoFar(reponses, entries + [(k, reponses[k])], remaining - {k})
  {
    var next, rest := entries + [(k, reponses[k])], remaining - {k};
    assert |rest| == |remaining| - 1;
    assert forall i :: 0 <= i < |entries| ==> next[i] == entries[i];
    assert next[|entries|] == (k, reponses[k]);
    forall key | key in reponses && key !in rest
      ensures (key, reponses[key]) in next
    {
      if key != k {
        assert (key, reponses[key]) in entries;
      }
    }
  }

  /**
   * `Object.entries(reponses)`: the keys of a record with integer-valued
   * keys come out in ascending order, each once, with its value.
   */
  method ReponseEntries(reponses: map<int, string>) returns (entries: seq<(int, string)>)
    ensures |entries| == |reponses|
    ensures forall i :: 0 <= i < |entries| ==> entries[i].0 in reponses && entries[i].1 == reponses[entries[i].0]
    ensures forall k :: k in reponses ==> (k, reponses[k]) in entries
    ensures forall i, j :: 0 <= i < j < |entries| ==> entries[i].0 < entries[j].0
  {
    var remaining := reponses.Keys;
    entries := [];
    while remaining != {}
      invariant EntriesSoFar(reponses, entries, remaining)
      decreases |remaining|
    {
      MinimumExists(remaining);
      var k :| k in remaining && forall j :: j in remaining ==> k <= j;
      EntriesStep(reponses, entries, remaining, k);
      entries := entries + [(k, reponses[k])];
      remaining := remaining - {k};
    }
    assert |reponses.Keys| == |reponses|;
  }

  /** One answer of the payload: the key is written out in decimal and parsed back. */
  function ToReponse(entry: (int, string)): (r: ReponseQuestion)
    ensures r == ReponseQuestion(Some(entry.0), entry.1)
  {
    ParseIntOfDecimal(entry.0);
    ReponseQuestion(ParseInt(IntToDecimal(entry.0)), entry.1)
  }

  /**
   * `answers` carries exactly one answer per answered question, with the
   * chosen value, in ascending order of question id.
   */
  ghost predicate AnswersAll(answers: seq<ReponseQuestion>, reponses: map<int, string>) {
    && |answers| == |reponses|
    && (forall i :: 0 <= i < |answers| ==>
          answers[i].questionId.Some? && answers[i].questionId.value in reponses &&
          answers[i].choixSelectionne == reponses[answers[i].questionId.value])
    && (forall k :: k in reponses ==> ReponseQuestion(Some(k), reponses[k]) in answers)
    && (forall i, j :: 0 <= i < j < |answers| ==> answers[i].questionId.value < answers[j].questionId.value)
  }

  /** `reponsesToSubmit`: the answer entries mapped to the request shape. */
  method ReponsesToSubmit(reponses: map<int, string>) returns (answers: seq<ReponseQuestion>)
    ensures AnswersAll(answers, reponses)
  {
    var entries := ReponseEntries(reponses);
    answers := seq(|entries|, i requires 0 <= i < |entries| => ToReponse(entries[i]));
    AnswersOfEntries(reponses, entries, answers);
  }

  /** Answers made entry by entry from the ordered entries answer every question once, in order. */
  lemma AnswersOfEntries(reponses: map<int, string>, entries: seq<(int, string)>, answers: seq<ReponseQuestion>)
    requires |entries| == |reponses|
    requires forall i :: 0 <= i < |entries| ==> entries[i].0 in reponses && entries[i].1 == reponses[entries[i].0]
    requires forall k :: k in reponses ==> (k, reponses[k]) in entries
    requires forall i, j :: 0 <= i < j < |entries| ==> entries[i].0 < entries[j].0
    requires |answers| == |entries|
    requires forall i :: 0 <= i < |answers| ==> answers[i] == ReponseQuestion(Some(entries[i].0), entries[i].1)
    ensures AnswersAll(answers, reponses)
  {
    forall k | k in reponses
      ensures ReponseQuestion(Some(k), reponses[k]) in answers
    {
      var i :| 0 <= i < |entries| && entries[i] == (k, reponses[k]);
      assert answers[i] == ReponseQuestion(Some(k), reponses[k]);
    }
  }

  /** `questionnaires.find(q => q.id === selected)`: `undefined` never equals `null`. */
  predicate Matches(q: QuestionnaireSummary, selected: Option<int>) {
    q.id.Some? && q.id == selected
  }

  /** `selectedQuestionnaireTitle`: the title of the first match, or "" when none matches. */
  function SelectedTitle(questionnaires: seq<QuestionnaireSummary>, selected: Option<int>): (t: string)
    ensures (forall i :: 0 <= i < |questionnaires| ==> !Matches(questionnaires[i], selected)) ==> t == ""
    ensures forall i :: (0 <= i < |questionnaires| && Matches(questionnaires[i], selected) &&
                         (forall j :: 0 <= j < i ==> !Matches(questionnaires[j], selected))) ==> t == questionnaires[i].titre
  {
    if |questionnaires| == 0 then ""
    else if Matches(questionnaires[0], selected) then questionnaires[0].titre
    else
      assert forall i :: 1 <= i < |questionnaires| ==> questionnaires[i] == questionnaires[1..][i - 1];
      SelectedTitle(questionnaires[1..], selected)
  }

  /** The new selection after clicking to-do `id`. */
  function ClickTodo(selected: Option<int>, id: int): (r: Option<int>)
    ensures r == None <==> selected == Some(id)
    ensures r != None ==> r == Some(id)
  {
    if selected == Some(id) then None else Some(id)
  }

  /** Clicking the same to-do twice from no selection, or from that to-do, comes back to where it was. */
  lemma ClickTodoTwice(selected: Option<int>, id: int)
    requires selected == None || selected == Some(id)
    ensures ClickTodo(ClickTodo(selected, id), id) == selected
  {
  }

  /** The to-do ids are 1, 2, ..., n in order. */
  ghost predicate SequentialIds(todos: seq<Todo>) {
    forall i :: 0 <= i < |todos| ==> todos[i].id == i + 1
  }

  class EnqueteurComponent {
    var questionnaires: seq<QuestionnaireSummary>
    var selectedQuestionnaire: Option<int>
    var questions: seq<Question>
    var reponses: map<int, string>
    var enqueteurId: string
    var activeTab: Tab
    var selectedTodo: Option<int>
    var todos: seq<Todo>

    /** The initial state around the given to-do list; the questionnaire list is fetched, not modelled here. */
    constructor (initialTodos: seq<Todo>)
      ensures questionnaires == [] && selectedQuestionnaire == None && questions == []
      ensures reponses == map[] && enqueteurId == "" && activeTab == Selection
      ensures selectedTodo == None && todos == initialTodos
    {
      questionnaires := [];
      selectedQuestionnaire := None;
      questions := [];
      reponses := map[];
      enqueteurId := "";
      activeTab := Selection;
      selectedTodo := None;
      todos := initialTodos;
    }

    /** The questionnaire select: `parseInt(value) || null`, so 0 and `NaN` select nothing. */
    method SelectQuestionnaire(value: string)
      modifies this`selectedQuestionnaire
      ensures selectedQuestionnaire != Some(0)
      ensures ParseInt(value).Some? && ParseInt(value).value != 0 ==> selectedQuestionnaire == ParseInt(value)
      ensures ParseInt(value).None? || ParseInt(value) == Some(0) ==> selectedQuestionnaire == None
    {
      var parsed := ParseInt(value);
      if parsed.Some? && parsed.value != 0 {
        selectedQuestionnaire := parsed;
      } else {
        selectedQuestionnaire := None;
      }
    }

    /** The interviewer id input. */
    method SetEnqueteurId(value: string)
      modifies this`enqueteurId
      ensures enqueteurId == value
    {
      enqueteurId := value;
    }

    /**
     * `handleLoadQuestions`, with `response` the fetched questions (`None`
     * when the request fails, which only logs).
     */
    method HandleLoadQuestions(response: Option<seq<Question>>) returns (outcome: LoadOutcome)
      modifies this`questions, this`reponses, this`activeTab
      ensures outcome == NothingSelected <==> old(selectedQuestionnaire) == None || old(selectedQuestionnaire) == Some(0)
      ensures outcome == Loaded <==> old(selectedQuestionnaire) != None && old(selectedQuestionnaire) != Some(0) && response.Some?
      ensures outcome != Loaded ==> questions == old(questions) && reponses == old(reponses) && activeTab == old(activeTab)
      ensures outcome == Loaded ==> questions == response.value && reponses == map[] && activeTab == Questions
    {
      if selectedQuestionnaire == None || selectedQuestionnaire == Some(0) {
        return NothingSelected;
      }
      if response.None? {
        return LoadFailed;
      }
      questions := response.value;
      reponses := map[];
      activeTab := Questions;
      outcome := Loaded;
    }

    /** `handleReponseChange(questionId, valeur)` */
    method HandleReponseChange(questionId: int, valeur: string)
      modifies this`reponses
      ensures questionId in reponses && reponses[questionId] == valeur
      ensures forall k :: k != questionId ==> (k in reponses <==> k in old(reponses))
      ensures forall k :: k != questionId && k in reponses ==> reponses[k] == old(reponses)[k]
    {
      reponses := reponses[questionId := valeur];
    }

    /**
     * `handleSubmit`, with `backendOk` the outcome of the submit request.
     * `sent` is the body of the request, when one is made.
     */
    method HandleSubmit(backendOk: bool) returns (outcome: SubmitOutcome, sent: Option<ReponseQuestionnaire>)
      modifies this`reponses, this`selectedQuestionnaire, this`questions, this`activeTab
      ensures outcome == MissingEnqueteurId <==> old(enqueteurId) == ""
      ensures outcome == Unanswered <==> old(enqueteurId) != "" && |old(reponses)| < |old(questions)|
      ensures outcome == Submitted <==> old(enqueteurId) != "" && |old(reponses)| >= |old(questions)| && backendOk
      ensures sent.Some? <==> outcome == Submitted || outcome == SubmitFailed
      ensures sent.Some? ==>
                && sent.value.enqueteurId == ParseInt(old(enqueteurId))
                && sent.value.questionnaireId == old(selectedQuestionnaire)
                && AnswersAll(sent.value.reponses, old(reponses))
      ensures outcome != Submitted ==>
                reponses == old(reponses) && selectedQuestionnaire == old(selectedQuestionnaire) && questions == old(questions) && activeTab == old(activeTab)
      ensures outcome == Submitted ==> reponses == map[] && selectedQuestionnaire == None && questions == [] && activeTab == Selection
    {
      sent := None;
      if enqueteurId == "" {
        return MissingEnqueteurId, sent;
      }
      if |reponses| < |questions| {
        return Unanswered, sent;
      }
      var answers := ReponsesToSubmit(reponses);
      sent := Some(ReponseQuestionnaire(ParseInt(enqueteurId), selectedQuestionnaire, answers));
      if !backendOk {
        return SubmitFailed, sent;
      }
      reponses := map[];
      selectedQuestionnaire := None;
      questions := [];
      activeTab := Selection;
      outcome := Submitted;
    }

    /** `handleTodoClick(id)` */
    method HandleTodoClick(id: int)
      modifies this`selectedTodo
      ensures selectedTodo == ClickTodo(old(selectedTodo), id)
    {
      selectedTodo := if selectedTodo == Some(id) then None else Some(id);
    }

    /**
     * The "add" button of the to-do list, with the three prompt answers
     * (`None` when a prompt is cancelled). A cancelled or empty title adds nothing.
     */
    method AddTodo(title: Option<string>, dueDate: Option<string>, description: Option<string>)
      modifies this`todos
      ensures title.None? || title.value == "" ==> todos == old(todos)
      ensures title.Some? && title.value != "" ==>
                todos == old(todos) + [Todo(|old(todos)| + 1, title.value, OrDefault(description, ""), OrDefault(dueDate, DefaultDueDate), PendingStatus)]
      ensures SequentialIds(old(todos)) ==> SequentialIds(todos)
      ensures SequentialIds(old(todos)) && |todos| > |old(todos)| ==>
                forall i :: 0 <= i < |old(todos)| ==> old(todos)[i].id != todos[|todos| - 1].id
    {
      if title.None? || title.value == "" {
        return;
      }
      var todo := Todo(|todos| + 1, title.value, OrDefault(description, ""), OrDefault(dueDate, DefaultDueDate), PendingStatus);
      todos := todos + [todo];
    }

    /** The questions tab button, enabled only once questions are loaded. */
    method ShowQuestionsTab()
      modifies this`activeTab
      ensures |questions| > 0 ==> activeTab == Questions
      ensures |questions| == 0 ==> activeTab == old(activeTab)
    {
      if |questions| > 0 {
        activeTab := Questions;
      }
    }

    /** The selection tab button and the back button. */
    method ShowSelectionTab()
      modifies this`activeTab
      ensures activeTab == Selection
    {
      activeTab := Selection;
    }
  }
}
