# T360 survey administration front end — verified model of its component logic

This project models, in Dafny, the logic of the survey-administration front
end: the scheduling view's progress and staffing estimator, the sortable
quota table, the questionnaire editor, the interviewer (enquêteur) screen
with its answers and to-do list, the study (étude) screen with interviewer
assignment, the stand-alone to-do list, and the human-resources screen's
form rules.

Each React component whose handlers update `useState` fields is a `class`
whose fields stand for those state values, with one method per handler and
`modifies` frames naming the fields the handler sets. Pure helpers
(status classifiers, colour maps, payload shaping, enable predicates) are
functions with lemmas. Network calls are parameters: an `Option` response
(`None` when the request fails), a `bool` outcome, or, for a loop of
requests, the position `failAt` of the first request the backend rejects.
Where a handler's request carries data worth stating (the questions added
to a questionnaire, the interviewers assigned to a study, the answers
submitted, the study or employee saved), the request is returned so that its
contents and order can be stated; the other requests (creating a
questionnaire, deleting a study, the list and detail fetches) are not.

JavaScript semantics the components rely on are written out in two
support modules: `String.prototype.trim` with the ECMAScript white-space set,
`parseInt` without a radix (leading white space, sign, `0x` prefix, longest
digit prefix, `NaN` as `None`), the `x || d` defaults, UTF-16 `length`,
`Array.prototype.filter` by index and by value. `Math.ceil` and
`Math.round` are exact on integers and reals.

Modules: `Wrappers` (Option), `JsStrings`, `JsArrays`, `Gantt`
(`src/pages/GanttChart.tsx`), `Quotas` (`src/components/QuotaTable.tsx`),
`Questionnaires` (`src/components/CreateQuestionnaireComponent.tsx`),
`Enqueteurs` (`src/components/EnqueteurComponent.tsx`), `Etudes`
(`src/components/etude.tsx`), `ToDoList`
(`src/components/ToDoListComponent.tsx`), `RH` (`src/pages/RHInterface.tsx`).

`calculateStatus` has no guard for a study whose start and end fall on the
same day: it then divides by a zero day count. The model requires a non-zero
day count exactly where the code divides (see "Left out").

## Model

| member | source | states |
|---|---|---|
| JsStrings.BlankIffAllWhitespace | src/components/ToDoListComponent.tsx:12 | `s.trim() === ""` holds exactly when every character of `s` is JavaScript white space |
| JsStrings.TrimStartSuffix | src/components/CreateQuestionnaireComponent.tsx:153 | trimming the start drops a white-space prefix and leaves a suffix that starts with a non-space |
| JsStrings.TrimEndPrefix | src/components/CreateQuestionnaireComponent.tsx:156 | trimming the end drops a white-space suffix and leaves a prefix that ends with a non-space |
| JsStrings.TrimMiddle | src/components/CreateQuestionnaireComponent.tsx:153 | `trim()` leaves the middle of the string, with only white space cut on either side and no white space at either end of the result |
| JsStrings.NonNumericIsNaN | src/components/etude.tsx:305 | `parseInt` of text with no digit after the optional sign is `NaN`, so `parseInt(v) \|\| 0` is 0 |
| JsStrings.ParseInt | src/components/EnqueteurComponent.tsx:76 | a number is read only when the first non-space character is a sign or a digit, and a negative number only after a leading minus |
| JsStrings.ParseIntOrZero | src/components/etude.tsx:305 | `parseInt(v) \|\| 0` is 0 exactly when the text parses to `NaN` or to 0, and the parsed number otherwise |
| JsStrings.ParseIntOfDecimal | src/components/EnqueteurComponent.tsx:76 | `parseInt(String(n)) === n` for every integer, negative ones included |
| JsStrings.ParseIntOfDecimalPrefix | src/components/etude.tsx:305 | leading whitespace is skipped and reading stops at the first non-digit: `"  12.5"`, `"1e3"` and `"7 jours"` give 12, 1 and 7; only an `x` right after a lone `0` changes the reading (to hex) |
| JsStrings.ParseIntDefined | src/components/etude.tsx:305 | `parseInt` gives a number exactly when a decimal digit follows the optional sign, or a hex digit follows a `0x` prefix; otherwise `NaN` |
| JsStrings.NatToDecimal | src/components/EnqueteurComponent.tsx:74-76 | the decimal text of a natural number is non-empty, all digits, with no leading zero except for 0 itself |
| JsStrings.Utf16Length | src/pages/RHInterface.tsx:242 | `name.length` counts UTF-16 units: between one and two per character, exactly one on the Basic Multilingual Plane |
| JsStrings.Utf16LengthSingle | src/pages/RHInterface.tsx:242 | one character counts two units above U+FFFF (a surrogate pair) and one otherwise |
| JsStrings.Utf16LengthConcat | src/pages/RHInterface.tsx:242 | the length of a concatenation is the sum of the lengths, so the length is the per-character count summed |
| JsArrays.ExceptIndex | src/components/ToDoListComponent.tsx:18 | `filter((_, i) => i !== k)` removes exactly position `k` keeping the order, and changes nothing for an index out of range |
| JsArrays.Without | src/components/etude.tsx:177 | `filter(e => e !== x)` keeps only elements other than `x`, and every such element |
| JsArrays.WithoutCount | src/components/etude.tsx:177 | the filter keeps each element other than `x` as often as it occurs, and no `x` |
| JsArrays.WithoutConcat | src/components/etude.tsx:177 | the filter distributes over concatenation, so the kept elements stay in their order |
| JsArrays.WithoutSnoc | src/components/etude.tsx:177 | the filter equations: the empty list filters to itself, and a last element is kept exactly when it is not `x` |
| JsArrays.Toggle | src/components/etude.tsx:175-179 | toggling flips membership of the toggled id, leaves every other id's membership alone, and appends an absent id at the end |
| JsArrays.ToggleNoDuplicates | src/components/etude.tsx:176-178 | toggling never introduces a duplicate |
| JsArrays.ToggleTwice | src/components/etude.tsx:176-178 | toggling the same id twice restores membership, and restores the very list when the id was absent |
| Gantt.CeilDiv | src/pages/GanttChart.tsx:178-179 | `Math.ceil(a / b)` is the least integer `r` with `a <= r * b` |
| Gantt.DaysBetween | src/pages/GanttChart.tsx:178-179 | the day count is the number of whole days, rounded up, spanned by the interval |
| Gantt.Classify | src/pages/GanttChart.tsx:181-189 | with no day left: on_track iff progress is at least 100, never at_risk; with days left: on_track at expected + 10 and above, at_risk within ten points below that, delayed further below |
| Gantt.CalculateStatus | src/pages/GanttChart.tsx:173-183 | the status at an instant: once the end date is reached it is on_track iff progress is at least 100, else delayed, never at_risk |
| Gantt.BandsCrossMultiplied | src/pages/GanttChart.tsx:185-189 | with days left, on_track iff progress is at least expected + 10, at_risk iff within [expected − 10, expected + 10), delayed below, stated by cross-multiplication |
| Gantt.OnScheduleIsAtRisk | src/pages/GanttChart.tsx:185-188 | a study exactly on its expected progress is at_risk |
| Gantt.ProgressMonotone | src/pages/GanttChart.tsx:181-189 | with the dates fixed, more progress never gives a worse status (delayed < at_risk < on_track) |
| Gantt.MissingProgressIsZero | src/pages/GanttChart.tsx:176 | a missing progress is classified as progress 0 |
| Gantt.TotalProductivity | src/pages/GanttChart.tsx:195 | the summed productivity of an empty roster is 0, and of a roster with no negative productivity is not negative |
| Gantt.TotalProductivitySingle | src/pages/GanttChart.tsx:195 | a one-enumerator roster totals that enumerator's productivity |
| Gantt.TotalProductivityConcat | src/pages/GanttChart.tsx:195 | the total over two rosters in a row is the sum of their totals, so the total is the sum of all productivities |
| Gantt.AverageProductivity | src/pages/GanttChart.tsx:195 | the average times the roster size is the total productivity; an empty roster averages 0 |
| Gantt.Ceil | src/pages/GanttChart.tsx:197 | `Math.ceil(x)` is the least integer not below `x` |
| Gantt.RequiredEnumerators | src/pages/GanttChart.tsx:192-197 | the estimate is the quota per unit of daily capacity rounded up: at least that ratio and less than one above it |
| Gantt.RequiredEnumeratorsIsLeastSufficient | src/pages/GanttChart.tsx:192-197 | with positive capacity the estimate covers the quota, and no smaller staffing does |
| Gantt.MissingQuotasNeedNobody | src/pages/GanttChart.tsx:193 | a study without quotas needs 0 interviewers |
| Gantt.StatusColor | src/pages/GanttChart.tsx:200-207 | the gray default class is returned exactly for strings that are not a status name |
| Gantt.StatusIcon | src/pages/GanttChart.tsx:209-216 | the clipboard default icon is returned exactly for strings that are not a status name |
| Gantt.StatusText | src/pages/GanttChart.tsx:218-225 | the "Statut inconnu" default label is returned exactly for strings that are not a status name |
| Gantt.StatusMapsDistinguishStatuses | src/pages/GanttChart.tsx:200-225 | every status has a known name, and colour, icon and label each tell the three statuses apart |
| Quotas.StringLessIrreflexive | src/components/QuotaTable.tsx:183 | no string is `<` itself |
| Quotas.StringLessTransitive | src/components/QuotaTable.tsx:183-186 | string `<` is transitive |
| Quotas.StringLessTotal | src/components/QuotaTable.tsx:183-189 | two strings are equal or one is `<` the other |
| Quotas.StringLessAsymmetric | src/components/QuotaTable.tsx:183-186 | no two strings are each `<` the other |
| Quotas.Compare | src/components/QuotaTable.tsx:175-190 | the comparator returns -1, 0 or 1; negative exactly when `a` has the smaller field value ascending, or the larger descending; 0 exactly for equal-ranked values |
| Quotas.CompareAntisymmetric | src/components/QuotaTable.tsx:175-190 | swapping the comparator's arguments negates its result |
| Quotas.InOrderTransitive | src/components/QuotaTable.tsx:175-190 | the comparator's "may precede" relation is transitive |
| Quotas.SortedMeansMonotoneKey | src/components/QuotaTable.tsx:183-189 | a sorted ascending list never has a smaller key after a larger one, and descending the reverse |
| Quotas.SortCopy | src/components/QuotaTable.tsx:175 | sorting a fresh copy yields a permutation of the quotas, in comparator order |
| Quotas.InsertLast | src/components/QuotaTable.tsx:175 | one insertion step extends the sorted prefix by one cell and keeps the array's contents |
| Quotas.Clicked | src/components/QuotaTable.tsx:164-170 | a click selects its key and sorts descending exactly when that key was already sorted ascending |
| Quotas.ClickedBehaviour | src/components/QuotaTable.tsx:164-170 | after a first click on a key, further clicks on it alternate between the two directions |
| Quotas.QuotaTable.constructor | src/components/QuotaTable.tsx:19-26 | the table starts with no sort key, ascending |
| Quotas.QuotaTable.HandleSort | src/components/QuotaTable.tsx:164-170 | the new sort configuration is the click transition of the old one; the quotas are untouched |
| Quotas.QuotaTable.SortedQuotas | src/components/QuotaTable.tsx:172-191 | without a key the list is shown as is; with one, a sorted permutation of it |
| Quotas.Round | src/components/QuotaTable.tsx:243 | `Math.round(x)` is the integer within half a unit of `x`, halves rounded up |
| Quotas.ProgressPercent | src/components/QuotaTable.tsx:243 | the shown percentage is within half a point of the exact completion percentage |
| Quotas.ProgressPercentBounds | src/components/QuotaTable.tsx:243 | a completion within the quota shows as 0 to 100 percent |
| Quotas.ProgressColor | src/components/QuotaTable.tsx:146-151 | every percentage gets one of the four colours, each on exactly its band: green-600 from 100, green-500 from 50 below 100, yellow-500 from 30 below 50, red below 30 |
| Quotas.ProgressColorMonotone | src/components/QuotaTable.tsx:146-151 | a higher percentage never gets a worse colour |
| Quotas.MetQuotaIsDarkGreen | src/components/QuotaTable.tsx:146-151 | a met or exceeded quota is shown green-600 |
| Quotas.StatusColor | src/components/QuotaTable.tsx:153-161 | exactly the unknown statuses get the gray class |
| Quotas.StatusColorsDistinct | src/components/QuotaTable.tsx:154-159 | the five known statuses get five distinct classes |
| Questionnaires.NonBlankOptions | src/components/CreateQuestionnaireComponent.tsx:156 | the kept options are non-blank options of the question, and every non-blank option is kept |
| Questionnaires.NonBlankOptionsCount | src/components/CreateQuestionnaireComponent.tsx:156 | each non-blank option is kept as often as it occurs, and no blank one is |
| Questionnaires.NonBlankOptionsAppend | src/components/CreateQuestionnaireComponent.tsx:156 | the option filter distributes over concatenation, so the kept options stay in their order |
| Questionnaires.ValidQuestions | src/components/CreateQuestionnaireComponent.tsx:153-157 | the kept questions have non-blank text and only non-blank options; none is kept exactly when every text is blank |
| Questionnaires.ValidQuestionsAppend | src/components/CreateQuestionnaireComponent.tsx:153-157 | the filter distributes over concatenation, so it keeps the questions' order |
| Questionnaires.ValidQuestionsSingle | src/components/CreateQuestionnaireComponent.tsx:153-157 | one question is kept, with blank options dropped, exactly when its text is not blank |
| Questionnaires.QuestionnaireManager.constructor | src/components/CreateQuestionnaireComponent.tsx:45-49 | the draft starts as one question with text "" and one option "", the list view, nothing open |
| Questionnaires.QuestionnaireManager.SetTitre | src/components/CreateQuestionnaireComponent.tsx:305 | the title holds the typed text; nothing else changes |
| Questionnaires.QuestionnaireManager.HandleAddQuestion | src/components/CreateQuestionnaireComponent.tsx:195-197 | appends one empty question and keeps the others; the draft invariant holds |
| Questionnaires.QuestionnaireManager.HandleAddOption | src/components/CreateQuestionnaireComponent.tsx:199-203 | appends an empty option to question `qIndex` only |
| Questionnaires.QuestionnaireManager.HandleRemoveQuestion | src/components/CreateQuestionnaireComponent.tsx:205-209 | does nothing with one question left, otherwise removes exactly `qIndex`, keeping the order |
| Questionnaires.QuestionnaireManager.HandleRemoveOption | src/components/CreateQuestionnaireComponent.tsx:211-216 | does nothing when the question has one option, otherwise removes option `oIndex` of question `qIndex` only |
| Questionnaires.QuestionnaireManager.HandleChangeQuestionText | src/components/CreateQuestionnaireComponent.tsx:218-222 | changes the text of question `qIndex` only |
| Questionnaires.QuestionnaireManager.HandleChangeOption | src/components/CreateQuestionnaireComponent.tsx:224-228 | changes option `oIndex` of question `qIndex` only |
| Questionnaires.QuestionnaireManager.HandleCreateQuestionnaire | src/components/CreateQuestionnaireComponent.tsx:96-124 | refused exactly when the title is blank; a successful create appends one questionnaire with no questions, clears the title and shows the list |
| Questionnaires.QuestionnaireManager.OpenQuestionnaire | src/components/CreateQuestionnaireComponent.tsx:127-144 | a successful open records the fetched questions, resets the draft to one empty question and shows the editor |
| Questionnaires.QuestionnaireManager.HandleAddQuestions | src/components/CreateQuestionnaireComponent.tsx:147-192 | refused exactly when no questionnaire with a truthy id is open, or when no question is valid; otherwise one request per valid question, in order, up to and including the first failure; full success resets the draft and shows the list |
| Enqueteurs.OrDefault | src/components/EnqueteurComponent.tsx:132-133 | `s \|\| d` gives `d` for a cancelled or empty answer and `s` otherwise |
| Enqueteurs.ReponseEntries | src/components/EnqueteurComponent.tsx:74 | the entries list every answered question id once, with its answer, in ascending id order |
| Enqueteurs.ToReponse | src/components/EnqueteurComponent.tsx:75-78 | the id read back with `parseInt` from its text is the id itself |
| Enqueteurs.ReponsesToSubmit | src/components/EnqueteurComponent.tsx:74-79 | the payload has exactly one answer per answered question, carrying the chosen value |
| Enqueteurs.SelectedTitle | src/components/EnqueteurComponent.tsx:107 | the title of the first questionnaire with the selected id, or "" when none has it |
| Enqueteurs.ClickTodo | src/components/EnqueteurComponent.tsx:110 | clicking deselects the selected to-do and otherwise selects the clicked one |
| Enqueteurs.ClickTodoTwice | src/components/EnqueteurComponent.tsx:109-111 | two clicks on the same to-do from nothing selected, or from it, come back to where they started |
| Enqueteurs.EnqueteurComponent.constructor | src/components/EnqueteurComponent.tsx:7-25 | the screen starts on the selection tab with nothing selected or answered |
| Enqueteurs.EnqueteurComponent.SelectQuestionnaire | src/components/EnqueteurComponent.tsx:268 | `parseInt(v) \|\| null` selects the parsed id, and nothing for 0 or `NaN` |
| Enqueteurs.EnqueteurComponent.SetEnqueteurId | src/components/EnqueteurComponent.tsx:250 | the interviewer id is the typed text |
| Enqueteurs.EnqueteurComponent.HandleLoadQuestions | src/components/EnqueteurComponent.tsx:42-56 | refused exactly when nothing is selected; a successful load replaces the questions, clears the answers and opens the questions tab |
| Enqueteurs.EnqueteurComponent.HandleReponseChange | src/components/EnqueteurComponent.tsx:59-61 | sets the answer of one question and leaves every other answer as it was |
| Enqueteurs.EnqueteurComponent.HandleSubmit | src/components/EnqueteurComponent.tsx:64-105 | refused exactly without an interviewer id, or with fewer answers than questions; otherwise the request is sent with the parsed ids and all answers; success clears answers, selection and questions and returns to selection |
| Enqueteurs.EnqueteurComponent.HandleTodoClick | src/components/EnqueteurComponent.tsx:109-111 | the selection becomes the click transition of the old one |
| Enqueteurs.EnqueteurComponent.AddTodo | src/components/EnqueteurComponent.tsx:120-137 | a cancelled or empty title adds nothing; otherwise one pending to-do is appended with id length + 1 and the defaults, keeping ids sequential and fresh |
| Enqueteurs.EnqueteurComponent.ShowQuestionsTab | src/components/EnqueteurComponent.tsx:235 | the questions tab opens only once questions are loaded |
| Enqueteurs.EnqueteurComponent.ShowSelectionTab | src/components/EnqueteurComponent.tsx:230 | the selection tab opens |
| Etudes.QuotaInput | src/components/etude.tsx:305 | the quota field is the parsed integer, or 0 when the text is not a number |
| Etudes.NonNumericQuotaIsZero | src/components/etude.tsx:305 | a quota input without digits becomes 0 |
| Etudes.DecimalQuotaReadBack | src/components/etude.tsx:305 | a quota typed in decimal is read back as that number |
| Etudes.SaveRequestFor | src/components/etude.tsx:152-158 | an update of the form's id exactly when editing with a truthy id, a create of the form otherwise |
| Etudes.EtudeComponent.constructor | src/components/etude.tsx:35-47 | the screen starts with the blank form, not editing, nothing selected |
| Etudes.EtudeComponent.HandleSelectEtude | src/components/etude.tsx:101-131 | a successful select records the study and clears the interviewer selection |
| Etudes.EtudeComponent.HandleCheckboxChange | src/components/etude.tsx:175-179 | removes a selected id, appends an unselected one at the end, leaves other ids alone and keeps the selection free of duplicates |
| Etudes.EtudeComponent.HandleAssignEnqueteurs | src/components/etude.tsx:181-194 | nothing without a selected study or interviewers; otherwise one request per selected id, in order, up to the first failure; full success clears the selection and selects the study again |
| Etudes.EtudeComponent.HandleDeleteEtude | src/components/etude.tsx:133-147 | a confirmed, successful delete refreshes the list and clears the selected study only when its id is the deleted one |
| Etudes.EtudeComponent.HandleSubmit | src/components/etude.tsx:149-167 | sends the update-or-create request; success resets the form to the blank study and stops editing |
| Etudes.EtudeComponent.HandleEdit | src/components/etude.tsx:169-173 | the form becomes the study, in editing mode |
| Etudes.EtudeComponent.ChangeObjectifQuotas | src/components/etude.tsx:304-306 | only the form's quota changes, to the parsed input or 0 |
| ToDoList.ToDoListComponent.constructor | src/components/ToDoListComponent.tsx:8-9 | the list and the input start empty |
| ToDoList.ToDoListComponent.SetNewTask | src/components/ToDoListComponent.tsx:30 | the input holds the typed text |
| ToDoList.ToDoListComponent.AddTask | src/components/ToDoListComponent.tsx:11-15 | white-space-only input changes nothing; otherwise the untrimmed text is appended after the unchanged tasks and the input is cleared |
| ToDoList.ToDoListComponent.RemoveTask | src/components/ToDoListComponent.tsx:17-19 | removes exactly position `index`, keeping the order, and changes nothing for an index out of range |
| RH.AvatarIndex | src/pages/RHInterface.tsx:242 | the colour index is the name's UTF-16 length modulo six |
| RH.AvatarColor | src/pages/RHInterface.tsx:233-244 | the avatar colour is always one of the six listed classes |
| RH.AvatarColorPeriodic | src/pages/RHInterface.tsx:242 | names whose lengths differ by a multiple of six share a colour |
| RH.OpenEmployeeForm | src/pages/RHInterface.tsx:79-90 | the form starts as the given employee, or with blank name, email, role and credentials |
| RH.UpdatePayload | src/pages/RHInterface.tsx:97 | the update body has no credentials, and putting the form's credentials back gives the form |
| RH.UpdatePayloadKeepsProfile | src/pages/RHInterface.tsx:97 | the update body keeps every other field of the form |
| RH.SaveEmployeeRequest | src/pages/RHInterface.tsx:95-101 | an update of the selected employee without credentials when it has an id, an add of the whole form otherwise |
| RH.EmployeeSaveDisabled | src/pages/RHInterface.tsx:684 | the save is enabled exactly when both names are filled in and, for a new employee, both credentials as well; credentials are never demanded for an employee with an id |
| RH.NewEmployeeSaveEnabled | src/pages/RHInterface.tsx:92-101 | a new employee with names and credentials filled in can be saved, and the save adds the whole form |
| RH.BlankEmployeeFormDisabled | src/pages/RHInterface.tsx:684 | the blank new-employee form cannot be saved |
| RH.EnabledSaveCredentials | src/pages/RHInterface.tsx:684 | an enabled save has both names; it sends no credentials on update and both, non-empty, on create |
| RH.EditExistingSendsUpdate | src/pages/RHInterface.tsx:79-98 | saving the unchanged form of an employee with an id updates that employee with its own profile and no credentials, and only the names enable the save |
| RH.BlankFormsDisabled | src/pages/RHInterface.tsx:742-916 | freshly opened absence, contract, salary and request forms cannot be submitted; the request form then needs only type and description |
| RH.ContratEndDateOptional | src/pages/RHInterface.tsx:804 | a contract's end date does not decide whether it can be added |
| RH.AbsenceEnabledIff | src/pages/RHInterface.tsx:742 | an absence can be added exactly when both dates and the reason are filled in |
| RH.ContratEnabledIff | src/pages/RHInterface.tsx:804 | a contract can be added exactly when its type and start date are filled in |
| RH.DemandeEnabledIff | src/pages/RHInterface.tsx:916 | a request can be added exactly when its type, description and date are filled in |
| RH.SalaireEnabledIff | src/pages/RHInterface.tsx:852 | a salary can be added exactly when its amount is a non-zero number and it has a payment date |
| RH.DemandeTone | src/pages/RHInterface.tsx:482 | VALIDE is green, REFUSE is red, anything else yellow |
| RH.DemandeBorderClass | src/pages/RHInterface.tsx:482 | the green border exactly for VALIDE and the red one exactly for REFUSE |
| RH.DemandeBadgeClass | src/pages/RHInterface.tsx:487 | the green badge exactly for VALIDE and the red one exactly for REFUSE |
| RH.PendingIsYellowWithActions | src/pages/RHInterface.tsx:482-491 | only EN_ATTENTE offers actions, and it is shown in yellow |
| RH.DemandeClassesDistinct | src/pages/RHInterface.tsx:482-487 | the border and badge classes tell the three tones apart |

## Left out

- Network, browser dialogs and timers: the sending of requests (only the payloads named above are returned), `alert`, `confirm`, `prompt`, `console` and the `setTimeout` success notices are outside the model; responses, confirmations and prompt answers are parameters, and the error and success message fields are not kept.
- Loading and submitting flags (`isLoading`, `isSubmitting`, `loading`) and modal visibility flags are display state with no logic.
- Fetch fan-out: the initial fetches, the per-questionnaire question fetches (`Promise.all`) and the supervisor and assigned-interviewer fetches of a selected study; a re-fetched list is a parameter.
- Hard-coded seed data of the scheduling view, the quota table and the interviewer to-do list; constructors take the initial lists.
- Rendering, CSS beyond the named mappings, and the Gantt chart library call.
- Dates: parsing and the wall clock; instants are integer milliseconds with "now" a parameter, and IEEE floating-point rounding of progress, productivity and percentages is not modelled (exact reals are used).
- Gantt.CalculateStatus: requires a non-zero total day count when days remain, because the code divides by it there (a study that starts and ends on the same day yields an infinite expected progress).
- Gantt.RequiredEnumerators: requires a non-zero daily capacity, because the code then divides by zero and returns an infinite or `NaN` estimate.
- Quotas.ProgressPercent: requires a non-zero quota total, because the code then divides by zero and shows `NaN` (nothing completed) or `Infinity` (some completed).
- Quotas.SortedQuotas: the result is a sorted permutation, but which of several equal-keyed orders it is (the stability of `Array.prototype.sort`) is not stated; the comparator's branches for missing field values are not modelled because every quota field is required.
- JsStrings.ParseInt: the value is the exact integer the digits denote; JavaScript reads it as a double, so digit strings beyond 2^53 are rounded there and not here.
- Quotas.StringLess: compares code points, which agrees with JavaScript's UTF-16 comparison on the Basic Multilingual Plane only.
- Enqueteurs.ReponseEntries: ascending key order is JavaScript's order for array-index keys; negative or very large question ids, which JavaScript orders by insertion or writes in exponent form, are ordered the same way here.
- Enqueteurs.EnqueteurComponent.HandleSubmit: the answers are only counted against the questions, as in the code; which questions they answer is not checked.
- Questionnaires.QuestionnaireManager.HandleAddOption: requires `qIndex` to address an existing question (the code fails otherwise); the code appends to the question object it shares with the previous state, which the model, working on values, does not capture.
- Questionnaires.QuestionnaireManager.HandleRemoveOption: requires `qIndex` to address an existing question (the code fails otherwise); the shared question object is updated in place in the code.
- Questionnaires.QuestionnaireManager.HandleChangeQuestionText: requires `qIndex` to address an existing question (the code fails otherwise); the shared question object is updated in place in the code.
- Questionnaires.QuestionnaireManager.HandleChangeOption: requires both indices to address existing entries (the code fails, or grows the option array with holes, otherwise); the shared question object is updated in place in the code.
- Etudes.EtudeComponent.HandleAssignEnqueteurs: the code starts the re-selection of the study after a full success without awaiting it; the model applies the fetched study at once, and leaves out its supervisor and assigned-interviewer fetches as for the other selections.
- RH: employee, absence, contract, salary and request lists, employee deletion and the validate/refuse requests are plain requests followed by a re-fetch and are not modelled.
