/**
 * The study (étude) screen: a create/edit form, a list with delete, and the
 * assignment of interviewers (enquêteurs) chosen with checkboxes to the
 * selected study.
 */
module Etudes {
  import opened Wrappers
  import opened JsStrings
  import opened JsArrays

  datatype Etude = Etude(id: Option<int>, nom: string, dateDebut: string, dateFin: string, objectifQuotas: int)

  /** The write request `handleSubmit` sends. */
  datatype SaveRequest = UpdateEtude(id: int, etude: Etude) | CreateEtude(etude: Etude)

  /** One `assignEnqueteurToEtude` request; `None` stands for a study without an id. */
  datatype Assignment = Assignment(etudeId: Option<int>, enqueteurId: int)

  datatype AssignOutcome = NothingToAssign | AssignFailed | Assigned

  /** The blank form. */
  const EmptyEtude := Etude(None, "", "", "", 0)

  /** `parseInt(value) || 0`: NaN and 0 both give 0. */
  function QuotaInput(value: string): (n: int)
    ensures ParseInt(value).None? ==> n == 0
    ensures ParseInt(value).Some? ==> n == ParseInt(value).value
  {
    ParseIntOrZero(value)
  }

  /** A quota input with no digit after its optional sign becomes 0. */
  lemma NonNumericQuotaIsZero(value: string)
    requires forall i :: 0 <= i < |value| ==> !('0' <= value[i] <= '9')
    ensures QuotaInput(value) == 0
  {
    TrimStartSuffix(value);
    var t := TrimStart(value);
    var u := if |t| > 0 && (t[0] == '-' || t[0] == '+') then t[1..] else t;
    if u != [] {
      assert u[0] == value[|value| - |u|];
    }
    NonNumericIsNaN(value);
  }

  /** A quota typed as a decimal number is read back as that number. */
  lemma DecimalQuotaReadBack(n: int)
    ensures QuotaInput(IntToDecimal(n)) == n
  {
    ParseIntOfDecimal(n);
  }

  /** The request `handleSubmit` sends for a form: an update only when editing a study with a truthy id. */
  function SaveRequestFor(isEditing: bool, form: Etude): (r: SaveRequest)
    ensures r.UpdateEtude? <==> isEditing && form.id.Some? && form.id.value != 0
    ensures r.UpdateEtude? ==> r == UpdateEtude(form.id.value, form)
    ensures r.CreateEtude? ==> r.etude == form
  {
    if isEditing && form.id.Some? && form.id.value != 0 then UpdateEtude(form.id.value, form) else CreateEtude(form)
  }

  /** `selectedEtude?.id === id`: no study, or a study without an id, never matches. */
  predicate IsSelected(selectedEtude: Option<Etude>, id: int) {
    selectedEtude.Some? && selectedEtude.value.id == Some(id)
  }

  class EtudeComponent {
    var etudes: seq<Etude>
    var selectedEtude: Option<Etude>
    var selectedEnqueteurs: seq<int>
    var formData: Etude
    var isEditing: bool

    /** The selection never lists an interviewer twice. */
    ghost predicate Valid()
      reads this
    {
      NoDuplicates(selectedEnqueteurs)
    }

    /** The initial state; the study list is fetched, not modelled here. */
    constructor ()
      ensures Valid()
      ensures etudes == [] && selectedEtude == None && selectedEnqueteurs == []
      ensures formData == EmptyEtude && !isEditing
    {
      etudes := [];
      selectedEtude := None;
      selectedEnqueteurs := [];
      formData := EmptyEtude;
      isEditing := false;
    }

    /**
     * `handleSelectEtude`, with `response` the fetched study (`None` when
     * the request fails). Supervisor and assigned interviewers are not kept.
     */
    method HandleSelectEtude(response: Option<Etude>)
      requires Valid()
      modifies this`selectedEtude, this`selectedEnqueteurs
      ensures Valid()
      ensures response.None? ==> selectedEtude == old(selectedEtude) && selectedEnqueteurs == old(selectedEnqueteurs)
      ensures response.Some? ==> selectedEtude == response && selectedEnqueteurs == []
    {
      if response.Some? {
        selectedEtude := response;
        selectedEnqueteurs := [];
      }
    }

    /** `handleCheckboxChange(id)`: removes `id` when it is selected, appends it otherwise. */
    method HandleCheckboxChange(id: int)
      requires Valid()
      modifies this`selectedEnqueteurs
      ensures Valid()
      ensures selectedEnqueteurs == Toggle(old(selectedEnqueteurs), id)
      ensures id in selectedEnqueteurs <==> id !in old(selectedEnqueteurs)
      ensures id !in old(selectedEnqueteurs) ==> selectedEnqueteurs == old(selectedEnqueteurs) + [id]
      ensures forall other :: other != id ==> (other in selectedEnqueteurs <==> other in old(selectedEnqueteurs))
    {
      ToggleNoDuplicates(selectedEnqueteurs, id);
      selectedEnqueteurs := Toggle(selectedEnqueteurs, id);
    }

    /**
     * `handleAssignEnqueteurs`. One request per selected interviewer, in
     * order; `failAt` is the position of the first request the backend
     * rejects (none when out of range), after which nothing more is sent and
     * the selection is kept. After full success the study is selected again
     * through `handleSelectEtude`, whose fetched study is `reselected`.
     */
    method HandleAssignEnqueteurs(failAt: int, reselected: Option<Etude>) returns (outcome: AssignOutcome, issued: seq<Assignment>)
      requires Valid()
      modifies this`selectedEnqueteurs, this`selectedEtude
      ensures Valid()
      ensures outcome == NothingToAssign <==> old(selectedEtude).None? || |old(selectedEnqueteurs)| == 0
      ensures outcome == NothingToAssign ==> issued == []
      ensures outcome != NothingToAssign ==>
                var selection := old(selectedEnqueteurs);
                && |issued| == (if 0 <= failAt < |selection| then failAt + 1 else |selection|)
                && (forall k :: 0 <= k < |issued| ==> issued[k] == Assignment(old(selectedEtude).value.id, selection[k]))
                && (outcome == Assigned <==> !(0 <= failAt < |selection|))
      ensures outcome == Assigned ==> selectedEnqueteurs == []
      ensures outcome == Assigned ==> selectedEtude == (if reselected.Some? then reselected else old(selectedEtude))
      ensures outcome != Assigned ==> selectedEnqueteurs == old(selectedEnqueteurs) && selectedEtude == old(selectedEtude)
    {
      issued := [];
      if selectedEtude.None? || |selectedEnqueteurs| == 0 {
        return NothingToAssign, issued;
      }
      var etudeId := selectedEtude.value.id;
      var i := 0;
      var failed := false;
      while i < |selectedEnqueteurs| && !failed
        invariant 0 <= i <= |selectedEnqueteurs|
        invariant |issued| == i
        invariant forall k :: 0 <= k < i ==> issued[k] == Assignment(etudeId, selectedEnqueteurs[k])
        invariant failed <==> 0 <= failAt < i
        invariant failed ==> i == failAt + 1
      {
        issued := issued + [Assignment(etudeId, selectedEnqueteurs[i])];
        failed := i == failAt;
        i := i + 1;
      }
      if failed {
        return AssignFailed, issued;
      }
      selectedEnqueteurs := [];
      HandleSelectEtude(reselected);
      outcome := Assigned;
    }

    /**
     * `handleDeleteEtude(id)`, with `confirmed` the answer to the
     * confirmation dialog, `deleteOk` the outcome of the request and
     * `refreshed` the re-fetched list (`None` when that fetch fails, which
     * empties the list).
     */
    method HandleDeleteEtude(id: int, confirmed: bool, deleteOk: bool, refreshed: Option<seq<Etude>>)
      requires Valid()
      modifies this`etudes, this`selectedEtude
      ensures Valid()
      ensures !(confirmed && deleteOk) ==> etudes == old(etudes) && selectedEtude == old(selectedEtude)
      ensures confirmed && deleteOk ==> etudes == refreshed.GetOr([])
      ensures confirmed && deleteOk && IsSelected(old(selectedEtude), id) ==> selectedEtude == None
      ensures !IsSelected(old(selectedEtude), id) ==> selectedEtude == old(selectedEtude)
    {
      if !confirmed || !deleteOk {
        return;
      }
      etudes := refreshed.GetOr([]);
      if selectedEtude.Some? && selectedEtude.value.id == Some(id) {
        selectedEtude := None;
      }
    }

    /**
     * `handleSubmit`, with `saveOk` the outcome of the write request and
     * `refreshed` the re-fetched list. `request` is the request sent.
     */
    method HandleSubmit(saveOk: bool, refreshed: Option<seq<Etude>>) returns (request: SaveRequest)
      requires Valid()
      modifies this`formData, this`isEditing, this`etudes
      ensures Valid()
      ensures request == SaveRequestFor(old(isEditing), old(formData))
      ensures !saveOk ==> formData == old(formData) && isEditing == old(isEditing) && etudes == old(etudes)
      ensures saveOk ==> formData == EmptyEtude && !isEditing && etudes == refreshed.GetOr([])
    {
      if isEditing && formData.id.Some? && formData.id.value != 0 {
        request := UpdateEtude(formData.id.value, formData);
      } else {
        request := CreateEtude(formData);
      }
      if !saveOk {
        return;
      }
      formData := EmptyEtude;
      isEditing := false;
      etudes := refreshed.GetOr([]);
    }

    /** `handleEdit(etude)` */
    method HandleEdit(etude: Etude)
      requires Valid()
      modifies this`formData, this`isEditing
      ensures Valid()
      ensures formData == etude && isEditing
    {
      formData := etude;
      isEditing := true;
    }

    /** The quota input of the form. */
    method ChangeObjectifQuotas(value: string)
      requires Valid()
      modifies this`formData
      ensures Valid()
      ensures formData == old(formData).(objectifQuotas := QuotaInput(value))
    {
      formData := formData.(objectifQuotas := ParseIntOrZero(value));
    }
  }
}
