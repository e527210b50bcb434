/**
 * The human-resources screen: the employee form and its save request, the
 * enable rules of the modal forms, the avatar colour of an employee and the
 * presentation of an administrative request by status.
 */
module RH {
  import opened Wrappers
  import opened JsStrings

  /**
   * An employee, and equally the employee form, which adds the password.
   * Optional fields are `None` when absent; an absent field is not sent.
   */
  datatype Employee = Employee(
    id: Option<int>,
    nom: string,
    prenom: string,
    email: Option<string>,
    tele: Option<string>,
    poste: Option<string>,
    adresse: Option<string>,
    role: Option<string>,
    departement: Option<string>,
    actif: Option<bool>,
    dateNaissance: Option<string>,
    nomDeUtilisateur: Option<string>,
    telephone: Option<string>,
    genre: Option<string>,
    dateEmbauche: Option<string>,
    matricule: Option<string>,
    salaire: Option<real>,
    motDePasse: Option<string>)

  datatype EmployeeRequest = UpdateEmployee(id: int, data: Employee) | AddEmployee(data: Employee)

  datatype AbsenceForm = AbsenceForm(dateDebut: string, dateFin: string, motif: string)
  datatype ContratForm = ContratForm(dateDebut: string, dateFin: string, typeContrat: string)
  /** `montant` is `Number(input)`; `None` stands for `NaN`. */
  datatype SalaireForm = SalaireForm(montant: Option<real>, datePaiement: string)
  datatype DemandeForm = DemandeForm(typeDemande: string, description: string, dateDemande: string)

  /** JavaScript truthiness of an optional string: absent and "" are falsy. */
  predicate Truthy(s: Option<string>) {
    s.Some? && s.value != ""
  }

  /** `employee?.id` is truthy: present and not 0. */
  predicate HasId(employee: Option<Employee>) {
    employee.Some? && employee.value.id.Some? && employee.value.id.value != 0
  }

  // ------------------------------------------------------------ avatar colour

  const AvatarColors: seq<string> := [
    "bg-blue-100 text-blue-600",
    "bg-green-100 text-green-600",
    "bg-yellow-100 text-yellow-600",
    "bg-purple-100 text-purple-600",
    "bg-pink-100 text-pink-600",
    "bg-indigo-100 text-indigo-600"
  ]

  /** `getAvatarColor(name)`: the colour at the name's UTF-16 length modulo six. */
  function AvatarIndex(name: string): (i: nat)
    ensures i < |AvatarColors|
    ensures (Utf16Length(name) - i) % 6 == 0
  {
    Utf16Length(name) % |AvatarColors|
  }

  function AvatarColor(name: string): (c: string)
    ensures c in AvatarColors
    ensures c == AvatarColors[AvatarIndex(name)]
  {
    AvatarColors[AvatarIndex(name)]
  }

  /** Adding a multiple of six keeps the remainder modulo six. */
  lemma ShiftBySix(y: int, k: int)
    ensures (y + 6 * k) % 6 == y % 6
  {
  }

  /** Names whose UTF-16 lengths differ by a multiple of six share a colour. */
  lemma AvatarColorPeriodic(a: string, b: string)
    requires (Utf16Length(a) - Utf16Length(b)) % 6 == 0
    ensures AvatarColor(a) == AvatarColor(b)
  {
    var la: int, lb: int := Utf16Length(a), Utf16Length(b);
    var k := (la - lb) / 6;
    assert la == lb + 6 * k;
    ShiftBySix(lb, k);
  }

  // ------------------------------------------------------------ employee form

  /** The blank form `openEmployeeModal()` shows for a new employee. */
  const BlankEmployeeForm := Employee(None, "", "", Some(""), None, None, None, Some(""), None, None, None, Some(""), None, None, None, None, None, Some(""))

  /** `openEmployeeModal(employee)`: the form starts as the employee, or blank. */
  function OpenEmployeeForm(employee: Option<Employee>): (form: Employee)
    ensures employee.Some? ==> form == employee.value
    ensures employee.None? ==> form.nom == "" && form.prenom == "" && form.email == Some("") && form.role == Some("")
    ensures employee.None? ==> form.motDePasse == Some("") && form.nomDeUtilisateur == Some("") && form.id.None?
  {
    if employee.Some? then employee.value else BlankEmployeeForm
  }

  /** The update body: the form without `motDePasse` and `nomDeUtilisateur`. */
  function UpdatePayload(form: Employee): (data: Employee)
    ensures data.motDePasse.None? && data.nomDeUtilisateur.None?
    ensures data.(motDePasse := form.motDePasse, nomDeUtilisateur := form.nomDeUtilisateur) == form
  {
    form.(motDePasse := None, nomDeUtilisateur := None)
  }

  /** The update body keeps every field of the form other than the credentials. */
  lemma UpdatePayloadKeepsProfile(form: Employee)
    ensures var d := UpdatePayload(form);
            d.id == form.id && d.nom == form.nom && d.prenom == form.prenom && d.email == form.email &&
            d.tele == form.tele && d.poste == form.poste && d.adresse == form.adresse && d.role == form.role &&
            d.departement == form.departement && d.actif == form.actif && d.dateNaissance == form.dateNaissance &&
            d.telephone == form.telephone && d.genre == form.genre && d.dateEmbauche == form.dateEmbauche &&
            d.matricule == form.matricule && d.salaire == form.salaire
  {
    var d := UpdatePayload(form);
    assert d.(motDePasse := form.motDePasse, nomDeUtilisateur := form.nomDeUtilisateur) == form;
  }

  /** `handleSaveEmployee`: update the selected employee when it has an id, otherwise add the whole form. */
  function SaveEmployeeRequest(selected: Option<Employee>, form: Employee): (r: EmployeeRequest)
    ensures r.UpdateEmployee? <==> HasId(selected)
    ensures r.UpdateEmployee? ==> r.id == selected.value.id.value && r.data == UpdatePayload(form)
    ensures r.AddEmployee? ==> r.data == form
  {
    if HasId(selected) then UpdateEmployee(selected.value.id.value, UpdatePayload(form)) else AddEmployee(form)
  }

  /** Line 684: the save button of the employee modal. */
  function EmployeeSaveDisabled(selected: Option<Employee>, form: Employee): (disabled: bool)
    ensures HasId(selected) ==> (disabled <==> form.nom == "" || form.prenom == "")
    ensures !disabled ==> form.nom != "" && form.prenom != ""
    ensures !disabled && !HasId(selected) ==> Truthy(form.nomDeUtilisateur) && Truthy(form.motDePasse)
    ensures !HasId(selected) ==>
              (disabled <==> form.nom == "" || form.prenom == ""
                             || !Truthy(form.nomDeUtilisateur) || !Truthy(form.motDePasse))
  {
    form.nom == "" || form.prenom == "" || (!HasId(selected) && (!Truthy(form.nomDeUtilisateur) || !Truthy(form.motDePasse)))
  }

  /** A new-employee modal cannot be saved until names and credentials are filled in. */
  lemma BlankEmployeeFormDisabled()
    ensures EmployeeSaveDisabled(None, OpenEmployeeForm(None))
  {
  }

  /**
   * An enabled save never sends credentials for an update, and always sends
   * both, non-empty, for a new employee.
   */
  lemma EnabledSaveCredentials(selected: Option<Employee>, form: Employee)
    requires !EmployeeSaveDisabled(selected, form)
    ensures var r := SaveEmployeeRequest(selected, form);
            && r.data.nom != "" && r.data.prenom != ""
            && (r.UpdateEmployee? ==> r.data.motDePasse.None? && r.data.nomDeUtilisateur.None?)
            && (r.AddEmployee? ==> Truthy(r.data.motDePasse) && Truthy(r.data.nomDeUtilisateur))
  {
  }

  /**
   * Opening the modal on an employee with an id and saving it unchanged
   * updates that employee with its own profile and no credentials; the save
   * is enabled by the names alone.
   */
  lemma EditExistingSendsUpdate(employee: Employee)
    requires employee.id.Some? && employee.id.value != 0
    ensures var form := OpenEmployeeForm(Some(employee));
            SaveEmployeeRequest(Some(employee), form)
              == UpdateEmployee(employee.id.value, employee.(motDePasse := None, nomDeUtilisateur := None))
    ensures !EmployeeSaveDisabled(Some(employee), OpenEmployeeForm(Some(employee)))
            <==> employee.nom != "" && employee.prenom != ""
  {
  }

  /**
   * A new employee whose names and credentials are filled in can be saved,
   * and saving adds the whole form, credentials included.
   */
  lemma NewEmployeeSaveEnabled(form: Employee)
    requires form.nom != "" && form.prenom != ""
    requires Truthy(form.nomDeUtilisateur) && Truthy(form.motDePasse)
    ensures !EmployeeSaveDisabled(None, form)
    ensures SaveEmployeeRequest(None, form) == AddEmployee(form)
  {
  }

  // ------------------------------------------------------------ other modals

  const BlankAbsenceForm := AbsenceForm("", "", "")
  const BlankContratForm := ContratForm("", "", "")
  const BlankSalaireForm := SalaireForm(Some(0.0), "")

  /** Line 742: every absence field is needed. */
  predicate AbsenceAddDisabled(f: AbsenceForm) {
    f.dateDebut == "" || f.dateFin == "" || f.motif == ""
  }

  /** Line 804: a contract needs its type and start date; the end date is optional. */
  predicate ContratAddDisabled(f: ContratForm) {
    f.typeContrat == "" || f.dateDebut == ""
  }

  /** Line 852: `!montant` is true for 0 and for `NaN`. */
  predicate SalaireAddDisabled(f: SalaireForm) {
    f.montant.None? || f.montant.value == 0.0 || f.datePaiement == ""
  }

  /** Line 916: every field of an administrative request is needed. */
  predicate DemandeAddDisabled(f: DemandeForm) {
    f.typeDemande == "" || f.description == "" || f.dateDemande == ""
  }

  /** The request form as opened: blank, dated `today`. */
  function BlankDemandeForm(today: string): DemandeForm {
    DemandeForm("", "", today)
  }

  /**
   * A freshly opened absence, contract, salary or request form cannot be
   * submitted; the request form, dated today, needs only its type and description.
   */
  lemma BlankFormsDisabled(today: string, typeDemande: string, description: string)
    requires today != ""
    ensures AbsenceAddDisabled(BlankAbsenceForm)
    ensures ContratAddDisabled(BlankContratForm)
    ensures SalaireAddDisabled(BlankSalaireForm)
    ensures DemandeAddDisabled(BlankDemandeForm(today))
    ensures !DemandeAddDisabled(BlankDemandeForm(today).(typeDemande := typeDemande, description := description))
            <==> typeDemande != "" && description != ""
  {
  }

  /** The end date of a contract does not decide whether it can be added. */
  lemma ContratEndDateOptional(f: ContratForm, dateFin: string)
    ensures ContratAddDisabled(f) <==> ContratAddDisabled(f.(dateFin := dateFin))
  {
  }

  /** An absence can be added exactly when its two dates and its reason are filled in. */
  lemma AbsenceEnabledIff(f: AbsenceForm)
    ensures !AbsenceAddDisabled(f) <==> f.dateDebut != "" && f.dateFin != "" && f.motif != ""
  {
  }

  /** A contract can be added exactly when its type and start date are filled in. */
  lemma ContratEnabledIff(f: ContratForm)
    ensures !ContratAddDisabled(f) <==> f.typeContrat != "" && f.dateDebut != ""
  {
  }

  /** A request can be added exactly when its type, description and date are filled in. */
  lemma DemandeEnabledIff(f: DemandeForm)
    ensures !DemandeAddDisabled(f) <==> f.typeDemande != "" && f.description != "" && f.dateDemande != ""
  {
  }

  /** A salary can be added exactly when its amount is a non-zero number and it has a payment date. */
  lemma SalaireEnabledIff(f: SalaireForm)
    ensures !SalaireAddDisabled(f) <==> f.montant.Some? && f.montant.value != 0.0 && f.datePaiement != ""
  {
  }

  // ------------------------------------------------------------ administrative requests

  datatype Tone = Green | Red | Yellow

  /** Lines 482 and 487: the colour of a request follows its status. */
  function DemandeTone(statut: Option<string>): (t: Tone)
    ensures t == Green <==> statut == Some("VALIDE")
    ensures t == Red <==> statut == Some("REFUSE")
  {
    if statut == Some("VALIDE") then Green
    else if statut == Some("REFUSE") then Red
    else Yellow
  }

  function DemandeBorderClass(statut: Option<string>): (c: string)
    ensures c == "border-green-500 bg-green-50" <==> statut == Some("VALIDE")
    ensures c == "border-red-500 bg-red-50" <==> statut == Some("REFUSE")
  {
    match DemandeTone(statut)
    case Green => "border-green-500 bg-green-50"
    case Red => "border-red-500 bg-red-50"
    case Yellow => "border-yellow-500 bg-yellow-50"
  }

  function DemandeBadgeClass(statut: Option<string>): (c: string)
    ensures c == "bg-green-100 text-green-800" <==> statut == Some("VALIDE")
    ensures c == "bg-red-100 text-red-800" <==> statut == Some("REFUSE")
  {
    match DemandeTone(statut)
    case Green => "bg-green-100 text-green-800"
    case Red => "bg-red-100 text-red-800"
    case Yellow => "bg-yellow-100 text-yellow-800"
  }

  /** Line 491: validate and refuse are offered only for a pending request. */
  predicate OffersActions(statut: Option<string>) {
    statut == Some("EN_ATTENTE")
  }

  /** A request that offers actions is shown in yellow, and a decided one offers none. */
  lemma PendingIsYellowWithActions(statut: Option<string>)
    ensures OffersActions(statut) ==> DemandeTone(statut) == Yellow
    ensures DemandeTone(statut) != Yellow ==> !OffersActions(statut)
    ensures OffersActions(statut) ==> DemandeBorderClass(statut) == "border-yellow-500 bg-yellow-50" && DemandeBadgeClass(statut) == "bg-yellow-100 text-yellow-800"
  {
  }

  /** Both class mappings tell the three tones apart. */
  lemma DemandeClassesDistinct(a: Option<string>, b: Option<string>)
    ensures DemandeBorderClass(a) == DemandeBorderClass(b) <==> DemandeTone(a) == DemandeTone(b)
    ensures DemandeBadgeClass(a) == DemandeBadgeClass(b) <==> DemandeTone(a) == DemandeTone(b)
  {
  }
}
