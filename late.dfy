/** The late-case service (`retards`): a late declaration is validated,
    cross-linked to the case ledger by dossier number, and appended to the
    late-case ledger. */
module LateCases {
  import opened Clock
  import opened Records
  import opened Cases

  /** What the late-declaration form submits. */
  datatype LateForm = LateForm(
    dossier: string,
    lastName: string,
    firstName: string,
    phone: string,
    diagnostic: string,
    reason: DelayReason,
    actions: string,
    comment: string)

  /** Dossier number, name, first name, phone and diagnostic are required. */
  predicate MissingLateField(f: LateForm) {
    f.dossier == "" || f.lastName == "" || f.firstName == "" || f.phone == "" || f.diagnostic == ""
  }

  /** The position of the first case row with the dossier number (`match.iloc[0]`). */
  function FirstMatch(rows: seq<CaseRecord>, dossier: string): (m: Option<nat>)
    ensures m.None? <==> forall j :: 0 <= j < |rows| ==> rows[j].dossier != dossier
    ensures m.Some? ==>
      && m.value < |rows| && rows[m.value].dossier == dossier
      && forall j :: 0 <= j < m.value ==> rows[j].dossier != dossier
  {
    if rows == [] then None
    else if rows[0].dossier == dossier then Some(0)
    else match FirstMatch(rows[1..], dossier)
      case None => None
      case Some(i) => Some(i + 1)
  }

  /** The `id_anapath` back-reference: the first matching case's identifier, or
      `None` (the empty text) when no case has the dossier number. */
  function LinkedCaseId(rows: seq<CaseRecord>, dossier: string): (link: Option<int>)
    ensures link.None? <==> forall j :: 0 <= j < |rows| ==> rows[j].dossier != dossier
  {
    match FirstMatch(rows, dossier)
    case None => None
    case Some(i) => Some(rows[i].id)
  }

  /** The late record a submitted declaration produces, or the validation error. */
  function Declaration(rows: seq<CaseRecord>, form: LateForm, declaredAt: Timestamp, updatedAt: Timestamp): (res: Result<LateRecord>)
    ensures res.Err? <==> MissingLateField(form)
    ensures res.Ok? ==> res.value.caseId == LinkedCaseId(rows, form.dossier) && res.value.dossier == form.dossier
  {
    if MissingLateField(form) then Err(MissingRequiredField)
    else Ok(LateRecord(
      LinkedCaseId(rows, form.dossier), form.dossier, form.lastName, form.firstName, form.phone,
      form.diagnostic, form.reason, form.actions, form.comment, declaredAt, updatedAt))
  }

  /** The case ledger after the declaration: when the form is valid and some row
      has the dossier number, every such row becomes "En retard"; otherwise the
      ledger is not rewritten. */
  function CasesAfterDeclaration(rows: seq<CaseRecord>, form: LateForm): (after: seq<CaseRecord>)
    ensures |after| == |rows|
  {
    if MissingLateField(form) || rows == [] || FirstMatch(rows, form.dossier).None? then rows
    else UpdateWhere(rows, form.dossier, (r: CaseRecord) => r.(status := Late))
  }

  /** The declaration fails exactly when a required field is empty; a valid one
      copies the form and links to the first case with its dossier number, or
      to nothing when there is none. */
  lemma DeclarationOutcome(rows: seq<CaseRecord>, form: LateForm, declaredAt: Timestamp, updatedAt: Timestamp)
    ensures Declaration(rows, form, declaredAt, updatedAt).Err? <==> MissingLateField(form)
    ensures Declaration(rows, form, declaredAt, updatedAt).Ok? ==>
      var l := Declaration(rows, form, declaredAt, updatedAt).value;
      l.dossier == form.dossier && l.lastName == form.lastName && l.firstName == form.firstName &&
      l.phone == form.phone && l.diagnostic == form.diagnostic && l.reason == form.reason &&
      l.actions == form.actions && l.comment == form.comment &&
      l.declaredAt == declaredAt && l.updatedAt == updatedAt &&
      (l.caseId.None? <==> forall j :: 0 <= j < |rows| ==> rows[j].dossier != form.dossier) &&
      (l.caseId.Some? ==> exists i ::
        && 0 <= i < |rows| && rows[i].dossier == form.dossier && rows[i].id == l.caseId.value
        && forall j :: 0 <= j < i ==> rows[j].dossier != form.dossier)
  {
    var m := FirstMatch(rows, form.dossier);
    if !MissingLateField(form) && m.Some? {
      var i := m.value;
      assert rows[i].dossier == form.dossier && rows[i].id == LinkedCaseId(rows, form.dossier).value;
    }
  }

  /** A valid declaration marks every case row with its dossier number
      "En retard", changes nothing else in them, and leaves every other row as
      it was. An invalid one leaves the ledger unchanged. */
  lemma DeclarationMarksCases(rows: seq<CaseRecord>, form: LateForm)
    ensures var after := CasesAfterDeclaration(rows, form);
      |after| == |rows| &&
      forall i :: 0 <= i < |rows| ==>
        after[i] == if !MissingLateField(form) && rows[i].dossier == form.dossier then rows[i].(status := Late) else rows[i]
  {
  }

  /** A declaration for a dossier number no case has leaves the case ledger as it was. */
  lemma OrphanDeclarationKeepsCases(rows: seq<CaseRecord>, form: LateForm, declaredAt: Timestamp, updatedAt: Timestamp)
    requires forall j :: 0 <= j < |rows| ==> rows[j].dossier != form.dossier
    ensures CasesAfterDeclaration(rows, form) == rows
    ensures Declaration(rows, form, declaredAt, updatedAt).Ok? ==> Declaration(rows, form, declaredAt, updatedAt).value.caseId == None
  {
  }

  /** Marking cases late keeps row i numbered i + 1. */
  lemma DeclarationKeepsIdsSequential(rows: seq<CaseRecord>, form: LateForm)
    requires IdsSequential(rows)
    ensures IdsSequential(CasesAfterDeclaration(rows, form))
  {
    DeclarationMarksCases(rows, form);
  }
}
