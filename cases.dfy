/** The case-ledger service: intake of a new case (`enregistrement`), the search
    filter chain and the status update of the search page (`recherche`). */
module Cases {
  import opened Text
  import opened Seqs
  import opened Clock
  import opened Records
  import Dossier

  // ---------------------------------------------------------------- intake

  /** What the intake form submits. */
  datatype CaseForm = CaseForm(
    lastName: string,
    firstName: string,
    phone: string,
    collectedOn: Date,
    receivedOn: Date,
    diagnostic: string,
    comment: string)

  /** Name, first name, phone and diagnostic are the required fields. */
  predicate MissingCaseField(f: CaseForm) {
    f.lastName == "" || f.firstName == "" || f.phone == "" || f.diagnostic == ""
  }

  /** The row a submitted intake form produces against ledger `rows`, or the
      validation error. `today` is the clock reading of the dossier-number
      generator, `createdAt` and `updatedAt` the two later readings. */
  function Intake(rows: seq<CaseRecord>, form: CaseForm, today: Date, createdAt: Timestamp, updatedAt: Timestamp): (res: Result<CaseRecord>)
    ensures res.Err? <==> MissingCaseField(form)
    ensures res.Ok? ==> res.value.id == |rows| + 1
  {
    if MissingCaseField(form) then Err(MissingRequiredField)
    else Ok(CaseRecord(
      |rows| + 1, Dossier.NextDossierNumber(rows, today),
      form.lastName, form.firstName, form.phone, form.collectedOn, form.receivedOn, form.diagnostic,
      InProgress, NotCollected, form.comment, createdAt, updatedAt))
  }

  /** Intake fails exactly when a required field is empty; otherwise the new row
      is numbered after the existing rows, is "En cours" and not collected,
      carries the form's fields, and its dossier number ends in "001". */
  lemma IntakeOutcome(rows: seq<CaseRecord>, form: CaseForm, today: Date, createdAt: Timestamp, updatedAt: Timestamp)
    ensures Intake(rows, form, today, createdAt, updatedAt).Err? <==> MissingCaseField(form)
    ensures Intake(rows, form, today, createdAt, updatedAt).Ok? ==>
      var r := Intake(rows, form, today, createdAt, updatedAt).value;
      r.id == |rows| + 1 && r.dossier == "ANA-" + CompactDate(today) + "-001" &&
      r.status == InProgress && r.pickup == NotCollected &&
      r.lastName == form.lastName && r.firstName == form.firstName && r.phone == form.phone &&
      r.collectedOn == form.collectedOn && r.receivedOn == form.receivedOn &&
      r.diagnostic == form.diagnostic && r.comment == form.comment &&
      r.createdAt == createdAt && r.updatedAt == updatedAt
  {
    Dossier.DossierSuffixAlwaysOne(rows, today);
  }

  /** Appending the intake row keeps row i numbered i + 1. */
  lemma IntakeKeepsIdsSequential(rows: seq<CaseRecord>, form: CaseForm, today: Date, createdAt: Timestamp, updatedAt: Timestamp)
    requires IdsSequential(rows)
    requires !MissingCaseField(form)
    ensures IdsSequential(rows + [Intake(rows, form, today, createdAt, updatedAt).value])
  {
  }

  /** Two cases taken in on the same day get the same dossier number: the
      number is not unique per day. */
  lemma SameDayIntakesShareDossier(rows: seq<CaseRecord>, first: CaseForm, second: CaseForm, today: Date,
                                   c1: Timestamp, u1: Timestamp, c2: Timestamp, u2: Timestamp)
    requires !MissingCaseField(first) && !MissingCaseField(second)
    ensures var r1 := Intake(rows, first, today, c1, u1).value;
      r1.dossier == Intake(rows + [r1], second, today, c2, u2).value.dossier
  {
    var r1 := Intake(rows, first, today, c1, u1).value;
    Dossier.DossierSuffixAlwaysOne(rows, today);
    Dossier.DossierSuffixAlwaysOne(rows + [r1], today);
  }

  // ---------------------------------------------------------------- search

  /** The status filter; `AllStatuses` is the choice "Tous". */
  datatype StatusFilter = AllStatuses | StatusIs(status: Status)

  /** The pickup filter; `AllPickups` is the choice "Tous". */
  datatype PickupFilter = AllPickups | PickupIs(pickup: Pickup)

  /** The search page's criteria: a free-text term (empty when blank), the
      status and pickup choices, and an optional reception date. */
  datatype Query = Query(term: string, status: StatusFilter, pickup: PickupFilter, receivedOn: Option<Date>) {
    predicate TextOk(r: CaseRecord) { term == "" || TextHit(term, r) }
    predicate StatusOk(r: CaseRecord) { status.AllStatuses? || r.status == status.status }
    predicate PickupOk(r: CaseRecord) { pickup.AllPickups? || r.pickup == pickup.pickup }
    predicate DateOk(r: CaseRecord) { receivedOn.None? || r.receivedOn == receivedOn.value }

    /** A row is shown when it passes every active criterion. */
    predicate Admits(r: CaseRecord) { TextOk(r) && StatusOk(r) && PickupOk(r) && DateOk(r) }
  }

  /** The search page as first opened: every criterion off. */
  const NoCriteria := Query("", AllStatuses, AllPickups, None)

  /** The term occurs, ignoring case, in the dossier number, the name or the first name. */
  predicate TextHit(term: string, r: CaseRecord) {
    ContainsIgnoreCase(r.dossier, term) || ContainsIgnoreCase(r.lastName, term) || ContainsIgnoreCase(r.firstName, term)
  }

  /** The filter chain: each active criterion re-selects the rows kept so far. */
  function Search(rows: seq<CaseRecord>, q: Query): (view: seq<CaseRecord>)
    ensures |view| <= |rows|
  {
    if rows == [] then rows
    else
      var byText := if q.term != "" then Select(rows, (r: CaseRecord) => TextHit(q.term, r)) else rows;
      var byStatus := if q.status.StatusIs? then Select(byText, (r: CaseRecord) => r.status == q.status.status) else byText;
      var byPickup := if q.pickup.PickupIs? then Select(byStatus, (r: CaseRecord) => r.pickup == q.pickup.pickup) else byStatus;
      if q.receivedOn.Some? then Select(byPickup, (r: CaseRecord) => r.receivedOn == q.receivedOn.value) else byPickup
  }

  /** The chain selects, in one pass, the rows that pass every criterion. */
  lemma SearchIsSelection(rows: seq<CaseRecord>, q: Query)
    ensures Search(rows, q) == Select(rows, (r: CaseRecord) => q.Admits(r))
  {
    if rows != [] {
      var t1 := (r: CaseRecord) => q.TextOk(r);
      var t2 := (r: CaseRecord) => q.TextOk(r) && q.StatusOk(r);
      var t3 := (r: CaseRecord) => q.TextOk(r) && q.StatusOk(r) && q.PickupOk(r);
      var t4 := (r: CaseRecord) => q.Admits(r);
      var byText := if q.term != "" then Select(rows, (r: CaseRecord) => TextHit(q.term, r)) else rows;
      if q.term != "" {
        SelectSame(rows, (r: CaseRecord) => TextHit(q.term, r), t1);
      } else {
        SelectAll(rows, t1);
      }
      assert byText == Select(rows, t1);
      var byStatus := if q.status.StatusIs? then Select(byText, (r: CaseRecord) => r.status == q.status.status) else byText;
      if q.status.StatusIs? {
        SelectSelect(rows, t1, (r: CaseRecord) => r.status == q.status.status, t2);
      } else {
        SelectSame(rows, t1, t2);
      }
      assert byStatus == Select(rows, t2);
      var byPickup := if q.pickup.PickupIs? then Select(byStatus, (r: CaseRecord) => r.pickup == q.pickup.pickup) else byStatus;
      if q.pickup.PickupIs? {
        SelectSelect(rows, t2, (r: CaseRecord) => r.pickup == q.pickup.pickup, t3);
      } else {
        SelectSame(rows, t2, t3);
      }
      assert byPickup == Select(rows, t3);
      if q.receivedOn.Some? {
        SelectSelect(rows, t3, (r: CaseRecord) => r.receivedOn == q.receivedOn.value, t4);
      } else {
        SelectSame(rows, t3, t4);
      }
    }
  }

  /** The result keeps the stored order, and a row is in it exactly when it is
      in the ledger and passes every active criterion. */
  lemma SearchFinds(rows: seq<CaseRecord>, q: Query)
    ensures IsSubsequence(Search(rows, q), rows)
    ensures forall r :: r in Search(rows, q) <==> r in rows && q.Admits(r)
  {
    SearchIsSelection(rows, q);
    SelectIsSubsequence(rows, (r: CaseRecord) => q.Admits(r));
  }

  /** With no criterion active the whole ledger is shown, in order. */
  lemma SearchWithoutCriteria(rows: seq<CaseRecord>)
    ensures Search(rows, NoCriteria) == rows
  {
    SearchIsSelection(rows, NoCriteria);
    SelectAll(rows, (r: CaseRecord) => NoCriteria.Admits(r));
  }

  /** Typing the term in lower or upper case finds the same rows. */
  lemma SearchIgnoresTermCase(rows: seq<CaseRecord>, q: Query)
    ensures Search(rows, q.(term := Lower(q.term))) == Search(rows, q)
    ensures Search(rows, q.(term := Upper(q.term))) == Search(rows, q)
  {
    var lo, up := q.(term := Lower(q.term)), q.(term := Upper(q.term));
    forall r: CaseRecord
      ensures lo.Admits(r) == q.Admits(r) && up.Admits(r) == q.Admits(r)
    {
      ContainsIgnoreCaseOfFolded(r.dossier, q.term);
      ContainsIgnoreCaseOfFolded(r.lastName, q.term);
      ContainsIgnoreCaseOfFolded(r.firstName, q.term);
    }
    SearchIsSelection(rows, q);
    SearchIsSelection(rows, lo);
    SearchIsSelection(rows, up);
    SelectSame(rows, (r: CaseRecord) => lo.Admits(r), (r: CaseRecord) => q.Admits(r));
    SelectSame(rows, (r: CaseRecord) => up.Admits(r), (r: CaseRecord) => q.Admits(r));
  }

  // ---------------------------------------------------------- in-place update

  /** `df.loc[df["numero_dossier"] == dossier, ...] = ...`: every row with the
      dossier number is rewritten by `change`, every other row is kept. */
  function UpdateWhere(rows: seq<CaseRecord>, dossier: string, change: CaseRecord -> CaseRecord): (r: seq<CaseRecord>)
    ensures |r| == |rows|
    ensures forall i :: 0 <= i < |rows| ==>
      r[i] == if rows[i].dossier == dossier then change(rows[i]) else rows[i]
  {
    if rows == [] then []
    else [if rows[0].dossier == dossier then change(rows[0]) else rows[0]] + UpdateWhere(rows[1..], dossier, change)
  }

  // ---------------------------------------------------------- status update

  /** The table the status update saves: the search view, with every row of the
      selected dossier number given the new status, pickup flag and update time. */
  function StatusUpdate(rows: seq<CaseRecord>, q: Query, dossier: string, status: Status, pickup: Pickup, now: Timestamp): (saved: seq<CaseRecord>)
    ensures |saved| <= |rows|
  {
    UpdateWhere(Search(rows, q), dossier, (r: CaseRecord) => r.(status := status, pickup := pickup, updatedAt := now))
  }

  /** Row by row against the view: rows of the selected dossier number carry the
      new status, pickup flag and time and keep every other field; the other
      rows are unchanged. */
  lemma StatusUpdateRewritesView(rows: seq<CaseRecord>, q: Query, dossier: string, status: Status, pickup: Pickup, now: Timestamp)
    ensures var view, saved := Search(rows, q), StatusUpdate(rows, q, dossier, status, pickup, now);
      |saved| == |view| &&
      forall i :: 0 <= i < |view| ==>
        (view[i].dossier == dossier ==>
          saved[i].status == status && saved[i].pickup == pickup && saved[i].updatedAt == now &&
          saved[i].(status := view[i].status, pickup := view[i].pickup, updatedAt := view[i].updatedAt) == view[i]) &&
        (view[i].dossier != dossier ==> saved[i] == view[i])
  {
  }

  /** The saved table holds every row of the ledger exactly when every row
      passes the active criteria: rows the search hides are lost. */
  lemma StatusUpdateKeepsAllRowsIff(rows: seq<CaseRecord>, q: Query, dossier: string, status: Status, pickup: Pickup, now: Timestamp)
    ensures |StatusUpdate(rows, q, dossier, status, pickup, now)| == |rows| <==>
      forall i :: 0 <= i < |rows| ==> q.Admits(rows[i])
  {
    SearchIsSelection(rows, q);
    SelectKeepsAllIff(rows, (r: CaseRecord) => q.Admits(r));
  }

  /** With no criterion active nothing is lost: only the rows of the selected
      dossier number change. */
  lemma UnfilteredStatusUpdate(rows: seq<CaseRecord>, dossier: string, status: Status, pickup: Pickup, now: Timestamp)
    ensures var saved := StatusUpdate(rows, NoCriteria, dossier, status, pickup, now);
      |saved| == |rows| &&
      forall i :: 0 <= i < |rows| ==>
        saved[i] == if rows[i].dossier == dossier then rows[i].(status := status, pickup := pickup, updatedAt := now) else rows[i]
  {
    SearchWithoutCriteria(rows);
  }

  /** A dossier number absent from the view changes nothing, and the view is
      saved as the table. */
  lemma StatusUpdateOfAbsentDossier(rows: seq<CaseRecord>, q: Query, dossier: string, status: Status, pickup: Pickup, now: Timestamp)
    requires forall r :: r in Search(rows, q) ==> r.dossier != dossier
    ensures StatusUpdate(rows, q, dossier, status, pickup, now) == Search(rows, q)
  {
  }

  /** A two-row ledger whose rows differ in status: filtering on the second
      row's status and updating it saves a one-row table; the next intake then
      reuses the surviving row's identifier. */
  lemma FilteredStatusUpdateLosesRow(a: CaseRecord, b: CaseRecord, status: Status, pickup: Pickup, now: Timestamp,
                                     form: CaseForm, today: Date, createdAt: Timestamp, updatedAt: Timestamp)
    requires a.status != b.status && IdsSequential([a, b])
    requires !MissingCaseField(form)
    ensures var saved := StatusUpdate([a, b], Query("", StatusIs(b.status), AllPickups, None), b.dossier, status, pickup, now);
      |saved| == 1 && saved[0].id == 2 &&
      Intake(saved, form, today, createdAt, updatedAt).value.id == saved[0].id
  {
    var q := Query("", StatusIs(b.status), AllPickups, None);
    SearchIsSelection([a, b], q);
    assert [a, b][1..] == [b];
    assert Search([a, b], q) == [b];
  }
}
