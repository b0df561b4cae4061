/** The application's state: the case ledger and the late-case ledger, each
    read whole and rewritten whole by the page handlers. Saving a table is
    assigning its field; loading it is reading the field. */
module Anapath {
  import opened Seqs
  import opened Clock
  import opened Records
  import Dossier
  import Cases
  import LateCases

  class Store {
    /** `anapath_db.csv` */
    var cases: seq<CaseRecord>
    /** `late_cases.csv` */
    var lateCases: seq<LateRecord>

    /** `init_dbs` on a first run: both tables exist and hold no rows. */
    constructor ()
      ensures cases == [] && lateCases == []
    {
      cases := [];
      lateCases := [];
    }

    /** `generate_dossier_number`: always the first number of the day. */
    method GenerateDossierNumber(today: Date) returns (number: string)
      ensures number == Dossier.NextDossierNumber(cases, today)
      ensures number == "ANA-" + CompactDate(today) + "-001"
    {
      number := Dossier.NextDossierNumber(cases, today);
      Dossier.DossierSuffixAlwaysOne(cases, today);
    }

    /** Submitting the intake form (`enregistrement`). A valid form appends
        exactly one row; the existing rows and the late-case ledger are kept. */
    method RegisterCase(form: Cases.CaseForm, today: Date, createdAt: Timestamp, updatedAt: Timestamp)
      returns (res: Result<CaseRecord>)
      modifies this
      ensures res == Cases.Intake(old(cases), form, today, createdAt, updatedAt)
      ensures res.Err? <==> Cases.MissingCaseField(form)
      ensures res.Ok? ==> cases == old(cases) + [res.value] && res.value.id == |old(cases)| + 1
      ensures res.Err? ==> cases == old(cases)
      ensures lateCases == old(lateCases)
    {
      var number := Dossier.NextDossierNumber(cases, today);
      if Cases.MissingCaseField(form) {
        res := Err(MissingRequiredField);
        return;
      }
      var row := CaseRecord(
        |cases| + 1, number, form.lastName, form.firstName, form.phone, form.collectedOn, form.receivedOn,
        form.diagnostic, InProgress, NotCollected, form.comment, createdAt, updatedAt);
      cases := cases + [row];
      res := Ok(row);
    }

    /** The search page's table: the ledger rows that pass the criteria, in order. */
    method Find(q: Cases.Query) returns (view: seq<CaseRecord>)
      ensures view == Cases.Search(cases, q)
      ensures IsSubsequence(view, cases)
      ensures forall r :: r in view <==> r in cases && q.Admits(r)
    {
      view := Cases.Search(cases, q);
      Cases.SearchFinds(cases, q);
    }

    /** "Enregistrer les modifications" on the search page: the rows of the
        view with the selected dossier number get the new status, pickup flag
        and update time, and the view is saved as the whole case ledger. The
        page offers the update only under a non-empty view, and the dossier
        number is chosen from the view's rows. */
    method UpdateStatus(q: Cases.Query, dossier: string, status: Status, pickup: Pickup, now: Timestamp)
      requires exists r :: r in Cases.Search(cases, q) && r.dossier == dossier
      modifies this
      ensures cases == Cases.StatusUpdate(old(cases), q, dossier, status, pickup, now)
      ensures |cases| == |old(cases)| <==> forall i :: 0 <= i < |old(cases)| ==> q.Admits(old(cases)[i])
      ensures lateCases == old(lateCases)
    {
      Cases.StatusUpdateKeepsAllRowsIff(cases, q, dossier, status, pickup, now);
      var view := Cases.Search(cases, q);
      cases := Cases.UpdateWhere(view, dossier, (r: CaseRecord) => r.(status := status, pickup := pickup, updatedAt := now));
    }

    /** Submitting the late-declaration form (`retards`). A valid form appends
        exactly one late record and marks the matching cases "En retard"; an
        invalid one changes neither ledger. */
    method DeclareLate(form: LateCases.LateForm, declaredAt: Timestamp, updatedAt: Timestamp)
      returns (res: Result<LateRecord>)
      modifies this
      ensures res == LateCases.Declaration(old(cases), form, declaredAt, updatedAt)
      ensures cases == LateCases.CasesAfterDeclaration(old(cases), form)
      ensures res.Ok? ==> lateCases == old(lateCases) + [res.value]
      ensures res.Err? ==> cases == old(cases) && lateCases == old(lateCases)
    {
      if LateCases.MissingLateField(form) {
        res := Err(MissingRequiredField);
        return;
      }
      var link: Option<int> := None;
      var m := LateCases.FirstMatch(cases, form.dossier);
      if cases != [] && m.Some? {
        link := Some(cases[m.value].id);
        cases := Cases.UpdateWhere(cases, form.dossier, (r: CaseRecord) => r.(status := Late));
      }
      var late := LateRecord(
        link, form.dossier, form.lastName, form.firstName, form.phone, form.diagnostic,
        form.reason, form.actions, form.comment, declaredAt, updatedAt);
      lateCases := lateCases + [late];
      res := Ok(late);
    }
  }
}
