/** The two ledgers' rows. Columns the application writes as free text but only
    ever fills from a fixed list of choices are closed enumerations here; each
    carries the exact text stored in the table. */
module Records {
  import opened Clock

  datatype Option<+T> = None | Some(value: T)

  /** The one error the intake and late-declaration forms report:
      "Veuillez remplir tous les champs obligatoires (*)". */
  datatype FormError = MissingRequiredField

  datatype Result<+T> = Ok(value: T) | Err(error: FormError)

  /** Column `statut`. */
  datatype Status = InProgress | Done | Late {
    function Label(): string {
      match this
      case InProgress => "En cours"
      case Done => "Terminé"
      case Late => "En retard"
    }
  }

  /** Column `pris_par_patient`: whether the patient has collected the result. */
  datatype Pickup = Collected | NotCollected {
    function Label(): string {
      match this
      case Collected => "Oui"
      case NotCollected => "Non"
    }
  }

  /** Column `motif_retard` of the late-case ledger. */
  datatype DelayReason = TechnicalIssue | SampleDelay | ComplexAnalysis | Other {
    function Label(): string {
      match this
      case TechnicalIssue => "Problème technique"
      case SampleDelay => "Retard prélèvement"
      case ComplexAnalysis => "Analyse complexe"
      case Other => "Autre"
    }
  }

  /** Comparing the enumerations is comparing the stored texts. */
  lemma LabelsIdentify(s: Status, t: Status, p: Pickup, q: Pickup)
    ensures s.Label() == t.Label() <==> s == t
    ensures p.Label() == q.Label() <==> p == q
  {
  }

  /** A row of the case ledger (`anapath_db.csv`). */
  datatype CaseRecord = CaseRecord(
    id: int,
    dossier: string,
    lastName: string,
    firstName: string,
    phone: string,
    collectedOn: Date,
    receivedOn: Date,
    diagnostic: string,
    status: Status,
    pickup: Pickup,
    comment: string,
    createdAt: Timestamp,
    updatedAt: Timestamp)

  /** A row of the late-case ledger (`late_cases.csv`); `caseId` is the
      `id_anapath` back-reference, `None` when it was left as "". */
  datatype LateRecord = LateRecord(
    caseId: Option<int>,
    dossier: string,
    lastName: string,
    firstName: string,
    phone: string,
    diagnostic: string,
    reason: DelayReason,
    actions: string,
    comment: string,
    declaredAt: Timestamp,
    updatedAt: Timestamp)

  /** Row `i` holds identifier `i + 1`: the numbering intake produces. */
  predicate IdsSequential(rows: seq<CaseRecord>) {
    forall i :: 0 <= i < |rows| ==> rows[i].id == i + 1
  }
}
