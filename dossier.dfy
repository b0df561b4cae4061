/** The dossier-number generator: "ANA-" + today's compact date + "-" + a
    counter padded to three digits. The counter is meant to be one more than
    the number of cases created today, but it is computed by matching the
    compact date "YYYYMMDD" against the start of each row's creation text,
    which is written as "YYYY-MM-DD HH:MM:SS...": no row ever matches. */
module Dossier {
  import opened Text
  import opened Seqs
  import opened Clock
  import opened Records

  /** Python's `s[:10]`. */
  function Take10(s: string): string {
    if |s| <= 10 then s else s[..10]
  }

  /** `len(existing_db[existing_db['created_at'].str.startswith(prefix)])`: the
      size of the selection of rows whose creation text starts with `prefix`. */
  function CreatedWithPrefix(rows: seq<CaseRecord>, prefix: string): nat {
    |Select(rows, (r: CaseRecord) => prefix <= TimestampText(r.createdAt))|
  }

  /** The counter: 1 for an empty ledger, otherwise one more than the count of
      rows whose creation text starts with the compact date. It never exceeds
      one more than the number of rows. */
  function DayCounter(rows: seq<CaseRecord>, today: Date): (n: nat)
    ensures 1 <= n <= |rows| + 1
  {
    if rows == [] then 1 else CreatedWithPrefix(rows, Take10(CompactDate(today))) + 1
  }

  /** Where the parts of "ANA-<date>-<suffix>" sit. */
  lemma DossierLayout(date: string, suffix: string)
    requires |date| == 8
    ensures var r := "ANA-" + date + "-" + suffix;
      |r| == 13 + |suffix| && r[..4] == "ANA-" && r[4..12] == date && r[12] == '-' && r[13..] == suffix
  {
  }

  /** `generate_dossier_number`: "ANA-", the compact date, a dash and the
      counter zero-padded to three digits. */
  function NextDossierNumber(rows: seq<CaseRecord>, today: Date): string {
    "ANA-" + CompactDate(today) + "-" + PadNumber(DayCounter(rows, today), 3)
  }

  /** The number reads back as the prefix "ANA-", the compact date, a dash and
      the counter in at least three digits, never truncated. */
  lemma DossierNumberReadsBack(rows: seq<CaseRecord>, today: Date)
    ensures var r, n := NextDossierNumber(rows, today), DayCounter(rows, today);
      |r| == 13 + (if |Digits(n)| < 3 then 3 else |Digits(n)|) &&
      r[..4] == "ANA-" && r[4..12] == CompactDate(today) && r[12] == '-' &&
      IsDigits(r[13..]) && ParseDigits(r[13..]) == n
  {
    CompactDateReadsBack(today);
    PadNumberReadsBack(DayCounter(rows, today), 3);
    DossierLayout(CompactDate(today), PadNumber(DayCounter(rows, today), 3));
  }

  /** No stored creation text starts with the compact date. */
  lemma NoRowCreatedWithCompactDate(rows: seq<CaseRecord>, today: Date)
    ensures CreatedWithPrefix(rows, CompactDate(today)) == 0
  {
    var prefix := CompactDate(today);
    var matching := Select(rows, (r: CaseRecord) => prefix <= TimestampText(r.createdAt));
    if matching != [] {
      assert matching[0] in rows && prefix <= TimestampText(matching[0].createdAt);
      CompactDateNeverPrefixesTimestamp(today, matching[0].createdAt);
    }
  }

  /** Whatever the ledger holds, the counter is 1. */
  lemma DayCounterIsOne(rows: seq<CaseRecord>, today: Date)
    ensures DayCounter(rows, today) == 1
  {
    CompactDateReadsBack(today);
    NoRowCreatedWithCompactDate(rows, today);
  }

  lemma PadOne()
    ensures PadNumber(1, 3) == "001"
  {
    assert Digits(1) == "1";
    assert Zeros(2) == "00";
  }

  /** Whatever the ledger holds, the generated number ends in "001". */
  lemma DossierSuffixAlwaysOne(rows: seq<CaseRecord>, today: Date)
    ensures NextDossierNumber(rows, today) == "ANA-" + CompactDate(today) + "-001"
  {
    DayCounterIsOne(rows, today);
    PadOne();
  }
}
