/** What Actual holds: the columns of each clean row, and the money of an account
    (integrations/actual/export-service.ts, toImportTransaction). */
module MirrorContents {
  import opened Calendar
  import opened Domain
  import opened Export
  import opened Gateway
  import opened MirrorCoherence
  import opened Normalize
  import opened Protocol
  import opened Store

  /** A live row that the export passes over: imported, and not written since. */
  predicate Clean(row: Row) {
    && row.deletedAt == None && row.importStatus == Imported
    && (row.importedAt.Some? ==> row.updatedAt <= row.importedAt.value)
  }

  /** Actual shows the row, column by column. */
  predicate Shows(m: Payload, i: RowId, row: Row, link: string) {
    var date := if row.bookedDate.Some? then row.bookedDate.value else row.timestamp;
    && m.account == link
    && m.importedId == i
    && m.amount == row.amountMinor
    && m.cleared == (row.status == Settled)
    && m.payeeName == (if row.merchantName == Some("") then None else row.merchantName)
    && m.importedPayee == row.description
    && m.notes == row.description
    && |m.date| == 10
    && (YEAR_0 <= date < YEAR_10000 ==> ParseDay(m.date) == date / 86_400_000)
  }

  lemma PayloadShows(link: string, i: RowId, row: Row)
    ensures Shows(ToImport(link, i, row), i, row, link)
  {
    hide IsoDay, ParseDay;
    if YEAR_0 <= row.EffectiveDate() < YEAR_10000 {
      DayRoundTrip(row.EffectiveDate());
    }
  }

  /** In every run with timely stamps, Actual shows each clean row as it is, in the account its own is linked to. */
  lemma ActualShowsTheLedger(rt: Runtime, states: seq<Sys>, steps: seq<Step>, n: nat, i: RowId)
    requires Run(rt, states, steps) && Timely(states, steps) && n <= |steps|
    requires i < |states[n].rows| && Clean(states[n].rows[i])
    ensures var s := states[n];
            && s.rows[i].accountId in s.links && i in Mirror(s.actual.batches)
            && Shows(Mirror(s.actual.batches)[i], i, s.rows[i], s.links[s.rows[i].accountId])
  {
    hide Next, Enabled, Mirror, ToImport, Shows, Timely;
    var s := states[n];
    RunIsCoherent(rt, states, steps, n);
    assert CoherentRow(s, Mirror(s.actual.batches), i);
    PayloadShows(s.links[s.rows[i].accountId], i, s.rows[i]);
  }

  // -------------------------------------------------------------- the money

  /** The live rows of an account. */
  predicate InLedger(row: Row, account: AccountId) {
    row.accountId == account && row.deletedAt == None
  }

  /** The balance of the account's live rows among the first `n`. */
  function LedgerTotal(rows: seq<Row>, account: AccountId, n: nat): int
    requires n <= |rows|
  {
    if n == 0 then 0
    else LedgerTotal(rows, account, n - 1) + if InLedger(rows[n - 1], account) then rows[n - 1].amountMinor else 0
  }

  /** What Actual holds for the account's live rows among the first `n`. */
  function MirrorTotal(rows: seq<Row>, mirror: map<RowId, Payload>, account: AccountId, n: nat): int
    requires n <= |rows|
  {
    if n == 0 then 0
    else
      MirrorTotal(rows, mirror, account, n - 1) +
      if InLedger(rows[n - 1], account) && n - 1 in mirror then mirror[n - 1].amount else 0
  }

  /** What Actual still holds for soft-deleted rows of the account. */
  function Residue(rows: seq<Row>, mirror: map<RowId, Payload>, account: AccountId, n: nat): int
    requires n <= |rows|
  {
    if n == 0 then 0
    else
      Residue(rows, mirror, account, n - 1) +
      if rows[n - 1].accountId == account && rows[n - 1].deletedAt != None && n - 1 in mirror
      then mirror[n - 1].amount else 0
  }

  /** All Actual holds for rows of the account. */
  function HeldTotal(rows: seq<Row>, mirror: map<RowId, Payload>, account: AccountId, n: nat): int
    requires n <= |rows|
  {
    if n == 0 then 0
    else
      HeldTotal(rows, mirror, account, n - 1) +
      if rows[n - 1].accountId == account && n - 1 in mirror then mirror[n - 1].amount else 0
  }

  /** Conservation of money: when all live rows of an account are clean, the mirrored amounts of its live rows sum to
      its ledger, and all that Actual holds for it is the ledger and what soft-deleted rows have left there. */
  lemma {:induction false} MoneyIsConserved(rt: Runtime, states: seq<Sys>, steps: seq<Step>, n: nat, account: AccountId,
                                            m: nat)
    requires Run(rt, states, steps) && Timely(states, steps) && n <= |steps| && m <= |states[n].rows|
    requires forall i: RowId :: i < m && InLedger(states[n].rows[i], account) ==> Clean(states[n].rows[i])
    ensures var rows, mirror := states[n].rows, Mirror(states[n].actual.batches);
            && MirrorTotal(rows, mirror, account, m) == LedgerTotal(rows, account, m)
            && HeldTotal(rows, mirror, account, m) == LedgerTotal(rows, account, m) + Residue(rows, mirror, account, m)
  {
    hide Next, Enabled, Mirror, Timely, Clean;
    if m > 0 {
      MoneyIsConserved(rt, states, steps, n, account, m - 1);
      if InLedger(states[n].rows[m - 1], account) {
        ActualShowsTheLedger(rt, states, steps, n, m - 1);
      }
    }
  }
}
