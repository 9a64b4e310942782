/** The values that travel from a provider response to the local ledger
    (providers/banking-provider.ts and prisma/schema.prisma). */
module Domain {

  datatype Option<+T> = None | Some(value: T)

  type AccountId = string

  /** Transaction ids are uuids handed out in creation order and no code removes a row, so the
      id of a row is its position in the table. */
  type RowId = nat

  const DAY_MS: int := 24 * 60 * 60 * 1000

  datatype Status = Pending | Settled

  datatype ImportStatus = NotImported | Imported | ImportError

  /** Instants are milliseconds since the epoch, as `Date.getTime()` gives them. */
  datatype ProviderTx = ProviderTx(
    providerTransactionId: Option<string>,
    status: Status,
    timestamp: int,
    bookedDate: int,
    amountMinor: int,
    currency: string,
    description: string,
    merchantName: Option<string>,
    transactionType: Option<string>,
    category: Option<string>,
    runningBalanceMinor: Option<int>)

  datatype NormalizedTx = NormalizedTx(tx: ProviderTx, rawHash: string)

  /** One line of the `transactions` table. */
  datatype Row = Row(
    accountId: AccountId,
    providerTransactionId: Option<string>,
    status: Status,
    timestamp: int,
    bookedDate: Option<int>,
    amountMinor: int,
    currency: string,
    description: string,
    merchantName: Option<string>,
    transactionType: Option<string>,
    category: Option<string>,
    runningBalanceMinor: Option<int>,
    rawHash: string,
    importStatus: ImportStatus,
    actualTransactionId: Option<string>,
    importedAt: Option<int>,
    deletedAt: Option<int>,
    updatedAt: int)
  {
    predicate Live() { deletedAt.None? }

    /** `bookedDate ?? timestamp`, used for matching and for the export date. */
    function EffectiveDate(): int {
      if bookedDate.Some? then bookedDate.value else timestamp
    }
  }

  /** JavaScript truthiness of an optional string: present and not empty. */
  predicate Truthy(s: Option<string>) {
    s.Some? && s.value != ""
  }

  /** The text functions of the JavaScript runtime. Nothing is assumed of them here; where a sort is
      involved, `localeCompare` has to be a total preorder. */
  datatype Runtime = Runtime(
    trim: string -> string,
    upper: string -> string,
    normalizeDescription: string -> string,
    localeCompare: (string, string) -> int)

  /** Midnight UTC of the day an instant falls on. */
  function DayStart(ms: int): (day: int)
    ensures day <= ms < day + DAY_MS
    ensures day % DAY_MS == 0
  {
    ms - ms % DAY_MS
  }

  lemma DayStartMonotone(a: int, b: int)
    requires a <= b
    ensures DayStart(a) <= DayStart(b)
  {
  }

  lemma DayStartFixed(ms: int)
    requires ms % DAY_MS == 0
    ensures DayStart(ms) == ms
  {
  }
}
