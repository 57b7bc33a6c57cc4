/**
 * The transaction record produced by the extractor. Its fields are the
 * source's dictionary keys: `Data` is the text of `date`, `operationDate` is
 * `Data_Operazione`, `description` is `Descrizione`, `amount` is `Importo`
 * (here in whole cents) and `referenceCode` is `Codice_Riferimento`.
 *
 * `Data` is only ever written as the formatted form of a date that parsed,
 * so the record keeps that date and `DateText` gives its text back.
 */
module Records {
  import opened Wrappers
  import opened Dates

  type CalendarDate = d: Date | ValidDate(d) witness Date(1, 1, 1)

  datatype Movement = Movement(
    date: CalendarDate,
    operationDate: string,
    description: string,
    amount: nat,
    referenceCode: string)

  /** The record's `Data` field: its date as "dd/mm/yyyy". */
  function DateText(m: Movement): string {
    FormatDate(m.date)
  }

  /**
   * Re-parsing `Data`, as the sort key and the monthly grouping do, gives the
   * record's date back, and two records have the same `Data` exactly when
   * they have the same date.
   */
  lemma DateTextParses(m: Movement, n: Movement)
    ensures ParseDate(DateText(m)) == Some(m.date)
    ensures DateText(m) == DateText(n) <==> m.date == n.date
  {
    ParseFormat(m.date);
    ParseFormat(n.date);
  }
}
