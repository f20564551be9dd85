/** The values the expense tracker stores and exchanges: expenses, dates,
    parsed command-line arguments and the errors an operation reports. */
module Values {

  datatype Option<+T> = None | Some(value: T)

  datatype Result<+T, +E> = Ok(value: T) | Err(error: E)

  datatype Outcome<+E> = Pass | Fail(error: E)

  /** A command-line argument after `parseInt`/`parseFloat`: `Missing` when the
      option string was falsy (absent or empty), `Malformed` when parsing gave
      NaN, `Given` otherwise. */
  datatype Arg<+T> = Missing | Malformed | Given(value: T)

  /** A calendar date, as the `YYYY-MM-DD` text stored with each expense. */
  datatype Date = Date(year: nat, month: nat, day: nat)

  datatype Expense = Expense(id: nat, date: Date, description: string, amount: real, category: string)

  datatype Error =
    | MissingField          // "Description and amount are required"
    | NonPositiveAmount     // "Amount must be a positive number"
    | NotFound(id: Arg<int>)
    | BadMonth              // "Month must be between 1 and 12"
    | NonPositiveBudget     // "Budget must be a positive number"

  /** The over-budget warning: the month's total and the threshold it exceeds. */
  datatype Warning = Warning(total: real, threshold: real)

  const Uncategorized: string := "Uncategorized"

  /** The amount an argument carries when it parses to a positive number. */
  function PositiveAmount(a: Arg<real>): Option<real>
  {
    if a.Given? && a.value > 0.0 then Some(a.value) else None
  }

  /** The month an argument names when it parses to an integer in 1..12. */
  function ValidMonth(m: Arg<int>): Option<nat>
  {
    if m.Given? && 1 <= m.value <= 12 then Some(m.value) else None
  }

  /** Does the expense carry the id that the argument parses to?  A NaN id
      matches nothing, as `e.id === NaN` is always false. */
  predicate HasId(e: Expense, id: Arg<int>)
  {
    id.Given? && e.id == id.value
  }

  /** The shape every expense that the operations create keeps. */
  predicate WellFormed(e: Expense)
  {
    e.id >= 1 && e.description != [] && e.amount > 0.0 && e.category != []
  }
}
