/** Shared data of the loan-risk dashboard: optional values, what a browser
    storage key yields once read and parsed, the configuration constants, and
    the applicant record that the prediction form produces. */
module Common {

  datatype Option<+T> = None | Some(value: T)

  /** What reading one persisted key and parsing its JSON text yields:
      nothing (the key is missing or holds the empty string, both falsy),
      text that does not parse, or a parsed value. */
  datatype Slot<+T> = Absent | Corrupt | Holds(value: T)

  /** Minimum spacing, in milliseconds, between accepted predictions. */
  const RATE_LIMIT_DELAY: int := 3000
  /** Maximum number of entries kept in the prediction history. */
  const HISTORY_LIMIT: nat := 20
  /** Upper bound (inclusive) of the Low risk band. */
  const RISK_LOW: real := 0.33
  /** Upper bound (inclusive) of the Medium risk band. */
  const RISK_MEDIUM: real := 0.66

  /** The eleven applicant fields sent to the scoring service, after the
      form's text has been parsed into numbers. */
  datatype Application = Application(
    dependents: int,
    education: string,
    selfEmployed: string,
    income: real,
    loanAmount: real,
    loanTerm: real,
    cibil: real,
    residentialAssets: real,
    commercialAssets: real,
    luxuryAssets: real,
    bankAssets: real)

  function Min(a: int, b: int): int
  {
    if a < b then a else b
  }

  /** The four asset values added together. */
  function TotalAssets(app: Application): real
  {
    app.residentialAssets + app.commercialAssets + app.luxuryAssets + app.bankAssets
  }

  /** One result object returned by the scoring service. */
  datatype ScoreResult = ScoreResult(
    decision: string,
    approvalProbability: real,
    rejectionProbability: real)
}
