/** Shared helpers of the dashboard: the three-band risk classifier, the
    range checks on the prediction form, text truncation and the fallback
    read of a persisted key. */
module Utils {
  import opened Common
  import Accounts

  const COLOR_SUCCESS: string := "#10b981"
  const COLOR_WARNING: string := "#f59e0b"
  const COLOR_DANGER: string := "#ef4444"

  /** `Math.round`: the nearest integer, halves rounded up. */
  function Round(x: real): (r: int)
    ensures r as real <= x + 0.5 < r as real + 1.0
  {
    (x + 0.5).Floor
  }

  lemma RoundMonotone(x: real, y: real)
    requires x <= y
    ensures Round(x) <= Round(y)
  {
  }

  lemma RoundBounds(x: real, lo: int, hi: int)
    requires lo as real <= x <= hi as real
    ensures lo <= Round(x) <= hi
  {
  }

  datatype RiskBand = Low | Medium | High

  datatype RiskLevel = RiskLevel(level: RiskBand, score: int, color: string)

  /** Classifies a rejection probability: Low up to and including 0.33,
      Medium up to and including 0.66, High above. The score is the
      probability as a rounded percentage, the same in every band. */
  function GetRiskLevel(p: real): (r: RiskLevel)
    ensures r.level == Low <==> p <= RISK_LOW
    ensures r.level == Medium <==> RISK_LOW < p <= RISK_MEDIUM
    ensures r.level == High <==> RISK_MEDIUM < p
    ensures r.score == Round(p * 100.0)
    ensures r.color == (match r.level case Low => COLOR_SUCCESS case Medium => COLOR_WARNING case High => COLOR_DANGER)
  {
    if p <= RISK_LOW then RiskLevel(Low, Round(p * 100.0), COLOR_SUCCESS)
    else if p <= RISK_MEDIUM then RiskLevel(Medium, Round(p * 100.0), COLOR_WARNING)
    else RiskLevel(High, Round(p * 100.0), COLOR_DANGER)
  }

  /** The thresholds are inclusive upper bounds. */
  lemma RiskBoundaries()
    ensures GetRiskLevel(0.33).level == Low && GetRiskLevel(0.34).level == Medium
    ensures GetRiskLevel(0.66).level == Medium && GetRiskLevel(0.67).level == High
    ensures GetRiskLevel(0.33).score == 33 && GetRiskLevel(0.67).score == 67
  {
  }

  /** A probability gives a score between 0 and 100. */
  lemma RiskScoreBounds(p: real)
    requires 0.0 <= p <= 1.0
    ensures 0 <= GetRiskLevel(p).score <= 100
  {
    RoundBounds(p * 100.0, 0, 100);
  }

  function BandRank(b: RiskBand): nat
  {
    match b
    case Low => 0
    case Medium => 1
    case High => 2
  }

  /** A higher probability never gives a lower band or a lower score. */
  lemma RiskMonotone(p: real, q: real)
    requires p <= q
    ensures BandRank(GetRiskLevel(p).level) <= BandRank(GetRiskLevel(q).level)
    ensures GetRiskLevel(p).score <= GetRiskLevel(q).score
  {
    RoundMonotone(p * 100.0, q * 100.0);
  }

  // ---------------------------------------------------------------------
  // Form validation

  const MIN_INCOME: real := 100000.0
  const MAX_INCOME: real := 50000000.0
  const MIN_LOAN: real := 50000.0
  const MAX_LOAN: real := 30000000.0
  const MIN_CIBIL: real := 300.0
  const MAX_CIBIL: real := 900.0
  const MIN_TERM: real := 1.0
  const MAX_TERM: real := 30.0

  /** One message of `validateInputs`, in the order the checks are made. */
  datatype InputError = IncomeOutOfRange | LoanAmountOutOfRange | CibilOutOfRange | LoanTermOutOfRange

  function ErrorRank(e: InputError): nat
  {
    match e
    case IncomeOutOfRange => 0
    case LoanAmountOutOfRange => 1
    case CibilOutOfRange => 2
    case LoanTermOutOfRange => 3
  }

  /** Whether the field that error `e` is about lies in its inclusive range. */
  predicate FieldInRange(app: Application, e: InputError)
  {
    match e
    case IncomeOutOfRange => MIN_INCOME <= app.income <= MAX_INCOME
    case LoanAmountOutOfRange => MIN_LOAN <= app.loanAmount <= MAX_LOAN
    case CibilOutOfRange => MIN_CIBIL <= app.cibil <= MAX_CIBIL
    case LoanTermOutOfRange => MIN_TERM <= app.loanTerm <= MAX_TERM
  }

  predicate AllInRange(app: Application)
  {
    && FieldInRange(app, IncomeOutOfRange)
    && FieldInRange(app, LoanAmountOutOfRange)
    && FieldInRange(app, CibilOutOfRange)
    && FieldInRange(app, LoanTermOutOfRange)
  }

  /** Collects one error per field out of range, in field order. */
  method ValidateInputs(app: Application) returns (errors: seq<InputError>)
    ensures errors == [] <==> AllInRange(app)
    ensures forall e :: e in errors <==> !FieldInRange(app, e)
    ensures forall i, j :: 0 <= i < j < |errors| ==> ErrorRank(errors[i]) < ErrorRank(errors[j])
    ensures |errors| <= 4
  {
    errors := [];
    if app.income < MIN_INCOME || app.income > MAX_INCOME {
      errors := errors + [IncomeOutOfRange];
    }
    CheckedStep(app, [], IncomeOutOfRange, errors);
    ghost var before := errors;
    if app.loanAmount < MIN_LOAN || app.loanAmount > MAX_LOAN {
      errors := errors + [LoanAmountOutOfRange];
    }
    CheckedStep(app, before, LoanAmountOutOfRange, errors);
    before := errors;
    if app.cibil < MIN_CIBIL || app.cibil > MAX_CIBIL {
      errors := errors + [CibilOutOfRange];
    }
    CheckedStep(app, before, CibilOutOfRange, errors);
    before := errors;
    if app.loanTerm < MIN_TERM || app.loanTerm > MAX_TERM {
      errors := errors + [LoanTermOutOfRange];
    }
    CheckedStep(app, before, LoanTermOutOfRange, errors);
    RankedIsShort(errors);
    NoErrorsIffAllInRange(app, errors);
  }

  lemma NoErrorsIffAllInRange(app: Application, errors: seq<InputError>)
    requires forall e :: e in errors <==> !FieldInRange(app, e)
    ensures errors == [] <==> AllInRange(app)
  {
    if errors != [] {
      assert !FieldInRange(app, errors[0]);
    }
  }

  /** `errors` holds, in rank order, exactly the violated checks of rank below `k`. */
  ghost predicate CheckedBelow(app: Application, errors: seq<InputError>, k: nat)
  {
    && (forall e :: e in errors <==> ErrorRank(e) < k && !FieldInRange(app, e))
    && (forall i, j :: 0 <= i < j < |errors| ==> ErrorRank(errors[i]) < ErrorRank(errors[j]))
    && (forall i :: 0 <= i < |errors| ==> ErrorRank(errors[i]) < k)
  }

  /** One check of `validateInputs`: the error is appended exactly when its
      field is out of range. */
  lemma CheckedStep(app: Application, before: seq<InputError>, e: InputError, after: seq<InputError>)
    requires CheckedBelow(app, before, ErrorRank(e))
    requires after == if FieldInRange(app, e) then before else before + [e]
    ensures CheckedBelow(app, after, ErrorRank(e) + 1)
    ensures ErrorRank(e) == 3 ==> forall x :: x in after <==> !FieldInRange(app, x)
  {
    forall x ensures x in after <==> ErrorRank(x) < ErrorRank(e) + 1 && !FieldInRange(app, x) {
      if ErrorRank(x) == ErrorRank(e) {
        assert x == e;
      }
    }
  }

  /** A strictly rank-ordered list of errors has at most one entry per rank. */
  lemma {:induction false} RankedIsShort(errors: seq<InputError>)
    requires forall i, j :: 0 <= i < j < |errors| ==> ErrorRank(errors[i]) < ErrorRank(errors[j])
    ensures |errors| <= 4
  {
    if |errors| > 4 {
      RankAtLeastIndex(errors, 4);
      assert false;
    }
  }

  lemma {:induction false} RankAtLeastIndex(errors: seq<InputError>, i: nat)
    requires i < |errors|
    requires forall i, j :: 0 <= i < j < |errors| ==> ErrorRank(errors[i]) < ErrorRank(errors[j])
    ensures ErrorRank(errors[i]) >= i
  {
    if i > 0 {
      RankAtLeastIndex(errors, i - 1);
    }
  }

  // ---------------------------------------------------------------------
  // Text truncation

  /** `substring(0, n)` with `n` clamped to [0, |text|]. */
  function Clamp(n: int, len: nat): (c: nat)
    ensures c <= len
    ensures 0 <= n <= len ==> c == n
  {
    if n < 0 then 0 else if n > len then len else n
  }

  /** Text longer than `maxLength` is cut to `maxLength` characters (none
      when it is negative) followed by an ellipsis; shorter text is kept. */
  function TruncateText(text: string, maxLength: int): (r: string)
    ensures |text| <= maxLength ==> r == text
    ensures |text| > maxLength ==> |r| == Clamp(maxLength, |text|) + 3 && r[|r| - 3..] == "..."
    ensures |text| > maxLength ==> r[..|r| - 3] == text[..Clamp(maxLength, |text|)]
  {
    if |text| > maxLength then text[..Clamp(maxLength, |text|)] + "..." else text
  }

  /** Truncating twice to the same length is truncating once. */
  lemma TruncateIdempotent(text: string, maxLength: int)
    ensures TruncateText(TruncateText(text, maxLength), maxLength) == TruncateText(text, maxLength)
  {
    var once := TruncateText(text, maxLength);
    if |text| > maxLength {
      var k := Clamp(maxLength, |text|);
      assert |once| > maxLength;
      assert once[..Clamp(maxLength, |once|)] == text[..k];
    }
  }

  /** The result is never longer than `maxLength + 3`, or 3 when `maxLength` is negative. */
  lemma TruncateLength(text: string, maxLength: int)
    ensures |TruncateText(text, maxLength)| <= if maxLength < 0 then 3 else maxLength + 3
  {
  }

  // ---------------------------------------------------------------------
  // Persisted keys

  /** The parsed value when the key holds parsable text, the default otherwise. */
  function LoadFromLocalStorage<T>(slot: Slot<T>, default: T): (r: T)
    ensures slot.Holds? ==> r == slot.value
    ensures !slot.Holds? ==> r == default
  {
    match slot
    case Holds(v) => v
    case _ => default
  }

  /** Both identity stores' reads of their account and admin keys follow the
      same fallback rule, with the bootstrap account as the default. */
  lemma StoreLoadsAreFallbackReads(users: Slot<map<string, Accounts.Account>>, admins: Slot<set<string>>,
                                   digest: string, now: int)
    ensures Accounts.LoadedUsers(users, digest, now) == LoadFromLocalStorage(users, Accounts.DefaultUsers(digest, now))
    ensures Accounts.LoadedAdmins(admins) == LoadFromLocalStorage(admins, {Accounts.BOOTSTRAP_ADMIN})
  {
  }
}
