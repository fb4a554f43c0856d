/** The prediction page: the bounded history of results (newest first), the
    advice shown after a rejection, the banded explanation of each factor,
    and the order of the guards in the submit handler. */
module Predictions {
  import opened Common
  import opened Utils
  import opened Api

  const DECISION_APPROVED: string := "Approved"
  const DECISION_REJECTED: string := "Rejected"

  /** The current prediction: the form's fields merged with the service's
      result, stamped with the time and a fresh id. */
  datatype Prediction = Prediction(app: Application, result: ScoreResult, timestamp: int, id: string)

  /** One history entry. Currency, date and percentage text are kept as the
      numbers they format. */
  datatype HistoryItem = HistoryItem(
    id: string,
    timestamp: int,
    income: real,
    loanAmount: real,
    cibil: real,
    status: string,
    approvalProbability: real,
    riskLevel: RiskBand,
    originalData: Prediction)

  /** The entry recorded for a prediction: its decision as status, the risk
      band of its rejection probability, and the prediction itself. */
  function MakeHistoryItem(p: Prediction): (item: HistoryItem)
    ensures item.id == p.id && item.timestamp == p.timestamp && item.originalData == p
    ensures item.status == p.result.decision
    ensures item.riskLevel == GetRiskLevel(p.result.rejectionProbability).level
    ensures item.income == p.app.income && item.loanAmount == p.app.loanAmount && item.cibil == p.app.cibil
  {
    HistoryItem(p.id, p.timestamp, p.app.income, p.app.loanAmount, p.app.cibil, p.result.decision,
                p.result.approvalProbability, GetRiskLevel(p.result.rejectionProbability).level, p)
  }

  // ---------------------------------------------------------------------
  // The history ledger

  /** The history after one insertion: the new entry first, then the old
      entries in order, cut to the limit. */
  function Inserted(history: seq<HistoryItem>, item: HistoryItem): (r: seq<HistoryItem>)
    ensures |r| == Min(|history| + 1, HISTORY_LIMIT)
    ensures r[0] == item
    ensures forall i :: 1 <= i < |r| ==> r[i] == history[i - 1]
  {
    var added := [item] + history;
    if |added| > HISTORY_LIMIT then added[..HISTORY_LIMIT] else added
  }

  /** Only the oldest entry is dropped, and only when the history was full. */
  lemma InsertedDropsOnlyOldest(history: seq<HistoryItem>, item: HistoryItem)
    requires |history| <= HISTORY_LIMIT
    ensures |history| < HISTORY_LIMIT ==> Inserted(history, item) == [item] + history
    ensures |history| == HISTORY_LIMIT ==> Inserted(history, item) == [item] + history[..HISTORY_LIMIT - 1]
  {
  }

  function Reverse<T>(s: seq<T>): (r: seq<T>)
    ensures |r| == |s|
  {
    if s == [] then [] else Reverse(s[1..]) + [s[0]]
  }

  lemma {:induction false} ReverseIndex<T>(s: seq<T>, i: nat)
    requires i < |s|
    ensures Reverse(s)[i] == s[|s| - 1 - i]
  {
    if i < |s| - 1 {
      ReverseIndex(s[1..], i);
    }
  }

  /** The history after inserting `items` one by one, first to last. */
  function InsertAll(history: seq<HistoryItem>, items: seq<HistoryItem>): seq<HistoryItem>
    decreases |items|
  {
    if items == [] then history else InsertAll(Inserted(history, items[0]), items[1..])
  }

  lemma PrefixOfConcat(r: seq<HistoryItem>, a: seq<HistoryItem>, b: seq<HistoryItem>, n: nat)
    requires |a| <= |b| && a == b[..|a|] && n <= |r| + |a|
    ensures (r + a)[..n] == (r + b)[..n]
  {
    assert forall i :: 0 <= i < n ==> (r + a)[i] == (r + b)[i];
  }

  /** One insertion, seen through the closed form of the later ones. */
  lemma InsertStep(r: seq<HistoryItem>, history: seq<HistoryItem>, x: HistoryItem)
    requires |history| <= HISTORY_LIMIT
    ensures (r + Inserted(history, x))[..Min(|r| + |Inserted(history, x)|, HISTORY_LIMIT)]
            == (r + [x] + history)[..Min(|r| + 1 + |history|, HISTORY_LIMIT)]
  {
    var added := [x] + history;
    assert r + [x] + history == r + added;
    if |history| == HISTORY_LIMIT {
      PrefixOfConcat(r, Inserted(history, x), added, HISTORY_LIMIT);
    }
  }

  /** Any run of insertions leaves the most recent entries, newest first,
      followed by the older history, cut to the limit. */
  lemma {:induction false} InsertAllNewestFirst(history: seq<HistoryItem>, items: seq<HistoryItem>)
    requires |history| <= HISTORY_LIMIT
    ensures InsertAll(history, items) == (Reverse(items) + history)[..Min(|items| + |history|, HISTORY_LIMIT)]
    decreases |items|
  {
    if items != [] {
      var x := items[0];
      InsertAllNewestFirst(Inserted(history, x), items[1..]);
      assert Reverse(items) == Reverse(items[1..]) + [x];
      InsertStep(Reverse(items[1..]), history, x);
    }
  }

  /** Twenty-one insertions into an empty history keep the last twenty, the
      newest first: the very first entry is the one dropped. */
  lemma TwentyOneInserts(items: seq<HistoryItem>)
    requires |items| == HISTORY_LIMIT + 1
    ensures |InsertAll([], items)| == HISTORY_LIMIT
    ensures forall i :: 0 <= i < HISTORY_LIMIT ==> InsertAll([], items)[i] == items[HISTORY_LIMIT - i]
  {
    InsertAllNewestFirst([], items);
    forall i | 0 <= i < HISTORY_LIMIT ensures InsertAll([], items)[i] == items[HISTORY_LIMIT - i] {
      ReverseIndex(items, i);
    }
  }

  /** The global `predictionHistory` and the persisted key it is saved to. */
  class PredictionLedger {
    var history: seq<HistoryItem>
    var stored: Slot<seq<HistoryItem>>   // "predictionHistory"

    constructor (storedHistory: Slot<seq<HistoryItem>>)
      ensures history == [] && stored == storedHistory
    {
      history := [];
      stored := storedHistory;
    }

    method LoadPredictionHistory()
      modifies this`history
      ensures history == LoadFromLocalStorage(stored, [])
    {
      history := LoadFromLocalStorage(stored, []);
    }

    /** Puts the entry for `p` at the front, drops entries past the limit,
        and saves the result. */
    method AddToPredictionHistory(p: Prediction)
      modifies this`history, this`stored
      ensures history == Inserted(old(history), MakeHistoryItem(p))
      ensures stored == Holds(history)
    {
      var item := MakeHistoryItem(p);
      history := [item] + history;
      if |history| > HISTORY_LIMIT {
        history := history[..HISTORY_LIMIT];
      }
      stored := Holds(history);
    }
  }

  // ---------------------------------------------------------------------
  // Recommendations

  /** `loan / income > k` with the division of JavaScript numbers: dividing
      by zero gives +Infinity for a positive loan and NaN (never greater)
      for a zero loan. */
  predicate RatioExceeds(loan: real, income: real, k: real)
  {
    if income != 0.0 then loan / income > k else loan > 0.0
  }

  lemma RatioExceedsMonotone(loan: real, income: real, k1: real, k2: real)
    requires k1 <= k2 && RatioExceeds(loan, income, k2)
    ensures RatioExceeds(loan, income, k1)
  {
  }

  const CIBIL_ADVICE_BELOW: real := 650.0
  const LOWER_AMOUNT_RATIO: real := 0.4
  const INCREASE_INCOME_RATIO: real := 0.5

  datatype Recommendation =
    | ImproveCibil
    | LowerAmount(suggested: int)
    | IncreaseCollateral
    | IncreaseIncome
    | ReapplyLater
    | ConsultAdvisor

  function RecommendationRank(r: Recommendation): nat
  {
    match r
    case ImproveCibil => 0
    case LowerAmount(_) => 1
    case IncreaseCollateral => 2
    case IncreaseIncome => 3
    case ReapplyLater => 4
    case ConsultAdvisor => 5
  }

  /** The suggested smaller amount: 40% of income, rounded down. */
  function SuggestedAmount(income: real): (a: int)
    ensures a as real <= income * LOWER_AMOUNT_RATIO < a as real + 1.0
  {
    (income * LOWER_AMOUNT_RATIO).Floor
  }

  /** The advice list for an application: each rule in its fixed order, and
      the two general lines when no rule applies. */
  function Recommendations(app: Application): (recs: seq<Recommendation>)
    ensures ImproveCibil in recs <==> app.cibil < CIBIL_ADVICE_BELOW
    ensures LowerAmount(SuggestedAmount(app.income)) in recs <==> RatioExceeds(app.loanAmount, app.income, LOWER_AMOUNT_RATIO)
    ensures IncreaseCollateral in recs <==> TotalAssets(app) < app.loanAmount
    ensures IncreaseIncome in recs <==> RatioExceeds(app.loanAmount, app.income, INCREASE_INCOME_RATIO)
    ensures recs == [ReapplyLater, ConsultAdvisor] <==>
              && app.cibil >= CIBIL_ADVICE_BELOW
              && !RatioExceeds(app.loanAmount, app.income, LOWER_AMOUNT_RATIO)
              && TotalAssets(app) >= app.loanAmount
              && !RatioExceeds(app.loanAmount, app.income, INCREASE_INCOME_RATIO)
  {
    var rules := RuleAdvice(app);
    if rules == [] then [ReapplyLater, ConsultAdvisor] else rules
  }

  /** The advice of the four rules that fire, in rule order. */
  function RuleAdvice(app: Application): seq<Recommendation>
  {
    (if app.cibil < CIBIL_ADVICE_BELOW then [ImproveCibil] else [])
    + (if RatioExceeds(app.loanAmount, app.income, LOWER_AMOUNT_RATIO)
       then [LowerAmount(SuggestedAmount(app.income))] else [])
    + (if TotalAssets(app) < app.loanAmount then [IncreaseCollateral] else [])
    + (if RatioExceeds(app.loanAmount, app.income, INCREASE_INCOME_RATIO) then [IncreaseIncome] else [])
  }

  /** The list holds one to four lines; the general lines appear only
      together and alone; any lower-amount line carries the suggested amount. */
  lemma RecommendationsShape(app: Application)
    ensures var recs := Recommendations(app);
            && 1 <= |recs| <= 4
            && (ReapplyLater in recs <==> recs == [ReapplyLater, ConsultAdvisor])
            && (forall r :: r in recs && r.LowerAmount? ==> r.suggested == SuggestedAmount(app.income))
  {
    var cibil := if app.cibil < CIBIL_ADVICE_BELOW then [ImproveCibil] else [];
    var lower := if RatioExceeds(app.loanAmount, app.income, LOWER_AMOUNT_RATIO)
                 then [LowerAmount(SuggestedAmount(app.income))] else [];
    var collateral := if TotalAssets(app) < app.loanAmount then [IncreaseCollateral] else [];
    var income := if RatioExceeds(app.loanAmount, app.income, INCREASE_INCOME_RATIO) then [IncreaseIncome] else [];
    assert RuleAdvice(app) == cibil + lower + collateral + income;
    forall r | r in Recommendations(app) && r.LowerAmount?
      ensures r.suggested == SuggestedAmount(app.income)
    {
      assert r in cibil + lower + collateral + income;
      assert r in lower;
    }
  }

  /** The lines come strictly in rule order. */
  lemma RecommendationsInRuleOrder(app: Application)
    ensures var recs := Recommendations(app);
            forall i, j :: 0 <= i < j < |recs| ==> RecommendationRank(recs[i]) < RecommendationRank(recs[j])
  {
    var cibil := if app.cibil < CIBIL_ADVICE_BELOW then [ImproveCibil] else [];
    var lower := if RatioExceeds(app.loanAmount, app.income, LOWER_AMOUNT_RATIO)
                 then [LowerAmount(SuggestedAmount(app.income))] else [];
    var collateral := if TotalAssets(app) < app.loanAmount then [IncreaseCollateral] else [];
    var income := if RatioExceeds(app.loanAmount, app.income, INCREASE_INCOME_RATIO) then [IncreaseIncome] else [];
    assert RuleAdvice(app) == cibil + lower + collateral + income;
    ExtendInRuleOrder(cibil, lower, 1);
    ExtendInRuleOrder(cibil + lower, collateral, 2);
    ExtendInRuleOrder(cibil + lower + collateral, income, 3);
  }

  /** Appending at most one piece of advice of rank `k` to a list ordered by
      rank, whose ranks are all below `k`, keeps it ordered. */
  lemma ExtendInRuleOrder(s: seq<Recommendation>, t: seq<Recommendation>, k: nat)
    requires forall i, j :: 0 <= i < j < |s| ==> RecommendationRank(s[i]) < RecommendationRank(s[j])
    requires forall i :: 0 <= i < |s| ==> RecommendationRank(s[i]) < k
    requires |t| <= 1 && (|t| == 1 ==> RecommendationRank(t[0]) == k)
    ensures forall i, j :: 0 <= i < j < |s + t| ==> RecommendationRank((s + t)[i]) < RecommendationRank((s + t)[j])
    ensures forall i :: 0 <= i < |s + t| ==> RecommendationRank((s + t)[i]) <= k
  {
  }

  /** A ratio above one half is also above 0.4, so the income advice never
      comes without the lower-amount advice. */
  lemma IncomeAdviceImpliesLowerAmount(app: Application)
    ensures IncreaseIncome in Recommendations(app) ==> LowerAmount(SuggestedAmount(app.income)) in Recommendations(app)
  {
    if RatioExceeds(app.loanAmount, app.income, INCREASE_INCOME_RATIO) {
      RatioExceedsMonotone(app.loanAmount, app.income, LOWER_AMOUNT_RATIO, INCREASE_INCOME_RATIO);
    }
  }

  /** With a positive income, the suggested amount is below the requested one. */
  lemma SuggestionIsLower(app: Application)
    requires app.income > 0.0
    requires LowerAmount(SuggestedAmount(app.income)) in Recommendations(app)
    ensures (SuggestedAmount(app.income) as real) < app.loanAmount
  {
    assert app.loanAmount / app.income > LOWER_AMOUNT_RATIO;
    assert app.loanAmount == (app.loanAmount / app.income) * app.income;
  }

  /** The results panel lists advice only for a rejected application. */
  function ShownRecommendations(p: Prediction): (recs: seq<Recommendation>)
    ensures p.result.decision == DECISION_REJECTED ==> recs == Recommendations(p.app)
    ensures p.result.decision != DECISION_REJECTED ==> recs == []
  {
    if p.result.decision == DECISION_REJECTED then Recommendations(p.app) else []
  }

  // ---------------------------------------------------------------------
  // Explanation

  datatype CibilBand = PoorCibil | FairCibil | StrongCibil
  datatype RatioBand = HighRatio | ModerateRatio | HealthyRatio
  datatype AssetBand = StrongAssets | ModerateAssets | WeakAssets
  datatype Employment = SelfEmployed | Salaried

  /** One line per factor plus the verdict. */
  datatype Explanation = Explanation(
    cibil: CibilBand,
    ratio: RatioBand,
    assets: AssetBand,
    employment: Employment,
    approved: bool,
    approvalProbability: real)

  /** The explanation panel: exactly one band per factor. The ratio bands
      compare `loan / income * 100` with 50 and 30. */
  function Explain(p: Prediction): (e: Explanation)
    ensures e.cibil == PoorCibil <==> p.app.cibil < 500.0
    ensures e.cibil == FairCibil <==> 500.0 <= p.app.cibil < 750.0
    ensures e.cibil == StrongCibil <==> p.app.cibil >= 750.0
    ensures e.ratio == HighRatio <==> RatioExceeds(p.app.loanAmount, p.app.income, 0.5)
    ensures e.ratio == ModerateRatio <==> !RatioExceeds(p.app.loanAmount, p.app.income, 0.5) && RatioExceeds(p.app.loanAmount, p.app.income, 0.3)
    ensures e.assets == StrongAssets <==> TotalAssets(p.app) > p.app.loanAmount * 2.0
    ensures e.assets == ModerateAssets <==> p.app.loanAmount < TotalAssets(p.app) <= p.app.loanAmount * 2.0
    ensures e.assets == WeakAssets <==> TotalAssets(p.app) <= p.app.loanAmount && TotalAssets(p.app) <= p.app.loanAmount * 2.0
    ensures e.employment == SelfEmployed <==> p.app.selfEmployed == "Yes"
    ensures e.approved <==> p.result.decision == DECISION_APPROVED
    ensures e.approvalProbability == p.result.approvalProbability
  {
    var total := TotalAssets(p.app);
    Explanation(
      if p.app.cibil < 500.0 then PoorCibil
      else if p.app.cibil >= 500.0 && p.app.cibil < 750.0 then FairCibil
      else StrongCibil,
      if RatioExceeds(p.app.loanAmount, p.app.income, 0.5) then HighRatio
      else if RatioExceeds(p.app.loanAmount, p.app.income, 0.3) then ModerateRatio
      else HealthyRatio,
      if total > p.app.loanAmount * 2.0 then StrongAssets
      else if total > p.app.loanAmount then ModerateAssets
      else WeakAssets,
      if p.app.selfEmployed == "Yes" then SelfEmployed else Salaried,
      p.result.decision == DECISION_APPROVED,
      p.result.approvalProbability)
  }

  /** The explanation and the advice agree: the income advice appears exactly
      with a high ratio, no lower-amount advice comes with a healthy ratio,
      collateral advice only with a weak asset base, and a poor score always
      brings score advice. The collateral clause needs a non-negative loan,
      which validation guarantees. */
  lemma ExplanationAgreesWithAdvice(p: Prediction)
    ensures IncreaseIncome in Recommendations(p.app) <==> Explain(p).ratio == HighRatio
    ensures Explain(p).ratio == HealthyRatio ==> LowerAmount(SuggestedAmount(p.app.income)) !in Recommendations(p.app)
    ensures p.app.loanAmount >= 0.0 && IncreaseCollateral in Recommendations(p.app) ==> Explain(p).assets == WeakAssets
    ensures Explain(p).cibil == PoorCibil ==> ImproveCibil in Recommendations(p.app)
  {
    if RatioExceeds(p.app.loanAmount, p.app.income, LOWER_AMOUNT_RATIO) {
      RatioExceedsMonotone(p.app.loanAmount, p.app.income, 0.3, LOWER_AMOUNT_RATIO);
    }
  }

  /** Assets exactly equal to the loan are called weak, yet bring no
      collateral advice: the two rules use different comparisons. */
  lemma WeakAssetsWithoutCollateralAdvice(p: Prediction)
    requires TotalAssets(p.app) == p.app.loanAmount && p.app.loanAmount >= 0.0
    ensures Explain(p).assets == WeakAssets
    ensures IncreaseCollateral !in Recommendations(p.app)
  {
  }

  // ---------------------------------------------------------------------
  // The submit handler

  datatype PredictionOutcome =
    | RateLimited
    | Invalid(errors: seq<InputError>)
    | ServiceFailed
    | Completed(prediction: Prediction)

  /** The submit handler. The rate limit is checked first and is consumed
      even when validation then fails; the service is called only with valid
      input (`response` is its answer, `None` when the call fails); the
      history changes only after a result arrives. `now` is both the clock
      reading of the rate check and the prediction's timestamp; `id` is the
      fresh id. */
  method HandlePrediction(limiter: RateLimiter, ledger: PredictionLedger, app: Application,
                          now: int, response: Option<ScoreResult>, id: string) returns (outcome: PredictionOutcome)
    modifies limiter, ledger
    ensures outcome.RateLimited? <==> now - old(limiter.lastPredictionTime) < RATE_LIMIT_DELAY
    ensures outcome.RateLimited? ==> limiter.lastPredictionTime == old(limiter.lastPredictionTime)
    ensures !outcome.RateLimited? ==> limiter.lastPredictionTime == now
    ensures outcome.Invalid? <==> !outcome.RateLimited? && !AllInRange(app)
    ensures outcome.Invalid? ==> outcome.errors != [] && forall e :: e in outcome.errors <==> !FieldInRange(app, e)
    ensures outcome.ServiceFailed? <==> !outcome.RateLimited? && AllInRange(app) && response.None?
    ensures outcome.Completed? ==> && response.Some?
                                   && outcome.prediction == Prediction(app, response.value, now, id)
                                   && ledger.history == Inserted(old(ledger.history), MakeHistoryItem(outcome.prediction))
                                   && ledger.stored == Holds(ledger.history)
    ensures !outcome.Completed? ==> ledger.history == old(ledger.history) && ledger.stored == old(ledger.stored)
  {
    var ok := limiter.CheckRateLimit(now);
    if !ok {
      return RateLimited;
    }
    var errors := ValidateInputs(app);
    if |errors| > 0 {
      return Invalid(errors);
    }
    var request := PredictSingleRequest(app);
    if response.None? {
      return ServiceFailed;
    }
    var prediction := Prediction(request[0], response.value, now, id);
    ledger.AddToPredictionHistory(prediction);
    return Completed(prediction);
  }
}
