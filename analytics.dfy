/** The analytics page: the headline figures over the prediction history,
    the risk-band and credit-score tallies behind its charts, the numbered
    history table and the lookup behind its view button. */
module Analytics {
  import opened Common
  import opened Utils
  import opened Predictions

  /** The rejection probability the service returned for an entry. */
  function RejectionOf(item: HistoryItem): real
  {
    item.originalData.result.rejectionProbability
  }

  /** The credit score the applicant entered for an entry. */
  function CibilOf(item: HistoryItem): real
  {
    item.originalData.app.cibil
  }

  // ---------------------------------------------------------------------
  // Headline figures

  /** Number of entries whose status is exactly `status`. */
  function CountStatus(h: seq<HistoryItem>, status: string): (n: nat)
    ensures n <= |h|
  {
    if h == [] then 0 else (if h[0].status == status then 1 else 0) + CountStatus(h[1..], status)
  }

  /** Approved and rejected entries together never outnumber the entries. */
  lemma {:induction false} DecisionCountsBounded(h: seq<HistoryItem>)
    ensures CountStatus(h, DECISION_APPROVED) + CountStatus(h, DECISION_REJECTED) <= |h|
  {
    if h != [] {
      DecisionCountsBounded(h[1..]);
    }
  }

  /** Sum of the entries' risk scores, each recomputed from its stored
      rejection probability. */
  function SumScores(h: seq<HistoryItem>): int
  {
    if h == [] then 0 else GetRiskLevel(RejectionOf(h[0])).score + SumScores(h[1..])
  }

  /** `part / total * 100` for a part of a non-empty whole. */
  function Percentage(part: nat, total: nat): (r: real)
    requires 0 < total && part <= total
    ensures 0.0 <= r <= 100.0
    ensures r * (total as real) == (part as real) * 100.0
  {
    var q := part as real / total as real;
    assert q * (total as real) == part as real;
    assert 0.0 <= q <= 1.0;
    q * 100.0
  }

  datatype Kpis = Kpis(
    approved: nat,
    rejected: nat,
    total: nat,
    approvalRate: real,
    rejectionRate: real,
    avgRiskScore: int)

  /** The headline figures: all zero for an empty history; otherwise the
      counts, the two percentages of the total, and the rounded mean score. */
  function ComputeKpis(h: seq<HistoryItem>): (k: Kpis)
    ensures h == [] ==> k == Kpis(0, 0, 0, 0.0, 0.0, 0)
    ensures k.total == |h|
    ensures k.approved == CountStatus(h, DECISION_APPROVED) && k.rejected == CountStatus(h, DECISION_REJECTED)
    ensures k.approved + k.rejected <= k.total
    ensures 0.0 <= k.approvalRate <= 100.0 && 0.0 <= k.rejectionRate <= 100.0
    ensures k.total > 0 ==> k.approvalRate == Percentage(k.approved, k.total)
    ensures k.total > 0 ==> k.rejectionRate == Percentage(k.rejected, k.total)
  {
    if |h| == 0 then Kpis(0, 0, 0, 0.0, 0.0, 0)
    else
      var approved := CountStatus(h, DECISION_APPROVED);
      var rejected := CountStatus(h, DECISION_REJECTED);
      DecisionCountsBounded(h);
      var approvalRate := Percentage(approved, |h|);
      var rejectionRate := Percentage(rejected, |h|);
      Kpis(approved, rejected, |h|, approvalRate, rejectionRate, MeanScore(h))
  }

  /** The average risk score, rounded. */
  function MeanScore(h: seq<HistoryItem>): int
    requires h != []
  {
    Round(SumScores(h) as real / |h| as real)
  }

  lemma {:induction false} SumScoresBounds(h: seq<HistoryItem>)
    requires forall i :: 0 <= i < |h| ==> 0.0 <= RejectionOf(h[i]) <= 1.0
    ensures 0 <= SumScores(h) <= 100 * |h|
  {
    if h != [] {
      RiskScoreBounds(RejectionOf(h[0]));
      SumScoresBounds(h[1..]);
    }
  }

  /** When every stored probability is a probability, the average risk
      score lies between 0 and 100. */
  lemma AvgRiskBounds(h: seq<HistoryItem>)
    requires forall i :: 0 <= i < |h| ==> 0.0 <= RejectionOf(h[i]) <= 1.0
    ensures 0 <= ComputeKpis(h).avgRiskScore <= 100
  {
    if h != [] {
      SumScoresBounds(h);
      var mean := SumScores(h) as real / |h| as real;
      assert 0.0 <= mean <= 100.0 by {
        assert SumScores(h) as real <= 100.0 * |h| as real;
      }
      RoundBounds(mean, 0, 100);
      assert ComputeKpis(h).avgRiskScore == MeanScore(h);
    }
  }

  // ---------------------------------------------------------------------
  // Risk distribution

  /** Number of entries whose recomputed band is `band`. */
  function CountBand(h: seq<HistoryItem>, band: RiskBand): nat
  {
    if h == [] then 0
    else CountBand(h[..|h| - 1], band) + (if GetRiskLevel(RejectionOf(h[|h| - 1])).level == band then 1 else 0)
  }

  /** Each entry is counted in exactly one band. */
  lemma {:induction false} BandsPartition(h: seq<HistoryItem>)
    ensures CountBand(h, Low) + CountBand(h, Medium) + CountBand(h, High) == |h|
  {
    if h != [] {
      BandsPartition(h[..|h| - 1]);
    }
  }

  /** Extending the counted prefix by one entry adds it to its own band only. */
  lemma CountBandStep(h: seq<HistoryItem>, i: nat, band: RiskBand)
    requires i < |h|
    ensures CountBand(h[..i + 1], band) ==
              CountBand(h[..i], band) + (if GetRiskLevel(RejectionOf(h[i])).level == band then 1 else 0)
  {
    assert h[..i + 1][..i] == h[..i];
  }

  /** The three counts of the risk chart, one pass over the history. */
  method RiskDistribution(h: seq<HistoryItem>) returns (low: nat, medium: nat, high: nat)
    ensures low == CountBand(h, Low) && medium == CountBand(h, Medium) && high == CountBand(h, High)
    ensures low + medium + high == |h|
  {
    low, medium, high := 0, 0, 0;
    var i := 0;
    while i < |h|
      invariant 0 <= i <= |h|
      invariant low == CountBand(h[..i], Low) && medium == CountBand(h[..i], Medium) && high == CountBand(h[..i], High)
    {
      CountBandStep(h, i, Low);
      CountBandStep(h, i, Medium);
      CountBandStep(h, i, High);
      var level := GetRiskLevel(RejectionOf(h[i])).level;
      if level == Low {
        low := low + 1;
      } else if level == Medium {
        medium := medium + 1;
      } else {
        high := high + 1;
      }
      i := i + 1;
    }
    assert h[..|h|] == h;
    BandsPartition(h);
  }

  // ---------------------------------------------------------------------
  // Credit-score buckets

  const BUCKETS: nat := 4

  /** Lower bound (inclusive) of bucket `k`. */
  function BucketLow(k: nat): real
    requires k < BUCKETS
  {
    [300.0, 500.0, 650.0, 750.0][k]
  }

  /** Upper bound (exclusive) of bucket `k`. */
  function BucketHigh(k: nat): real
    requires k < BUCKETS
  {
    [500.0, 650.0, 750.0, 900.0][k]
  }

  predicate InBucket(c: real, k: nat)
    requires k < BUCKETS
  {
    BucketLow(k) <= c < BucketHigh(k)
  }

  /** A score falls in at most one bucket; 900 and anything below 300 fall
      in none. */
  lemma BucketsDisjoint(c: real, j: nat, k: nat)
    requires j < BUCKETS && k < BUCKETS
    ensures InBucket(c, j) && InBucket(c, k) ==> j == k
    ensures !InBucket(900.0, k) && (c < 300.0 ==> !InBucket(c, k))
  {
  }

  datatype BucketCount = BucketCount(approved: nat, rejected: nat)

  /** Entries in bucket `k` whose status is "Approved". */
  function ApprovedIn(h: seq<HistoryItem>, k: nat): nat
    requires k < BUCKETS
  {
    if h == [] then 0
    else ApprovedIn(h[..|h| - 1], k)
         + (if InBucket(CibilOf(h[|h| - 1]), k) && h[|h| - 1].status == DECISION_APPROVED then 1 else 0)
  }

  /** Entries in bucket `k` with any other status. */
  function RejectedIn(h: seq<HistoryItem>, k: nat): nat
    requires k < BUCKETS
  {
    if h == [] then 0
    else RejectedIn(h[..|h| - 1], k)
         + (if InBucket(CibilOf(h[|h| - 1]), k) && h[|h| - 1].status != DECISION_APPROVED then 1 else 0)
  }

  function Tally(h: seq<HistoryItem>, k: nat): BucketCount
    requires k < BUCKETS
  {
    BucketCount(ApprovedIn(h, k), RejectedIn(h, k))
  }

  /** The bucket counts of the credit-score chart: for each entry, every
      bucket whose range holds its score gains one, as approved or not. */
  method CibilBuckets(h: seq<HistoryItem>) returns (buckets: seq<BucketCount>)
    ensures |buckets| == BUCKETS
    ensures forall k :: 0 <= k < BUCKETS ==> buckets[k] == Tally(h, k)
  {
    buckets := [BucketCount(0, 0), BucketCount(0, 0), BucketCount(0, 0), BucketCount(0, 0)];
    var i := 0;
    while i < |h|
      invariant 0 <= i <= |h| && |buckets| == BUCKETS
      invariant forall k :: 0 <= k < BUCKETS ==> buckets[k] == Tally(h[..i], k)
    {
      assert h[..i + 1][..i] == h[..i];
      var c := CibilOf(h[i]);
      var k := 0;
      while k < BUCKETS
        invariant 0 <= k <= BUCKETS && |buckets| == BUCKETS
        invariant forall j :: 0 <= j < k ==> buckets[j] == Tally(h[..i + 1], j)
        invariant forall j :: k <= j < BUCKETS ==> buckets[j] == Tally(h[..i], j)
      {
        if BucketLow(k) <= c < BucketHigh(k) {
          if h[i].status == DECISION_APPROVED {
            buckets := buckets[k := buckets[k].(approved := buckets[k].approved + 1)];
          } else {
            buckets := buckets[k := buckets[k].(rejected := buckets[k].rejected + 1)];
          }
        }
        k := k + 1;
      }
      i := i + 1;
    }
    assert h[..|h|] == h;
  }

  /** Number of entries whose score lies in [300, 900). */
  function InChartRange(h: seq<HistoryItem>): nat
  {
    if h == [] then 0
    else InChartRange(h[..|h| - 1]) + (if 300.0 <= CibilOf(h[|h| - 1]) < 900.0 then 1 else 0)
  }

  function BucketTotal(h: seq<HistoryItem>, k: nat): nat
    requires k < BUCKETS
  {
    ApprovedIn(h, k) + RejectedIn(h, k)
  }

  /** The four buckets together count every entry scored in [300, 900)
      exactly once, and nothing else. */
  lemma {:induction false} BucketsCoverChartRange(h: seq<HistoryItem>)
    ensures BucketTotal(h, 0) + BucketTotal(h, 1) + BucketTotal(h, 2) + BucketTotal(h, 3) == InChartRange(h)
  {
    if h != [] {
      BucketsCoverChartRange(h[..|h| - 1]);
    }
  }

  // ---------------------------------------------------------------------
  // History table and detail lookup

  /** The position of the first entry carrying `id`, if any. */
  function FirstIndex(h: seq<HistoryItem>, id: string): (r: Option<nat>)
    ensures r.Some? ==> r.value < |h| && h[r.value].id == id && forall j :: 0 <= j < r.value ==> h[j].id != id
    ensures r.None? ==> forall i :: 0 <= i < |h| ==> h[i].id != id
  {
    if h == [] then None
    else if h[0].id == id then Some(0)
    else
      match FirstIndex(h[1..], id)
      case None => None
      case Some(k) => Some(k + 1)
  }

  /** `find`: the first entry carrying `id`, if any. */
  function FindById(h: seq<HistoryItem>, id: string): (r: Option<HistoryItem>)
    ensures r.None? <==> forall i :: 0 <= i < |h| ==> h[i].id != id
    ensures r.Some? ==> exists i :: 0 <= i < |h| && h[i] == r.value && r.value.id == id
                                    && forall j :: 0 <= j < i ==> h[j].id != id
  {
    match FirstIndex(h, id)
    case None => None
    case Some(i) => Some(h[i])
  }

  /** The view button: the stored prediction of the first matching entry
      becomes the current one; with no match the current one stays. */
  function ViewPredictionDetail(h: seq<HistoryItem>, id: string, current: Option<Prediction>): (r: Option<Prediction>)
    ensures FindById(h, id).None? ==> r == current
    ensures FindById(h, id).Some? ==> r == Some(FindById(h, id).value.originalData)
  {
    match FindById(h, id)
    case Some(item) => Some(item.originalData)
    case None => current
  }

  /** The newest entry is the one found for its id, even when an older entry
      carries the same id. */
  lemma NewestEntryFound(h: seq<HistoryItem>, p: Prediction)
    ensures FindById(Inserted(h, MakeHistoryItem(p)), p.id) == Some(MakeHistoryItem(p))
    ensures ViewPredictionDetail(Inserted(h, MakeHistoryItem(p)), p.id, None) == Some(p)
  {
  }

  datatype HistoryRow = HistoryRow(number: nat, item: HistoryItem)

  /** The table rows, numbered from 1 in ledger order. */
  function HistoryRows(h: seq<HistoryItem>): (rows: seq<HistoryRow>)
    ensures |rows| == |h|
    ensures forall i :: 0 <= i < |rows| ==> rows[i].number == i + 1 && rows[i].item == h[i]
  {
    seq(|h|, i requires 0 <= i < |h| => HistoryRow(i + 1, h[i]))
  }

  /** After an insertion the new entry is row 1 and every surviving row moves
      down by one, keeping its entry. */
  lemma RowsAfterInsert(h: seq<HistoryItem>, x: HistoryItem)
    ensures var before, after := HistoryRows(h), HistoryRows(Inserted(h, x));
            && after[0] == HistoryRow(1, x)
            && forall i :: 1 <= i < |after| ==> after[i].item == before[i - 1].item && after[i].number == before[i - 1].number + 1
  {
  }
}
