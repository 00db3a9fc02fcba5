/**
 * The numbers plot_papers feeds to its charts: per-key totals, histograms over fixed
 * bins, the split of papers by report status, the red/blue urgency choices and the
 * wedge labels of the pie charts.
 */
module Aggregate {
  import opened Wrappers
  import opened Text
  import opened Dates
  import opened Records

  // ----- totals -----

  /** sum(paper.n_reviews[k] for paper in papers) */
  function SumOf(papers: seq<Paper>, k: Key): (total: nat)
    ensures forall i :: 0 <= i < |papers| ==> papers[i].reviews.Get(k) <= total
    decreases |papers|
  {
    if papers == [] then 0 else SumOf(papers[..|papers| - 1], k) + papers[|papers| - 1].reviews.Get(k)
  }

  /** Totals add up over consecutive runs of papers. */
  lemma {:induction false} SumOfAppend(a: seq<Paper>, b: seq<Paper>, k: Key)
    ensures SumOf(a + b, k) == SumOf(a, k) + SumOf(b, k)
    decreases |b|
  {
    if b == [] {
      assert a + b == a;
    } else {
      var b' := b[..|b| - 1];
      assert (a + b)[..|a + b| - 1] == a + b';
      SumOfAppend(a, b', k);
    }
  }

  /** Because every paper's confirmed count absorbed its submitted count, so do the totals. */
  lemma {:induction false} ConfirmedTotalCoversSubmitted(papers: seq<Paper>)
    requires forall i :: 0 <= i < |papers| ==> IsAdjusted(papers[i])
    ensures SumOf(papers, Confirmed) >= SumOf(papers, Submitted)
    decreases |papers|
  {
    if papers != [] {
      ConfirmedTotalCoversSubmitted(papers[..|papers| - 1]);
    }
  }

  /** Why the aggregation raises: papers[0] of an empty list. */
  datatype AggregateError = NoPapers

  /**
   * The bar chart's data: totals for the first three keys of papers[0]'s dictionary,
   * requested, canceled and confirmed in that order.
   */
  function BarData(papers: seq<Paper>): (r: Result<seq<nat>, AggregateError>)
    ensures r.Err? <==> papers == []
    ensures r.Ok? ==> |r.value| == 3
    ensures r.Ok? ==> forall i :: 0 <= i < 3 ==> r.value[i] == SumOf(papers, KeyOrder[i])
  {
    if papers == [] then Err(NoPapers)
    else Ok(seq(3, i requires 0 <= i < 3 => SumOf(papers, KeyOrder[i])))
  }

  // ----- histograms -----

  /** The bin edges -0.5, 0.5, ..., 4.5 around the counts 0 to 4. */
  const BinEdges: seq<real> := [-0.5, 0.5, 1.5, 2.5, 3.5, 4.5]

  /** numpy's rule: bin i is [edges[i], edges[i+1]), except that the last bin is closed. */
  predicate InBin(edges: seq<real>, i: nat, x: real)
    requires i + 1 < |edges|
  {
    edges[i] <= x && (x < edges[i + 1] || (i + 2 == |edges| && x == edges[i + 1]))
  }

  /** How many values land in bin i. */
  function BinCount(data: seq<int>, edges: seq<real>, i: nat): nat
    requires i + 1 < |edges|
  {
    if data == [] then 0
    else BinCount(data[..|data| - 1], edges, i) + (if InBin(edges, i, data[|data| - 1] as real) then 1 else 0)
  }

  /** np.histogram(data, edges)[0]: one count per bin; values outside every bin are dropped. */
  function Histogram(data: seq<int>, edges: seq<real>): (h: seq<nat>)
    requires |edges| >= 2
    ensures |h| == |edges| - 1
  {
    seq(|edges| - 1, i requires 0 <= i < |edges| - 1 => BinCount(data, edges, i))
  }

  /** How many values equal v. */
  function Occurrences(data: seq<int>, v: int): nat {
    if data == [] then 0
    else Occurrences(data[..|data| - 1], v) + (if data[|data| - 1] == v then 1 else 0)
  }

  /** How many values exceed v. */
  function CountAbove(data: seq<int>, v: int): nat {
    if data == [] then 0
    else CountAbove(data[..|data| - 1], v) + (if data[|data| - 1] > v then 1 else 0)
  }

  /** With the half-integer edges, bin i of the histogram counts exactly the values equal to i. */
  lemma {:induction false} HistogramBin(data: seq<int>, i: nat)
    requires i < 5
    ensures Histogram(data, BinEdges)[i] == Occurrences(data, i)
    decreases |data|
  {
    if data != [] {
      var init := data[..|data| - 1];
      HistogramBin(init, i);
      assert Histogram(init, BinEdges)[i] == BinCount(init, BinEdges, i);
    }
  }

  /** Every value 0 to 4 lands in exactly one bin; a value above 4 lands in none. */
  lemma {:induction false} BinsPartition(data: seq<nat>)
    ensures Occurrences(data, 0) + Occurrences(data, 1) + Occurrences(data, 2) + Occurrences(data, 3)
            + Occurrences(data, 4) + CountAbove(data, 4) == |data|
    decreases |data|
  {
    if data != [] {
      BinsPartition(data[..|data| - 1]);
    }
  }

  /** Counts 0 to 6: one paper in each bin, while the counts 5 and 6 fall outside every bin. */
  lemma HistogramDropsAboveFour()
    ensures Histogram([0, 1, 2, 3, 4, 5, 6], BinEdges) == [1, 1, 1, 1, 1]
  {
    var data := [0, 1, 2, 3, 4, 5, 6];
    forall i | 0 <= i < 5
      ensures Histogram(data, BinEdges)[i] == 1
    {
      HistogramBin(data, i);
      var d1, d2, d3, d4, d5, d6 := [0], [0, 1], [0, 1, 2], [0, 1, 2, 3], [0, 1, 2, 3, 4], [0, 1, 2, 3, 4, 5];
      assert d1[..0] == [] && d2[..1] == d1 && d3[..2] == d2 && d4[..3] == d3;
      assert d5[..4] == d4 && d6[..5] == d5 && data[..6] == d6;
      assert Occurrences(d1, i) == (if i == 0 then 1 else 0);
      assert Occurrences(d2, i) == (if i <= 1 then 1 else 0);
      assert Occurrences(d3, i) == (if i <= 2 then 1 else 0);
      assert Occurrences(d4, i) == (if i <= 3 then 1 else 0);
      assert Occurrences(d5, i) == 1;
      assert Occurrences(d6, i) == 1;
    }
  }

  /** Sum of a sequence of counts. */
  function Total(ns: seq<int>): int {
    if ns == [] then 0 else Total(ns[..|ns| - 1]) + ns[|ns| - 1]
  }

  /**
   * The five bins add up to the number of papers less those with more than four reviews:
   * the histogram covers every paper exactly when no count exceeds four.
   */
  lemma HistogramTotal(data: seq<nat>)
    ensures Total(Histogram(data, BinEdges)) + CountAbove(data, 4) == |data|
    ensures Total(Histogram(data, BinEdges)) == |data| <==> CountAbove(data, 4) == 0
  {
    var h := Histogram(data, BinEdges);
    HistogramBin(data, 0);
    HistogramBin(data, 1);
    HistogramBin(data, 2);
    HistogramBin(data, 3);
    HistogramBin(data, 4);
    BinsPartition(data);
    TotalOfFive(h);
  }

  lemma TotalOfFive(h: seq<int>)
    requires |h| == 5
    ensures Total(h) == h[0] + h[1] + h[2] + h[3] + h[4]
  {
    assert h[..4][..3] == h[..3];
    assert h[..3][..2] == h[..2];
    assert h[..2][..1] == h[..1];
    assert h[..1][..0] == [];
    assert Total(h[..1]) == h[0];
    assert Total(h[..2]) == h[0] + h[1];
    assert Total(h[..3]) == h[0] + h[1] + h[2];
    assert Total(h[..4]) == h[0] + h[1] + h[2] + h[3];
  }

  /** data_confirmed: the adjusted confirmed count of each paper. */
  function CountsOf(papers: seq<Paper>, k: Key): (data: seq<nat>)
    ensures |data| == |papers|
    ensures forall i :: 0 <= i < |papers| ==> data[i] == papers[i].reviews.Get(k)
  {
    seq(|papers|, i requires 0 <= i < |papers| => papers[i].reviews.Get(k))
  }

  // ----- report split -----

  /** How many counts are below v (the insufficient-reviews test is `< 2`). */
  function CountBelow(data: seq<int>, v: int): nat {
    if data == [] then 0
    else CountBelow(data[..|data| - 1], v) + (if data[|data| - 1] < v then 1 else 0)
  }

  /**
   * The loop that counts papers with fewer than two submitted reviews, adding each
   * comparison's truth value to the running count.
   */
  method CountInsufficient(dataSubmitted: seq<nat>) returns (n: nat)
    ensures n == CountBelow(dataSubmitted, 2)
    ensures n <= |dataSubmitted|
  {
    n := 0;
    for i := 0 to |dataSubmitted|
      invariant n == CountBelow(dataSubmitted[..i], 2)
      invariant n <= i
    {
      assert dataSubmitted[..i + 1][..i] == dataSubmitted[..i];
      n := n + if dataSubmitted[i] < 2 then 1 else 0;
    }
    assert dataSubmitted[..|dataSubmitted|] == dataSubmitted;
  }

  /** sum(1 if paper.report else 0 for paper in papers) */
  function CountReports(papers: seq<Paper>): (n: nat)
    ensures n <= |papers|
    ensures n == 0 <==> forall i :: 0 <= i < |papers| ==> !papers[i].report
    decreases |papers|
  {
    if papers == [] then 0
    else CountReports(papers[..|papers| - 1]) + (if papers[|papers| - 1].report then 1 else 0)
  }

  /** Papers with at least two submitted reviews and no report yet. */
  function CountPending(papers: seq<Paper>): nat {
    if papers == [] then 0
    else
      var p := papers[|papers| - 1];
      CountPending(papers[..|papers| - 1]) + (if p.reviews.submitted >= 2 && !p.report then 1 else 0)
  }

  /** Papers with a report but fewer than two submitted reviews: counted twice by the split. */
  function CountOverlap(papers: seq<Paper>): nat {
    if papers == [] then 0
    else
      var p := papers[|papers| - 1];
      CountOverlap(papers[..|papers| - 1]) + (if p.reviews.submitted < 2 && p.report then 1 else 0)
  }

  /** Papers with a report and at least two submitted reviews. */
  function CountDone(papers: seq<Paper>): nat {
    if papers == [] then 0
    else
      var p := papers[|papers| - 1];
      CountDone(papers[..|papers| - 1]) + (if p.reviews.submitted >= 2 && p.report then 1 else 0)
  }

  /**
   * The report pie's data as written: [n_insufficient, n_sufficient, n_reports] with
   * n_sufficient = n_papers - n_insufficient - n_reports. It sums to the number of papers
   * by construction, but n_sufficient is an integer that can be negative.
   */
  function ReportSplit(papers: seq<Paper>): (r: seq<int>)
    ensures |r| == 3 && r[0] + r[1] + r[2] == |papers|
    ensures r[0] == CountBelow(CountsOf(papers, Submitted), 2) && r[2] == CountReports(papers)
  {
    var insufficient := CountBelow(CountsOf(papers, Submitted), 2);
    var reports := CountReports(papers);
    [insufficient, |papers| - insufficient - reports, reports]
  }

  /** The n_insufficient loop and the n_reports sum together, as plot_papers runs them. */
  method ComputeReportSplit(papers: seq<Paper>) returns (data: seq<int>)
    ensures data == ReportSplit(papers)
  {
    var dataSubmitted := CountsOf(papers, Submitted);
    var insufficient := CountInsufficient(dataSubmitted);
    var reports := CountReports(papers);
    data := [insufficient, |papers| - insufficient - reports, reports];
  }

  lemma {:induction false} CountBelowOfSubmitted(papers: seq<Paper>)
    ensures CountBelow(CountsOf(papers, Submitted), 2) == CountOverlap(papers) + (|papers| - CountPending(papers) - CountDone(papers) - CountOverlap(papers))
    ensures CountReports(papers) == CountOverlap(papers) + CountDone(papers)
    ensures CountPending(papers) + CountDone(papers) + CountOverlap(papers) <= |papers|
    decreases |papers|
  {
    if papers != [] {
      var init := papers[..|papers| - 1];
      CountBelowOfSubmitted(init);
      assert CountsOf(papers, Submitted)[..|papers| - 1] == CountsOf(init, Submitted);
    }
  }

  /**
   * What n_sufficient really counts: the papers with enough reviews and no report, less
   * the papers counted both as insufficient and as reported.
   */
  lemma SufficientCount(papers: seq<Paper>)
    ensures ReportSplit(papers)[1] == CountPending(papers) - CountOverlap(papers)
    ensures ReportSplit(papers)[1] < 0 <==> CountPending(papers) < CountOverlap(papers)
  {
    CountBelowOfSubmitted(papers);
  }

  /** One paper with a single submitted review whose status is "Decision pending". */
  lemma NegativeSufficientExample()
    ensures ReportSplit([Paper(None, None, Counts(0, 0, 1, 1), true)]) == [1, -1, 1]
  {
    var papers := [Paper(None, None, Counts(0, 0, 1, 1), true)];
    assert papers[..0] == [];
    assert CountsOf(papers, Submitted) == [1];
    assert [1][..0] == [];
  }

  /** The three classes the report pie is meant to show. */
  datatype ReportClass = InsufficientReviews | SufficientReviews | ReportDone

  function Classify(p: Paper): ReportClass {
    if p.reviews.submitted < 2 then InsufficientReviews
    else if p.report then ReportDone
    else SufficientReviews
  }

  function ClassCount(papers: seq<Paper>, c: ReportClass): nat {
    if papers == [] then 0
    else ClassCount(papers[..|papers| - 1], c) + (if Classify(papers[|papers| - 1]) == c then 1 else 0)
  }

  /**
   * The report pie's data as intended: each paper in exactly one class, so the three
   * counts are non-negative and add up to the number of papers.
   */
  function ReportClasses(papers: seq<Paper>): (r: seq<nat>)
    ensures |r| == 3 && r[0] + r[1] + r[2] == |papers|
    ensures r[0] == CountBelow(CountsOf(papers, Submitted), 2)
    ensures r[1] == CountPending(papers) && r[2] == CountDone(papers)
    ensures r[0] == ClassCount(papers, InsufficientReviews) && r[1] == ClassCount(papers, SufficientReviews)
            && r[2] == ClassCount(papers, ReportDone)
    decreases |papers|
  {
    if papers == [] then [0, 0, 0]
    else
      var init := papers[..|papers| - 1];
      var p := papers[|papers| - 1];
      var r := ReportClasses(init);
      assert CountsOf(papers, Submitted)[..|papers| - 1] == CountsOf(init, Submitted);
      match Classify(p)
      case InsufficientReviews => [r[0] + 1, r[1], r[2]]
      case SufficientReviews => [r[0], r[1] + 1, r[2]]
      case ReportDone => [r[0], r[1], r[2] + 1]
  }

  /** The two splits agree exactly when no paper is counted both as insufficient and as reported. */
  lemma SplitsAgree(papers: seq<Paper>)
    ensures ReportSplit(papers) == ReportClasses(papers) <==> CountOverlap(papers) == 0
  {
    SufficientCount(papers);
    CountBelowOfSubmitted(papers);
    var a := ReportSplit(papers);
    var b := ReportClasses(papers);
    if CountOverlap(papers) == 0 {
      assert a == [b[0], b[1], b[2]] == b;
    } else {
      assert a[2] != b[2];
    }
  }

  // ----- pie labels -----

  /** The labels "0", "1", ... used when the caller gives none. */
  function DefaultLabels(n: nat): (r: seq<string>)
    ensures |r| == n && forall i :: 0 <= i < n ==> r[i] == NatToString(i)
  {
    seq(n, i requires 0 <= i < n => NatToString(i))
  }

  /**
   * my_pie's wedge labels. An empty label list means "no labels" (None and [] are both
   * falsy); otherwise the list must not be shorter than the counts, and any labels past
   * the counts must be empty, as indexing the counts would fail otherwise.
   */
  function PieLabels(counts: seq<int>, labels: seq<string>): (r: seq<string>)
    requires labels == [] || (|labels| >= |counts| && forall j :: |counts| <= j < |labels| ==> labels[j] == "")
    ensures |r| == |counts|
  {
    var base := if labels == [] then DefaultLabels(|counts|) else labels;
    var annotated := seq(|base|, i requires 0 <= i < |base| =>
                           if base[i] != "" then base[i] + "\n(" + IntToString(counts[i]) + ")" else "");
    seq(|counts|, i requires 0 <= i < |counts| => if counts[i] > 0 then annotated[i] else "")
  }

  /**
   * A wedge is labelled exactly when its count is positive and its label is not empty;
   * the label then ends with the count in parentheses on a line of its own.
   */
  lemma PieLabelShown(counts: seq<int>, labels: seq<string>, i: nat)
    requires labels == [] || (|labels| >= |counts| && forall j :: |counts| <= j < |labels| ==> labels[j] == "")
    requires i < |counts|
    ensures var base := if labels == [] then NatToString(i) else labels[i];
            var r := PieLabels(counts, labels)[i];
            (r != "" <==> counts[i] > 0 && base != "")
            && (r != "" ==> r == base + "\n(" + NatToString(counts[i]) + ")")
  {
  }

  /** The report pie's own wedge names, in the order of its data. */
  const ReportNames: seq<string> := ["Insufficient\n#reviews", "Sufficient\n#reviews", "AE Report\ndone"]

  /** The labels of the report pie, emptied where the count is not positive. */
  function ReportLabels(data: seq<int>): (r: seq<string>)
    requires |data| == 3
    ensures |r| == 3 && forall i :: 0 <= i < 3 ==> (r[i] != "" <==> data[i] > 0)
    ensures forall i :: 0 <= i < 3 && data[i] > 0 ==> r[i] == ReportNames[i]
  {
    seq(3, i requires 0 <= i < 3 => if data[i] > 0 then ReportNames[i] else "")
  }

  // ----- everything a snapshot's charts are drawn from -----

  /**
   * The views drawn only once the review-submission deadline has passed. Each `...Urgent`
   * field is a view's red (true) or blue colour choice.
   */
  datatype ReportViews = ReportViews(
    submittedHistogram: seq<nat>,
    submittedUrgent: bool,
    submittedLabels: seq<string>,
    reportData: seq<int>,
    reportLabels: seq<string>,
    insufficientUrgent: bool,
    sufficientUrgent: bool)

  datatype PlotData = PlotData(
    dayOffset: int,
    bars: seq<nat>,
    confirmedHistogram: seq<nat>,
    confirmedUrgent: bool,
    confirmedLabels: seq<string>,
    reports: Option<ReportViews>)

  /**
   * The numeric content of plot_papers, in its order: the day offset for the title, the
   * bars (raising on an empty list), the confirmed histogram with its colour and labels,
   * and, only after the submission deadline, the submitted histogram and the report split
   * as the code computes it (ReportSplit, whose middle entry can be negative), each with
   * its colours and labels.
   */
  function PlotNumbers(papers: seq<Paper>, fileDate: Date): (r: Result<PlotData, AggregateError>)
    requires ValidDate(fileDate)
    ensures r.Err? <==> papers == []
    ensures r.Ok? ==> r.value.bars == BarData(papers).value
    ensures r.Ok? ==> (r.value.reports.Some? <==> DeadlinePassed(fileDate, ReviewsSubmitted))
    ensures r.Ok? ==> r.value.dayOffset == DaysBetween(fileDate, Deadline(Start))
    ensures r.Ok? ==> |r.value.confirmedHistogram| == 5
                      && forall i :: 0 <= i < 5 ==> r.value.confirmedHistogram[i] == Occurrences(CountsOf(papers, Confirmed), i)
    ensures r.Ok? ==> r.value.confirmedUrgent == DeadlinePassed(fileDate, ReviewersConfirmed)
    ensures r.Ok? ==> r.value.confirmedLabels == PieLabels(r.value.confirmedHistogram, [])
    ensures r.Ok? && r.value.reports.Some? ==>
              |r.value.reports.value.submittedHistogram| == 5 &&
              forall i :: 0 <= i < 5 ==> r.value.reports.value.submittedHistogram[i] == Occurrences(CountsOf(papers, Submitted), i)
    ensures r.Ok? && r.value.reports.Some? ==>
              var v := r.value.reports.value;
              && v.submittedUrgent && v.insufficientUrgent
              && v.sufficientUrgent == DeadlinePassed(fileDate, ReportSubmitted)
              && v.submittedLabels == PieLabels(v.submittedHistogram, [])
    ensures r.Ok? && r.value.reports.Some? ==>
              var v := r.value.reports.value;
              && v.reportData == ReportSplit(papers)
              && v.reportData[0] == CountBelow(CountsOf(papers, Submitted), 2)
              && v.reportData[1] == CountPending(papers) - CountOverlap(papers)
              && v.reportData[2] == CountReports(papers)
              && v.reportLabels == PieLabels(v.reportData, ReportLabels(v.reportData))
  {
    match BarData(papers)
    case Err(e) => Err(e)
    case Ok(bars) =>
      var confirmed := Histogram(CountsOf(papers, Confirmed), BinEdges);
      forall i | 0 <= i < 5 ensures confirmed[i] == Occurrences(CountsOf(papers, Confirmed), i) {
        HistogramBin(CountsOf(papers, Confirmed), i);
      }
      var reports :=
        if DeadlinePassed(fileDate, ReviewsSubmitted) then
          var submitted := Histogram(CountsOf(papers, Submitted), BinEdges);
          var data := ReportSplit(papers);
          forall i | 0 <= i < 5 ensures submitted[i] == Occurrences(CountsOf(papers, Submitted), i) {
            HistogramBin(CountsOf(papers, Submitted), i);
          }
          SufficientCount(papers);
          Some(ReportViews(
            submitted, DeadlinePassed(fileDate, ReviewsSubmitted), PieLabels(submitted, []),
            data, PieLabels(data, ReportLabels(data)),
            DeadlinePassed(fileDate, ReviewsSubmitted), DeadlinePassed(fileDate, ReportSubmitted)))
        else None;
      Ok(PlotData(DayOffset(fileDate), bars, confirmed, DeadlinePassed(fileDate, ReviewersConfirmed),
                  PieLabels(confirmed, []), reports))
  }

  /**
   * The drawn report data is the intended three-way classification exactly when no paper
   * is counted both as having too few reviews and as reported.
   */
  lemma PlotNumbersMatchClasses(papers: seq<Paper>, fileDate: Date)
    requires ValidDate(fileDate)
    requires papers != [] && DeadlinePassed(fileDate, ReviewsSubmitted)
    ensures PlotNumbers(papers, fileDate).value.reports.Some?
    ensures PlotNumbers(papers, fileDate).value.reports.value.reportData == ReportClasses(papers)
            <==> CountOverlap(papers) == 0
  {
    SplitsAgree(papers);
  }

  /**
   * The report pie's data and labels handed to the plotting call for one paper with a
   * single submitted review and a report, the day after the submission deadline: a
   * negative middle size, and the report wedge still labelled.
   */
  lemma NegativeWedgeData()
    ensures var v := PlotNumbers([Paper(None, None, Counts(0, 0, 1, 1), true)], Date(2022, 4, 21)).value.reports.value;
            v.reportData == [1, -1, 1] && v.reportLabels[1] == "" && v.reportLabels[2] == "AE Report\ndone\n(1)"
  {
    NegativeSufficientExample();
    var data := [1, -1, 1];
    var labels := ReportLabels(data);
    assert labels[2] == ReportNames[2];
    assert NatToString(1) == "1" by {
      assert Digits(1, 1) == Digits(0, 0) + [DigitChar(1)];
    }
    PieLabelShown(data, labels, 2);
    PieLabelShown(data, labels, 1);
  }
}
