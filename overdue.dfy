/**
 * print_overdue_papers: for the confirmed and submitted phases whose deadline has passed,
 * the papers with fewer than two reviews in that phase and the lines printed for them.
 */
module Overdue {
  import opened Wrappers
  import opened Text
  import opened Dates
  import opened Records
  import opened Aggregate

  /** The phases reported on, in the order they are reported. */
  const OverdueKeys: seq<Key> := [Confirmed, Submitted]

  /** The deadline-table entry read for a phase (the same name keys both dictionaries). */
  function PhaseOf(k: Key): Phase
    requires k == Confirmed || k == Submitted
  {
    if k == Confirmed then ReviewersConfirmed else ReviewsSubmitted
  }

  /** The dictionary key's own name. */
  function KeyName(k: Key): string {
    match k
    case Requested => "requested"
    case Canceled => "canceled"
    case Confirmed => "confirmed"
    case Submitted => "submitted"
  }

  /** [paper for paper in papers if paper.n_reviews[k] < 2] */
  function LowCount(papers: seq<Paper>, k: Key): (r: seq<Paper>)
    ensures |r| <= |papers|
    ensures forall p :: p in r <==> p in papers && p.reviews.Get(k) < 2
    decreases |papers|
  {
    if papers == [] then []
    else
      var init := LowCount(papers[..|papers| - 1], k);
      var p := papers[|papers| - 1];
      assert forall q :: q in papers <==> q in papers[..|papers| - 1] || q == p;
      if p.reviews.Get(k) < 2 then init + [p] else init
  }

  /** The comprehension keeps the input order: a run of papers lists its own papers after those of the run before it. */
  lemma {:induction false} LowCountAppend(a: seq<Paper>, b: seq<Paper>, k: Key)
    ensures LowCount(a + b, k) == LowCount(a, k) + LowCount(b, k)
    decreases |b|
  {
    if b == [] {
      assert a + b == a;
    } else {
      var b' := b[..|b| - 1];
      assert (a + b)[..|a + b| - 1] == a + b';
      LowCountAppend(a, b', k);
    }
  }

  /** A single paper is listed exactly when its count is below two. */
  lemma LowCountSingle(p: Paper, k: Key)
    ensures LowCount([p], k) == if p.reviews.Get(k) < 2 then [p] else []
  {
    assert [p][..0] == [];
  }

  /** As many papers are listed as have a count below two (for `submitted`: n_insufficient). */
  lemma {:induction false} LowCountSize(papers: seq<Paper>, k: Key)
    ensures |LowCount(papers, k)| == CountBelow(CountsOf(papers, k), 2)
    decreases |papers|
  {
    if papers != [] {
      var init := papers[..|papers| - 1];
      LowCountSize(init, k);
      assert CountsOf(papers, k)[..|papers| - 1] == CountsOf(init, k);
    }
  }

  /** The papers listed as overdue for a phase. */
  function OverduePapers(papers: seq<Paper>, fileDate: Date, k: Key): (r: seq<Paper>)
    requires k == Confirmed || k == Submitted
    ensures forall p :: p in r <==> p in papers && DeadlinePassed(fileDate, PhaseOf(k)) && p.reviews.Get(k) < 2
    ensures !DeadlinePassed(fileDate, PhaseOf(k)) ==> r == []
  {
    if DeadlinePassed(fileDate, PhaseOf(k)) then LowCount(papers, k) else []
  }

  /** A printed line, before it is rendered as text. */
  datatype Line =
    | Heading(phase: Key)                                         // the phase's heading
    | Entry(count: nat, number: Option<string>, ae: Option<string>)  // one listed paper

  /** The line printed for a listed paper: its count in the phase, its number and its editor. */
  function EntryFor(p: Paper, k: Key): Line {
    Entry(p.reviews.Get(k), p.number, p.ae)
  }

  /**
   * The block printed for one phase's listed papers: nothing when none is listed,
   * otherwise a heading and one line per paper, in order.
   */
  function PhaseBlock(listed: seq<Paper>, k: Key): (r: seq<Line>)
    ensures |r| == (if listed == [] then 0 else 1 + |listed|)
    ensures listed != [] ==> r[0] == Heading(k) && forall i :: 0 <= i < |listed| ==> r[i + 1] == EntryFor(listed[i], k)
  {
    if listed == [] then []
    else [Heading(k)] + seq(|listed|, i requires 0 <= i < |listed| => EntryFor(listed[i], k))
  }

  /** Everything print_overdue_papers prints: the confirmed block, then the submitted block. */
  function OverdueReport(papers: seq<Paper>, fileDate: Date): (r: seq<Line>)
    ensures var c := OverduePapers(papers, fileDate, Confirmed);
            var s := OverduePapers(papers, fileDate, Submitted);
            |r| == (if c == [] then 0 else 1 + |c|) + (if s == [] then 0 else 1 + |s|)
    ensures r[..|PhaseBlock(OverduePapers(papers, fileDate, Confirmed), Confirmed)|]
            == PhaseBlock(OverduePapers(papers, fileDate, Confirmed), Confirmed)
    ensures r[|PhaseBlock(OverduePapers(papers, fileDate, Confirmed), Confirmed)|..]
            == PhaseBlock(OverduePapers(papers, fileDate, Submitted), Submitted)
  {
    PhaseBlock(OverduePapers(papers, fileDate, OverdueKeys[0]), OverdueKeys[0])
    + PhaseBlock(OverduePapers(papers, fileDate, OverdueKeys[1]), OverdueKeys[1])
  }

  /** Python's str() of an optional string: the text, or "None". */
  function ShowOption(o: Option<string>): string {
    match o
    case Some(s) => s
    case None => "None"
  }

  /** The heading printed before a phase's listed papers. */
  function HeadingText(k: Key): (r: string)
    ensures |r| > 2 && r[0] == 'I'
    ensures |r| >= 23 + |KeyName(k)| && r[23..23 + |KeyName(k)|] == KeyName(k)
  {
    var r := "Insufficient number of " + KeyName(k) + " reviews:";
    assert r[23..23 + |KeyName(k)|] == KeyName(k);
    r
  }

  /** The line printed for one listed paper: two spaces, the count in decimal, " < 2  ", then number and editor. */
  function EntryText(count: nat, number: Option<string>, ae: Option<string>): (r: string)
    ensures var head := "  " + NatToString(count) + " < 2  ";
            && |head| <= |r| && r[..|head|] == head
            && r[|head|..] == ShowOption(number) + " \t" + ShowOption(ae)
  {
    var head := "  " + NatToString(count) + " < 2  ";
    var tail := ShowOption(number) + " \t" + ShowOption(ae);
    assert (head + tail)[..|head|] == head;
    assert (head + tail)[|head|..] == tail;
    head + tail
  }

  /**
   * The text print() writes for a line. A heading starts with a letter and an entry with
   * two spaces, then the count in decimal and " < 2  ".
   */
  function Render(l: Line): (r: string)
    ensures |r| > 2 && (r[0] == ' ' <==> l.Entry?)
    ensures l.Entry? ==> var head := "  " + NatToString(l.count) + " < 2  ";
                        |head| <= |r| && r[..|head|] == head
  {
    match l
    case Heading(k) => HeadingText(k)
    case Entry(count, number, ae) =>
      var r := EntryText(count, number, ae);
      assert r[0] == r[..3][0] == ' ';
      r
  }

  /** The printed text, one string per line. */
  function OverdueText(papers: seq<Paper>, fileDate: Date): (r: seq<string>)
    ensures |r| == |OverdueReport(papers, fileDate)|
    ensures forall i :: 0 <= i < |r| ==> r[i] == Render(OverdueReport(papers, fileDate)[i])
  {
    var lines := OverdueReport(papers, fileDate);
    seq(|lines|, i requires 0 <= i < |lines| => Render(lines[i]))
  }

  /**
   * Before the confirmation deadline nothing is printed; between the two deadlines only
   * the confirmed block can appear.
   */
  lemma ReportFollowsDeadlines(papers: seq<Paper>, fileDate: Date)
    ensures !DeadlinePassed(fileDate, ReviewersConfirmed) ==> OverdueReport(papers, fileDate) == []
    ensures !DeadlinePassed(fileDate, ReviewsSubmitted) ==>
              OverdueReport(papers, fileDate) == PhaseBlock(OverduePapers(papers, fileDate, Confirmed), Confirmed)
  {
    DeadlinesAscend();
    if !DeadlinePassed(fileDate, ReviewsSubmitted) {
      var c := PhaseBlock(OverduePapers(papers, fileDate, Confirmed), Confirmed);
      assert PhaseBlock(OverduePapers(papers, fileDate, Submitted), Submitted) == [];
      assert OverdueReport(papers, fileDate) == c + [];
    }
  }

  /** A paper with one confirmed reviewer is overdue the day after the confirmation deadline, not the day before. */
  lemma ConfirmationDeadlineExample(p: Paper)
    requires p.reviews.confirmed == 1
    ensures p in OverduePapers([p], Date(2022, 3, 21), Confirmed)
    ensures OverduePapers([p], Date(2022, 3, 19), Confirmed) == []
  {
  }
}
