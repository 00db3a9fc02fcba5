/**
 * The Paper record and its extraction from one HTML fragment: four review counts read
 * after their colour-coded markers, the paper number, and the report status.
 */
module Records {
  import opened Wrappers
  import opened Text

  /** The keys of a paper's review-count dictionary, in insertion order. */
  datatype Key = Requested | Canceled | Confirmed | Submitted

  const KeyOrder: seq<Key> := [Requested, Canceled, Confirmed, Submitted]

  /** Position of a key in KeyOrder: the order in which the parser reads the counts. */
  function Rank(k: Key): (i: nat)
    ensures i < |KeyOrder| && KeyOrder[i] == k
  {
    match k
    case Requested => 0
    case Canceled => 1
    case Confirmed => 2
    case Submitted => 3
  }

  datatype Counts = Counts(requested: nat, canceled: nat, confirmed: nat, submitted: nat) {
    /** n_reviews[k] */
    function Get(k: Key): nat {
      match k
      case Requested => requested
      case Canceled => canceled
      case Confirmed => confirmed
      case Submitted => submitted
    }
  }

  /** One submission: number and editor may be absent; the counts are already adjusted. */
  datatype Paper = Paper(number: Option<string>, ae: Option<string>, reviews: Counts, report: bool)

  /** A submitted review also counts as a confirmed one: confirmed += submitted. */
  function Adjusted(c: Counts): Counts {
    c.(confirmed := c.confirmed + c.submitted)
  }

  /** The Paper constructor on values: the counts it is given, adjusted once. */
  function MakePaper(number: Option<string>, ae: Option<string>, raw: Counts, report: bool): (p: Paper)
    ensures p.reviews.confirmed == raw.confirmed + raw.submitted
    ensures forall k :: k != Confirmed ==> p.reviews.Get(k) == raw.Get(k)
    ensures p.number == number && p.ae == ae && p.report == report
  {
    Paper(number, ae, Adjusted(raw), report)
  }

  /** Every constructed paper has at least as many confirmed as submitted reviews. */
  predicate IsAdjusted(p: Paper) {
    p.reviews.confirmed >= p.reviews.submitted
  }

  lemma MadePapersAreAdjusted(number: Option<string>, ae: Option<string>, raw: Counts, report: bool)
    ensures IsAdjusted(MakePaper(number, ae, raw, report))
    ensures MakePaper(number, ae, raw, report).reviews.confirmed - raw.confirmed
            == MakePaper(number, ae, raw, report).reviews.submitted
  {
  }

  /** The mutable n_reviews dictionary built by the parser and handed to the constructor. */
  class ReviewTally {
    var requested: nat
    var canceled: nat
    var confirmed: nat
    var submitted: nat

    function Value(): Counts
      reads this
    {
      Counts(requested, canceled, confirmed, submitted)
    }

    constructor (requested: nat, canceled: nat, confirmed: nat, submitted: nat)
      ensures Value() == Counts(requested, canceled, confirmed, submitted)
    {
      this.requested := requested;
      this.canceled := canceled;
      this.confirmed := confirmed;
      this.submitted := submitted;
    }
  }

  /**
   * Paper.__init__: keeps the caller's dictionary and adds `submitted` into its
   * `confirmed` entry in place; the other entries are untouched.
   */
  method NewPaper(number: Option<string>, ae: Option<string>, tally: ReviewTally, report: bool)
    returns (p: Paper)
    modifies tally
    ensures tally.confirmed == old(tally.confirmed) + old(tally.submitted)
    ensures tally.requested == old(tally.requested) && tally.canceled == old(tally.canceled)
    ensures tally.submitted == old(tally.submitted)
    ensures p == MakePaper(number, ae, old(tally.Value()), report)
    ensures p.reviews == tally.Value()
  {
    tally.confirmed := tally.confirmed + tally.submitted;
    p := Paper(number, ae, tally.Value(), report);
  }

  // ----- markers -----

  const NumberPrefix := "<td class=\"c\">"
  const NumberSuffix := "&nbsp;</td>"
  const RequestedMarker := "<font color=\"#0000FF\">"
  const CanceledMarker := "<font color=\"#FF0000\">"
  const ConfirmedMarker := "green\">"
  const ConfirmedSuffix := "</span"
  const SubmittedMarker := "</font>/"
  const UnderReview := "Under review"
  const DecisionPending := "Decision pending"

  /** The text before a count's digits. */
  function MarkerOf(k: Key): string {
    match k
    case Requested => RequestedMarker
    case Canceled => CanceledMarker
    case Confirmed => ConfirmedMarker
    case Submitted => SubmittedMarker
  }

  /** The text that must follow a count's digits. */
  function SuffixOf(k: Key): string {
    if k == Confirmed then ConfirmedSuffix else ""
  }

  /** int(parse_field(fragment, marker + r"(\d+)" + suffix)), or None where int(None) would raise. */
  function CountField(s: string, k: Key): Option<nat> {
    match SearchField(s, MarkerOf(k), SuffixOf(k))
    case None => None
    case Some(ds) => Some(DecimalValue(ds))
  }

  /**
   * Each count is the value of the digit run after the leftmost occurrence of its marker
   * that is immediately followed by a digit (and, for `confirmed`, by "</span" after the
   * run); it is missing exactly when no such occurrence exists.
   */
  lemma CountFieldLeftmost(s: string, k: Key)
    ensures CountField(s, k).None? <==> forall p :: !FieldAt(s, MarkerOf(k), SuffixOf(k), p)
    ensures CountField(s, k).Some? ==>
      exists p :: FieldAt(s, MarkerOf(k), SuffixOf(k), p)
                  && (forall q :: q < p ==> !FieldAt(s, MarkerOf(k), SuffixOf(k), q))
                  && CountField(s, k).value == DecimalValue(GroupAt(s, MarkerOf(k), SuffixOf(k), p))
  {
  }

  /** The paper number: the digits of the leftmost <td class="c">DIGITS&nbsp;</td>, kept as text. */
  function PaperNumber(s: string): (r: Option<string>)
    ensures r.Some? ==> r.value != [] && AllDigits(r.value)
  {
    SearchField(s, NumberPrefix, NumberSuffix)
  }

  /** Leftmost position at or after `from` where either status phrase starts. */
  function FirstStatusFrom(s: string, from: nat): (r: Option<nat>)
    ensures r.Some? ==> from <= r.value && (OccursAt(s, UnderReview, r.value) || OccursAt(s, DecisionPending, r.value))
    ensures r.Some? ==> forall q :: from <= q < r.value ==> !OccursAt(s, UnderReview, q) && !OccursAt(s, DecisionPending, q)
    ensures r.None? ==> forall q :: from <= q ==> !OccursAt(s, UnderReview, q) && !OccursAt(s, DecisionPending, q)
    decreases |s| + 1 - from
  {
    if from > |s| then None
    else if OccursAt(s, UnderReview, from) || OccursAt(s, DecisionPending, from) then Some(from)
    else FirstStatusFrom(s, from + 1)
  }

  /**
   * The report flag: the leftmost match of "(?:Under review)|(?:Decision pending)" is the
   * second phrase; False when neither occurs.
   */
  function ReportFlag(s: string): bool {
    match FirstStatusFrom(s, 0)
    case None => false
    case Some(p) => OccursAt(s, DecisionPending, p)
  }

  /** The report is filed exactly when "Decision pending" occurs with no "Under review" at or before it. */
  lemma ReportFlagIff(s: string)
    ensures ReportFlag(s) <==> exists p :: OccursAt(s, DecisionPending, p)
                                           && forall q :: q <= p ==> !OccursAt(s, UnderReview, q)
  {
    match FirstStatusFrom(s, 0)
    case None =>
    case Some(p) =>
      if OccursAt(s, DecisionPending, p) {
        // The two phrases start with different letters, so at most one starts at p.
        assert s[p] == s[p..p + |DecisionPending|][0] == 'D';
      } else {
        assert OccursAt(s, UnderReview, p);
        forall p' | OccursAt(s, DecisionPending, p')
          ensures exists q :: q <= p' && OccursAt(s, UnderReview, q)
        {
          assert p <= p';
        }
      }
  }

  /** Why a fragment cannot become a Paper: a count whose pattern does not match. */
  datatype ParseError = MissingField(key: Key)

  /** All four count patterns match. */
  predicate AllCountsPresent(s: string) {
    CountField(s, Requested).Some? && CountField(s, Canceled).Some?
    && CountField(s, Confirmed).Some? && CountField(s, Submitted).Some?
  }

  /** The four counts, or the first key (in the order the parser reads them) that is missing. */
  function ExtractCounts(s: string): (r: Result<Counts, ParseError>)
    ensures r.Ok? <==> AllCountsPresent(s)
    ensures r.Ok? ==> r.value == Counts(CountField(s, Requested).value, CountField(s, Canceled).value,
                                        CountField(s, Confirmed).value, CountField(s, Submitted).value)
    ensures r.Err? ==> CountField(s, r.error.key).None?
    ensures r.Err? ==> forall k :: Rank(k) < Rank(r.error.key) ==> CountField(s, k).Some?
  {
    var rq := CountField(s, Requested);
    var cn := CountField(s, Canceled);
    var cf := CountField(s, Confirmed);
    var sb := CountField(s, Submitted);
    if rq.None? then Err(MissingField(Requested))
    else if cn.None? then Err(MissingField(Canceled))
    else if cf.None? then Err(MissingField(Confirmed))
    else if sb.None? then Err(MissingField(Submitted))
    else Ok(Counts(rq.value, cn.value, cf.value, sb.value))
  }

  /**
   * Paper.parse_paper on values. The editor name is supplied by the caller; its pattern
   * is not modelled.
   */
  function ParsePaperSpec(s: string, editor: Option<string>): (r: Result<Paper, ParseError>)
    ensures r.Ok? <==> AllCountsPresent(s)
    ensures r.Ok? ==> r.value.reviews.confirmed == CountField(s, Confirmed).value + CountField(s, Submitted).value
    ensures r.Ok? ==> forall k :: k != Confirmed ==> r.value.reviews.Get(k) == CountField(s, k).value
    ensures r.Ok? ==> IsAdjusted(r.value)
    ensures r.Ok? ==> r.value.number == PaperNumber(s) && r.value.ae == editor && r.value.report == ReportFlag(s)
    ensures r.Err? ==> CountField(s, r.error.key).None?
  {
    match ExtractCounts(s)
    case Err(e) => Err(e)
    case Ok(raw) => Ok(MakePaper(PaperNumber(s), editor, raw, ReportFlag(s)))
  }

  /** Paper.parse_paper: reads each field, builds the dictionary and calls the constructor. */
  method ParsePaper(s: string, editor: Option<string>) returns (r: Result<Paper, ParseError>)
    ensures r == ParsePaperSpec(s, editor)
  {
    var number := PaperNumber(s);
    var requested := CountField(s, Requested);
    if requested.None? { return Err(MissingField(Requested)); }
    var canceled := CountField(s, Canceled);
    if canceled.None? { return Err(MissingField(Canceled)); }
    var confirmed := CountField(s, Confirmed);
    if confirmed.None? { return Err(MissingField(Confirmed)); }
    var submitted := CountField(s, Submitted);
    if submitted.None? { return Err(MissingField(Submitted)); }
    var report := ReportFlag(s);
    var tally := new ReviewTally(requested.value, canceled.value, confirmed.value, submitted.value);
    var p := NewPaper(number, editor, tally, report);
    r := Ok(p);
  }
}
