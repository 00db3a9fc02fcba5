# papercept_plots in Dafny

A model of the extraction-and-summary pipeline of `papercept_plot.py`, which reads saved
HTML snapshots of the PaperCept review portal and reports on review progress:

- **Scanner** (`scanner.dfy`): the `parse_papers` loop. It is a two-state machine over
  already-decoded lines. A line with `<td class="cg">` resets the accumulator to a single
  space. A line with `</tr>` closes an open fragment and parses it. Other lines are
  appended while a fragment is open and dropped otherwise. The method is proved equal
  to a pure specification (`StateAfter`, `Fragments`, `ParseAll`), which is then
  characterised declaratively.
- **Records** (`records.dfy`): `Paper.parse_paper` and `Paper.__init__`. Each count is
  the digit run after the leftmost occurrence of its marker that is followed by a digit.
  The paper number is kept as text. The report flag is true when the leftmost status
  phrase is "Decision pending". The constructor adds `submitted` into `confirmed` in the
  caller's dictionary; that dictionary is modelled by the class `ReviewTally`.
- **Dates** (`dates.dfy`): `parse_date` takes the first `\d{4}-\d{2}-\d{2}` substring and
  checks that it is a calendar date. The module also holds the 2022 deadline table, the
  strict `>` comparisons and the day differences, which use a `toordinal`-style day number.
- **Aggregate** (`aggregate.dfy`): the numbers `plot_papers` draws. These are the
  per-key totals, the numpy histograms over the edges −0.5…4.5, the report split, the
  red/blue colour flags and the wedge labels of `my_pie`.
- **Overdue** (`overdue.dfy`): `print_overdue_papers`. It selects the papers and builds
  the lines it prints.

Points of the code that are easy to misread:
- The histogram's last bin counts only the value 4, and larger counts fall outside every
  bin. The comment and the six colours at papercept_plot.py:241-242 suggest a "5 or
  more" bucket, but numpy's bins over the edges −0.5…4.5 give none.
- The accumulator starts as `" "` (papercept_plot.py:104), not as the empty string, so
  every fragment begins with a space.
- The three report counts are not a partition (see Findings).
- A fragment with a missing count fails because `int(None)` raises. This is modelled as
  `MissingField` naming the first missing key, in the order requested, canceled,
  confirmed, submitted.

## Model

| member | source | states |
|---|---|---|
| Text.DigitRun | papercept_plot.py:74-77 | the greedy `\d+` run: every character in it is a digit and the next one is not |
| Text.FirstFieldFrom | papercept_plot.py:60-62 | `re.search` finds the leftmost position where marker, digits and suffix match; it finds none only when no position matches |
| Text.SearchField | papercept_plot.py:60-62 | `parse_field` is None exactly when the pattern matches nowhere; otherwise it is the digit group of the leftmost match |
| Text.ContainsIff | papercept_plot.py:102-106 | `lit in line` holds exactly when lit occurs at some position of the line |
| Text.NatToString | papercept_plot.py:312 | str() of a count gives a non-empty digit string that int() reads back as the same count, with no leading zero unless the count is 0 |
| Records.CountField | papercept_plot.py:74-77 | int(parse_field(...)) for one key; its meaning is stated by `CountFieldLeftmost` |
| Records.PaperNumber | papercept_plot.py:64 | the paper number, when found, is a non-empty string of digits, kept as text |
| Records.ReportFlag | papercept_plot.py:80-82 | the report flag; its meaning is stated by `ReportFlagIff` |
| Records.CountFieldLeftmost | papercept_plot.py:74-77 | each count is the value of the digit run after the leftmost marker occurrence followed by a digit; it is missing exactly when there is no such occurrence |
| Records.ReportFlagIff | papercept_plot.py:80-82 | report is true iff "Decision pending" occurs with no "Under review" at or before it; it is false when neither phrase occurs |
| Records.FirstStatusFrom | papercept_plot.py:80-81 | the alternation's match is at the leftmost position where either phrase starts |
| Records.ExtractCounts | papercept_plot.py:73-78 | all four counts are read iff all four patterns match; otherwise the error names a missing key, and every key read before it is present |
| Records.MakePaper | papercept_plot.py:32-48 | the constructed paper's confirmed count is the raw confirmed plus submitted; requested, canceled and submitted are unchanged |
| Records.NewPaper | papercept_plot.py:42-48 | `Paper.__init__` adds submitted into the caller's confirmed entry in place and leaves the other entries unchanged; the paper holds the adjusted counts |
| Records.MadePapersAreAdjusted | papercept_plot.py:45-47 | every constructed paper has at least as many confirmed as submitted reviews |
| Records.ParsePaperSpec | papercept_plot.py:50-84 | a Paper is produced iff all four counts match; its counts are the matched values with confirmed adjusted; its number is the leftmost number cell (None if absent) and its report flag is as above |
| Records.ParsePaper | papercept_plot.py:50-84 | the parsing method (dictionary, constructor call, error on a missing count) returns exactly what `ParsePaperSpec` states |
| Scanner.ParsePapers | papercept_plot.py:95-116 | the scanning loop returns the papers parsed from the fragments in order, or the error of the first fragment that fails |
| Scanner.ParseAll | papercept_plot.py:106-109 | parsing succeeds iff every fragment parses; then there is one paper per fragment, in order; otherwise the error comes from the first failing fragment |
| Scanner.Step | papercept_plot.py:102-114 | the state becomes None iff the line is not a start line and either nothing was open or an end marker closes an open fragment; while no start marker intervenes, the accumulated text only grows |
| Scanner.ParseAllErrSticks | papercept_plot.py:108 | once a fragment has raised, later fragments change nothing |
| Scanner.FragmentsAppend | papercept_plot.py:100-116 | scanning more lines only adds fragments after those already found |
| Scanner.StateAfterSpec | papercept_plot.py:96-114 | a fragment is open iff some start line has not been followed by any marker line; it then holds " " followed by every line after that start line |
| Scanner.ClosingLine | papercept_plot.py:102-110 | an end-marker line meeting an open fragment emits " " followed by the lines strictly between the latest start line and itself; a repeated start marker discards what came before it |
| Scanner.QuietLine | papercept_plot.py:100-116 | a start line, a line without `</tr>`, or a `</tr>` with no open fragment emits nothing |
| Scanner.FragmentCount | papercept_plot.py:100-116 | there is one fragment per line that closes an open fragment; dangling end markers and an unclosed last fragment yield nothing |
| Scanner.PaperCount | papercept_plot.py:106-109 | when parsing succeeds, there is exactly one paper per closing line |
| Dates.ParseDate | papercept_plot.py:119-127 | the result is the first `DDDD-DD-DD` substring read as a valid date; NotFound iff there is no such substring; InvalidDate otherwise |
| Dates.FormatParseRoundTrip | papercept_plot.py:125-126 | a name whose first digit starts an ISO-formatted valid date gives back exactly that date |
| Dates.OrdinalOrder | papercept_plot.py:175-186 | Python's date comparison and the day numbers used for differences order dates the same way, and are equal together |
| Dates.Deadline | papercept_plot.py:13-20 | every entry of the deadline table is a valid date of the 2022 cycle |
| Dates.DayOffset | papercept_plot.py:186-188 | the title's day count is positive iff the start deadline has passed, and zero iff the snapshot is the start date |
| Dates.DaysBetween | papercept_plot.py:186 | `(a - b).days` is positive iff a is after b, zero iff they are the same date, negative iff a is before b |
| Dates.DeadlinePassed | papercept_plot.py:175 | `file_date > deadline` holds iff the snapshot is neither before nor on the deadline day; the same test picks red over blue at lines 238, 260 and 283-284 and gates each block at line 304 |
| Aggregate.BarData | papercept_plot.py:204-210 | an empty paper list raises; otherwise the bars are the totals of requested, canceled and confirmed, in that order |
| Aggregate.SumOf | papercept_plot.py:207 | the total over the papers of one key is at least each paper's own count |
| Aggregate.SumOfAppend | papercept_plot.py:207 | totals add up over consecutive runs of papers |
| Aggregate.ConfirmedTotalCoversSubmitted | papercept_plot.py:207 | because of the constructor's adjustment, the confirmed total is at least the submitted total |
| Aggregate.HistogramBin | papercept_plot.py:225-236 | with numpy's bin rule and the edges −0.5…4.5, bin i counts exactly the values equal to i |
| Aggregate.Histogram | papercept_plot.py:236 | `np.histogram` over n+1 edges gives n bins, one count per bin; bin i is stated by `HistogramBin`; line 258 is the same call on the submitted counts |
| Aggregate.HistogramTotal | papercept_plot.py:225-258 | the bins sum to the number of papers less those with a count above 4; equality holds iff no count exceeds 4 |
| Aggregate.HistogramDropsAboveFour | papercept_plot.py:225-236 | the counts 0 to 6 give one paper per bin, and 5 and 6 are not counted |
| Aggregate.CountInsufficient | papercept_plot.py:269-271 | the loop counts the papers with fewer than two submitted reviews |
| Aggregate.ReportSplit | papercept_plot.py:269-274 | the report data as written sums to the number of papers; its first entry is the insufficient count and its last is the report count |
| Aggregate.CountReports | papercept_plot.py:272 | `n_reports` is at most the number of papers, and zero iff no paper has a report |
| Aggregate.ComputeReportSplit | papercept_plot.py:269-274 | the loop and the sum together give the report data as written |
| Aggregate.SufficientCount | papercept_plot.py:273 | n_sufficient equals the papers with enough reviews and no report minus the papers counted both as insufficient and as reported; it is negative exactly when the second count is larger |
| Aggregate.NegativeSufficientExample | papercept_plot.py:273 | one paper with a single submitted review and "Decision pending" gives the data [1, -1, 1] |
| Aggregate.ReportClasses | papercept_plot.py:267-274 | corrected split: every paper falls in exactly one of insufficient / sufficient without report / report done (each count is the number of papers `Classify` puts in that class), so the counts are non-negative and sum to the number of papers |
| Aggregate.SplitsAgree | papercept_plot.py:269-274 | the split as written equals the corrected one iff no paper is both insufficient and reported |
| Aggregate.DefaultLabels | papercept_plot.py:141-143 | with no labels given, wedge i is labelled str(i) |
| Aggregate.PieLabelShown | papercept_plot.py:141-149 | a wedge is labelled iff its count is positive and its label is not empty; the label then ends with the count in parentheses on its own line |
| Aggregate.PieLabels | papercept_plot.py:141-149 | my_pie gives one label per wedge; which labels are shown and their text is stated by `PieLabelShown` |
| Aggregate.ReportLabels | papercept_plot.py:277-281 | a report label is kept iff its count is positive, and a kept label is the source's own text for that wedge |
| Aggregate.PlotNumbers | papercept_plot.py:172-291 | an empty list raises; otherwise the title's day offset, the bar totals, the confirmed histogram with its red/blue flag and labels, and (iff the submission deadline has passed) the submitted histogram, the report data exactly as the code computes it (insufficient count, pending minus overlap, report count) and its wedge labels, with the flags for the submission and report deadlines |
| Aggregate.PlotNumbersMatchClasses | papercept_plot.py:269-274 | the report data drawn equals the intended three-way classification iff no paper is both insufficient and reported |
| Aggregate.NegativeWedgeData | papercept_plot.py:269-287 | for one paper with one submitted review and a report, on 2022-04-21, the sizes handed to `ax.pie` are [1, -1, 1] and the report wedge's label is "AE Report\ndone\n(1)" |
| Overdue.LowCount | papercept_plot.py:306 | a paper is listed iff it is in the list and its count is below 2 |
| Overdue.LowCountAppend | papercept_plot.py:306 | the comprehension keeps input order: listing a + b lists a's papers, then b's |
| Overdue.LowCountSingle | papercept_plot.py:306 | one paper is listed iff its count is below 2 |
| Overdue.LowCountSize | papercept_plot.py:306 | as many papers are listed as have a count below 2; for `submitted` this is n_insufficient |
| Overdue.OverduePapers | papercept_plot.py:301-306 | a paper is overdue for a phase iff that phase's deadline has strictly passed and its adjusted count for the phase is below 2 |
| Overdue.PhaseBlock | papercept_plot.py:308-312 | nothing is printed when no paper is listed; otherwise a heading and then one line per listed paper, in order |
| Overdue.OverdueReport | papercept_plot.py:301-312 | the printed lines are exactly the confirmed block followed by the submitted block: one heading per phase with listed papers plus one line per listed paper |
| Overdue.HeadingText | papercept_plot.py:309 | the heading starts with the letter "I", so no heading is mistaken for an entry, and names the phase's dictionary key at position 23 |
| Overdue.EntryText | papercept_plot.py:312 | an entry is two spaces, the count as str() prints it and " < 2  ", followed by the number, a space and a tab, and the editor |
| Overdue.ShowOption | papercept_plot.py:312 | str() of a missing number or editor prints "None"; a present one prints as itself |
| Overdue.Render | papercept_plot.py:309-312 | a printed line starts with a space iff it is an entry, and an entry begins with two spaces, the count in decimal and " < 2  " |
| Overdue.OverdueText | papercept_plot.py:301-312 | the printed text has one string per report line, each that line rendered |
| Overdue.ReportFollowsDeadlines | papercept_plot.py:301-304 | nothing is printed before the confirmation deadline, and only the confirmed block before the submission deadline |
| Overdue.ConfirmationDeadlineExample | papercept_plot.py:301-306 | a paper with one confirmed reviewer is overdue on 2022-03-21 but not on 2022-03-19 |

## Left out

- Reading the file with `codecs.open` and ISO-8859-1 decoding: the scanner takes the decoded lines as a sequence of strings.
- The editor-name pattern `<td>.*? (.*?) \(\d+\)&nbsp;</td>` relies on lazy matching and on `.` excluding newlines. It is not modelled: the editor is supplied by a caller-given function `editorOf` (for `ParsePapers`) or a parameter (for `ParsePaper`).
- Text.DigitRun: `\d` is taken to mean the ASCII digits 0-9. Python also matches other Unicode decimal digits; none of them can occur in ISO-8859-1 text, but a file name could contain them.
- Dates.ParseDate: the general date parser is replaced by a check that the year is 1 to 9999 and that the month and day exist. These are the ISO tokens the parser accepts.
- Records.NewPaper: the paper keeps a value copy of the counts rather than a reference to the caller's dictionary. Nothing writes to the dictionary after construction, so the two cannot be told apart.
- All matplotlib rendering: figures, bars, pies, titles, saving and showing. Only the numbers and labels passed to them are modelled.
- The colour tables and palette indexing: only the red/blue decision is kept, as a boolean.
- Directory globbing, argument parsing, path checks, skip/overwrite logic and the `plot%02d.png` name. Only the day offset that the name uses is modelled (`Dates.DayOffset`).
- Printing: `print_overdue_papers` is modelled as the sequence of lines it prints (`Overdue.OverdueReport`), each rendered to its text by `Overdue.Render`.

## Findings

| source | as written | input that shows it | evidently intended | confidence | as-written member | corrected member |
|---|---|---|---|---|---|---|
| papercept_plot.py:269-274 | `n_sufficient = n_papers - n_insufficient - n_reports` counts a paper that has a report but fewer than two submitted reviews twice, so the "sufficient" size handed to `ax.pie` at line 287 can be negative. The visible effect is then most likely an exception from the plotting library, which rejects negative wedge sizes, rather than a drawn wedge. Nothing catches it, so the run stops at that snapshot | one paper with submitted = 1 whose status is "Decision pending": the data is [1, -1, 1] | each paper falls in exactly one of insufficient reviews / sufficient reviews without report / report done, so the wedges are non-negative and sum to the number of papers | medium, not executed | Aggregate.NegativeWedgeData | Aggregate.ReportClasses |
