/**
 * The line scanner of parse_papers: a two-state machine that cuts a document into
 * per-paper fragments and parses each one as soon as it is closed.
 */
module Scanner {
  import opened Wrappers
  import opened Text
  import opened Records

  const StartMarker := "<td class=\"cg\">"
  const EndMarker := "</tr>"

  predicate IsStart(line: string) { Contains(line, StartMarker) }
  predicate IsEnd(line: string) { Contains(line, EndMarker) }

  /** Python truthiness of cur_paper_string: neither None nor the empty string. */
  predicate Truthy(cur: Option<string>) { cur.Some? && cur.value != "" }

  /** The concatenation of a run of lines. */
  function Concat(lines: seq<string>): string {
    if lines == [] then "" else Concat(lines[..|lines| - 1]) + lines[|lines| - 1]
  }

  /**
   * One line's effect on the state: a start marker (tested first) resets the
   * accumulator to a single space; an end marker while a fragment is open closes it;
   * any other line is appended while a fragment is open and dropped otherwise.
   */
  function Step(cur: Option<string>, line: string): (r: Option<string>)
    ensures r.None? <==> !IsStart(line) && (cur.None? || (IsEnd(line) && Truthy(cur)))
    ensures r.Some? && !IsStart(line) ==> cur.Some? && cur.value <= r.value
  {
    if IsStart(line) then Some(" ")
    else if IsEnd(line) && Truthy(cur) then None
    else if Truthy(cur) then Some(cur.value + line)
    else cur
  }

  /** The fragment a line closes, if it closes one. */
  function Closed(cur: Option<string>, line: string): seq<string> {
    if !IsStart(line) && IsEnd(line) && Truthy(cur) then [cur.value] else []
  }

  /** The scanner's state after a run of lines, starting from None. */
  function StateAfter(lines: seq<string>): Option<string> {
    if lines == [] then None else Step(StateAfter(lines[..|lines| - 1]), lines[|lines| - 1])
  }

  /** The fragments handed to the parser, in order, while scanning a run of lines. */
  function Fragments(lines: seq<string>): seq<string> {
    if lines == [] then []
    else
      var init := lines[..|lines| - 1];
      Fragments(init) + Closed(StateAfter(init), lines[|lines| - 1])
  }

  /** The parser applied to each fragment: Paper.parse_paper with the editor supplied by editorOf. */
  function FragmentParser(editorOf: string -> Option<string>): string -> Result<Paper, ParseError> {
    f => ParsePaperSpec(f, editorOf(f))
  }

  /** Parse each fragment in turn; the first fragment that fails stops everything. */
  function ParseAll(frags: seq<string>, parse: string -> Result<Paper, ParseError>): (r: Result<seq<Paper>, ParseError>)
    ensures r.Ok? <==> forall i :: 0 <= i < |frags| ==> parse(frags[i]).Ok?
    ensures r.Ok? ==> |r.value| == |frags|
    ensures r.Ok? ==> forall i :: 0 <= i < |frags| ==> r.value[i] == parse(frags[i]).value
    ensures r.Err? ==> exists i :: 0 <= i < |frags| && parse(frags[i]) == Err(r.error)
                                   && forall j :: 0 <= j < i ==> parse(frags[j]).Ok?
  {
    if frags == [] then Ok([])
    else
      var init := frags[..|frags| - 1];
      var last := frags[|frags| - 1];
      match ParseAll(init, parse)
      case Err(e) => Err(e)
      case Ok(papers) =>
        match parse(last)
        case Err(e) => Err(e)
        case Ok(p) => Ok(papers + [p])
  }

  /** Once parsing has failed, later fragments change nothing. */
  lemma {:induction false} ParseAllErrSticks(a: seq<string>, b: seq<string>, parse: string -> Result<Paper, ParseError>)
    requires ParseAll(a, parse).Err?
    ensures ParseAll(a + b, parse) == ParseAll(a, parse)
    decreases |b|
  {
    if b == [] {
      assert a + b == a;
    } else {
      var b' := b[..|b| - 1];
      assert (a + b)[..|a + b| - 1] == a + b';
      ParseAllErrSticks(a, b', parse);
    }
  }

  /**
   * A line that closes a fragment while every earlier fragment parsed: the paper is
   * appended, or the scan ends with that fragment's error.
   */
  lemma CloseStep(lines: seq<string>, i: int, papers: seq<Paper>, parse: string -> Result<Paper, ParseError>)
    requires 0 <= i < |lines|
    requires ParseAll(Fragments(lines[..i]), parse) == Ok(papers)
    requires StateAfter(lines[..i]).Some?
    requires Closed(StateAfter(lines[..i]), lines[i]) == [StateAfter(lines[..i]).value]
    ensures parse(StateAfter(lines[..i]).value).Ok? ==>
      ParseAll(Fragments(lines[..i + 1]), parse) == Ok(papers + [parse(StateAfter(lines[..i]).value).value])
    ensures parse(StateAfter(lines[..i]).value).Err? ==>
      ParseAll(Fragments(lines), parse) == Err(parse(StateAfter(lines[..i]).value).error)
  {
    var a := Fragments(lines[..i]);
    var f := StateAfter(lines[..i]).value;
    ScanStep(lines, i);
    assert Fragments(lines[..i + 1]) == a + [f];
    assert (a + [f])[..|a|] == a;
    if parse(f).Err? {
      ScanStopsAtError(lines, i, parse);
    }
  }

  /** One more line: the state machine steps and the fragment it closes, if any, is appended. */
  lemma ScanStep(lines: seq<string>, i: int)
    requires 0 <= i < |lines|
    ensures StateAfter(lines[..i + 1]) == Step(StateAfter(lines[..i]), lines[i])
    ensures Fragments(lines[..i + 1]) == Fragments(lines[..i]) + Closed(StateAfter(lines[..i]), lines[i])
    ensures Closed(StateAfter(lines[..i]), lines[i]) == [] ==> Fragments(lines[..i + 1]) == Fragments(lines[..i])
  {
    assert lines[..i + 1][..i] == lines[..i];
    assert Fragments(lines[..i]) + [] == Fragments(lines[..i]);
  }

  /** A fragment that fails to parse ends the scan with its error. */
  lemma ScanStopsAtError(lines: seq<string>, i: int, parse: string -> Result<Paper, ParseError>)
    requires 0 <= i < |lines|
    requires ParseAll(Fragments(lines[..i + 1]), parse).Err?
    ensures ParseAll(Fragments(lines), parse) == ParseAll(Fragments(lines[..i + 1]), parse)
  {
    var done := Fragments(lines[..i + 1]);
    var all := Fragments(lines);
    PrefixFragments(lines, i + 1);
    SplitAt(all, |done|);
    ParseAllErrSticks(done, all[|done|..], parse);
  }

  lemma SplitAt(s: seq<string>, n: int)
    requires 0 <= n <= |s|
    ensures s == s[..n] + s[n..]
  {
  }

  /** The fragments of a prefix of the lines are a prefix of the fragments. */
  lemma PrefixFragments(lines: seq<string>, n: int)
    requires 0 <= n <= |lines|
    ensures |Fragments(lines[..n])| <= |Fragments(lines)|
    ensures Fragments(lines)[..|Fragments(lines[..n])|] == Fragments(lines[..n])
  {
    assert lines == lines[..n] + lines[n..];
    FragmentsAppend(lines[..n], lines[n..]);
  }

  /**
   * parse_papers over already-decoded lines: the papers of the closed fragments, or the
   * error of the first fragment that fails to parse. editorOf stands for the editor-name
   * pattern, which is not modelled.
   */
  method ParsePapers(lines: seq<string>, editorOf: string -> Option<string>)
    returns (r: Result<seq<Paper>, ParseError>)
    ensures r == ParseAll(Fragments(lines), FragmentParser(editorOf))
  {
    ghost var parse := FragmentParser(editorOf);
    var papers: seq<Paper> := [];
    var cur: Option<string> := None;
    var i := 0;
    while i < |lines|
      invariant 0 <= i <= |lines|
      invariant cur == StateAfter(lines[..i])
      invariant ParseAll(Fragments(lines[..i]), parse) == Ok(papers)
    {
      var line := lines[i];
      ScanStep(lines, i);
      if Contains(line, StartMarker) {
        cur := Some(" ");
      } else if Contains(line, EndMarker) && Truthy(cur) {
        var paper := ParsePaper(cur.value, editorOf(cur.value));
        assert paper == parse(cur.value);
        CloseStep(lines, i, papers, parse);
        if paper.Err? {
          return Err(paper.error);
        }
        papers := papers + [paper.value];
        cur := None;
      } else if Truthy(cur) {
        cur := Some(cur.value + line);
      }
      i := i + 1;
    }
    assert lines[..|lines|] == lines;
    r := Ok(papers);
  }

  /** Scanning more lines only adds fragments after those already found. */
  lemma {:induction false} FragmentsAppend(a: seq<string>, b: seq<string>)
    ensures |Fragments(a)| <= |Fragments(a + b)|
    ensures Fragments(a + b)[..|Fragments(a)|] == Fragments(a)
    decreases |b|
  {
    if b == [] {
      assert a + b == a;
    } else {
      var b' := b[..|b| - 1];
      assert (a + b)[..|a + b| - 1] == a + b';
      FragmentsAppend(a, b');
    }
  }

  // ----- a declarative reading of the state machine -----

  /**
   * Line i opened the fragment that is still open at the end of `lines`: it has the
   * start marker and no later line has either marker.
   */
  predicate OpenSince(lines: seq<string>, i: int) {
    0 <= i < |lines| && IsStart(lines[i])
    && forall k :: i < k < |lines| ==> !IsStart(lines[k]) && !IsEnd(lines[k])
  }

  /**
   * A fragment is open exactly when some start line has not been followed by any marker,
   * and then it holds a single space followed by every line after that start line.
   */
  lemma {:induction false} StateAfterSpec(lines: seq<string>)
    ensures StateAfter(lines).Some? <==> exists i :: OpenSince(lines, i)
    ensures forall i :: OpenSince(lines, i) ==> StateAfter(lines) == Some(" " + Concat(lines[i + 1..]))
    decreases |lines|
  {
    if lines != [] {
      var n := |lines| - 1;
      var init := lines[..n];
      var last := lines[n];
      StateAfterSpec(init);
      forall i | OpenSince(lines, i)
        ensures StateAfter(lines) == Some(" " + Concat(lines[i + 1..]))
      {
        if i == n {
          assert lines[i + 1..] == [];
          assert " " + Concat([]) == " ";
        } else {
          assert OpenSince(init, i);
          var acc := " " + Concat(init[i + 1..]);
          assert StateAfter(init) == Some(acc);
          assert acc[0] == ' ';
          assert !IsStart(last) && !IsEnd(last);
          assert StateAfter(lines) == Some(acc + last);
          var tail := lines[i + 1..];
          assert tail[..|tail| - 1] == init[i + 1..];
          assert tail[|tail| - 1] == last;
          assert Concat(tail) == Concat(init[i + 1..]) + last;
          assert acc + last == " " + Concat(tail);
        }
      }
      if StateAfter(lines).Some? && !IsStart(last) {
        var i :| OpenSince(init, i);
        assert OpenSince(lines, i);
      }
      if !IsStart(last) && IsEnd(last) {
        assert forall i :: !OpenSince(lines, i);
      }
      forall i | 0 <= i < n && OpenSince(lines, i)
        ensures OpenSince(init, i)
      {
      }
      if IsStart(last) {
        assert OpenSince(lines, n);
      }
    }
  }

  /**
   * A line with the end marker (and no start marker) that meets an open fragment closes
   * it: the fragment handed to the parser is a single space followed by the lines strictly
   * between the most recent start line and the closing line.
   */
  lemma ClosingLine(lines: seq<string>, i: int, j: int)
    requires 0 <= i < j < |lines|
    requires OpenSince(lines[..j], i) && !IsStart(lines[j]) && IsEnd(lines[j])
    ensures Fragments(lines[..j + 1]) == Fragments(lines[..j]) + [" " + Concat(lines[i + 1..j])]
  {
    assert lines[..j + 1][..j] == lines[..j];
    StateAfterSpec(lines[..j]);
    assert lines[..j][i + 1..] == lines[i + 1..j];
  }

  /**
   * Every other line yields nothing: a start line, a line without the end marker, or an
   * end-marker line met when no fragment is open (a dangling end marker).
   */
  lemma QuietLine(lines: seq<string>, j: int)
    requires 0 <= j < |lines|
    requires IsStart(lines[j]) || !IsEnd(lines[j]) || forall i :: !OpenSince(lines[..j], i)
    ensures Fragments(lines[..j + 1]) == Fragments(lines[..j])
  {
    assert lines[..j + 1][..j] == lines[..j];
    StateAfterSpec(lines[..j]);
  }

  /** Line j closes a fragment: end marker, no start marker, and a fragment open before it. */
  ghost predicate ClosesAt(lines: seq<string>, j: int)
    requires 0 <= j < |lines|
  {
    !IsStart(lines[j]) && IsEnd(lines[j]) && exists i :: OpenSince(lines[..j], i)
  }

  /** How many lines close a fragment. */
  ghost function CloseCount(lines: seq<string>): nat {
    if lines == [] then 0
    else CloseCount(lines[..|lines| - 1]) + (if ClosesAt(lines, |lines| - 1) then 1 else 0)
  }

  /**
   * One fragment per closing line: a dangling end marker and a fragment never closed
   * yield nothing.
   */
  lemma {:induction false} FragmentCount(lines: seq<string>)
    ensures |Fragments(lines)| == CloseCount(lines)
    decreases |lines|
  {
    if lines != [] {
      var n := |lines| - 1;
      FragmentCount(lines[..n]);
      StateAfterSpec(lines[..n]);
    }
  }

  /** When every fragment parses, there is exactly one paper per closing line. */
  lemma PaperCount(lines: seq<string>, editorOf: string -> Option<string>)
    ensures var r := ParseAll(Fragments(lines), FragmentParser(editorOf));
            r.Ok? ==> |r.value| == CloseCount(lines)
  {
    FragmentCount(lines);
  }
}
