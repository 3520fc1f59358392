/** The report `compare_regions` returns: the `result` list and `"\n".join(result)`. */
module Report {
  import opened Types
  import opened Alignment
  import opened Scoring

  const Header: string := "Significant demographic differences (z > 2):"
  const NoDifferences: string := "No significant demographic differences found."

  /** How a flagged row is printed. `key` is Python's rendering of the group
      tuple (`{idx}`); `z` renders the z-score whose deviation and variance it
      is given, deviation / sqrt(variance), with two decimals (`{z:.2f}`). Both
      are formatting-library behaviour and are taken as given. */
  datatype Rendering = Rendering(key: GroupKey -> string, z: (real, real) -> string)

  /** The line ` - {idx}: z={z:.2f}` of one flagged row. */
  function Line(r: FrameRow, mean: real, variance: real, rendering: Rendering): string
  {
    " - " + rendering.key(r.key) + ": z=" + rendering.z(Dev(r, mean), variance)
  }

  /** One line per flagged row, in frame order. */
  function Lines(sel: seq<FrameRow>, mean: real, variance: real, rendering: Rendering): (ls: seq<string>)
    ensures |ls| == |sel|
    ensures forall i :: 0 <= i < |sel| ==> ls[i] == Line(sel[i], mean, variance, rendering)
  {
    if |sel| == 0 then []
    else Lines(sel[..|sel| - 1], mean, variance, rendering) + [Line(sel[|sel| - 1], mean, variance, rendering)]
  }

  /** The lines the report is made of. */
  function ReportLines(sel: seq<FrameRow>, mean: real, variance: real, rendering: Rendering): (ls: seq<string>)
    ensures |sel| == 0 ==> ls == [NoDifferences]
    ensures |sel| > 0 ==>
      && |ls| == |sel| + 1
      && ls[0] == Header
      && (forall i :: 0 <= i < |sel| ==> ls[i + 1] == Line(sel[i], mean, variance, rendering))
  {
    if |sel| == 0 then [NoDifferences] else [Header] + Lines(sel, mean, variance, rendering)
  }

  /** `"\n".join(lines)`. */
  function JoinLines(lines: seq<string>): (s: string)
    ensures |lines| == 1 ==> s == lines[0]
    ensures |lines| > 1 ==> |s| > |lines[0]| && s[..|lines[0]| + 1] == lines[0] + "\n"
  {
    if |lines| == 0 then ""
    else if |lines| == 1 then lines[0]
    else lines[0] + "\n" + JoinLines(lines[1..])
  }

  /** Position of the first `c` in `s`. */
  function IndexOf(s: string, c: char): (i: nat)
    requires c in s
    ensures i < |s| && s[i] == c && c !in s[..i]
  {
    if s[0] == c then 0
    else
      assert c in s[1..] by { var j :| 0 <= j < |s| && s[j] == c; assert s[1..][j - 1] == c; }
      var i := 1 + IndexOf(s[1..], c);
      assert s[..i] == [s[0]] + s[1..][..i - 1];
      i
  }

  /** `s.split("\n")`: the pieces between newlines. */
  function SplitLines(s: string): (ls: seq<string>)
    ensures |ls| >= 1
    ensures forall l :: l in ls ==> '\n' !in l
    decreases |s|
  {
    if '\n' in s then
      var i := IndexOf(s, '\n');
      [s[..i]] + SplitLines(s[i + 1..])
    else [s]
  }

  /** Joining lines that hold no newline and splitting the text again gives the
      same lines back. */
  lemma {:induction false} SplitJoin(lines: seq<string>)
    requires |lines| > 0
    requires forall l :: l in lines ==> '\n' !in l
    ensures SplitLines(JoinLines(lines)) == lines
  {
    if |lines| > 1 {
      var s := JoinLines(lines);
      var head, rest := lines[0], lines[1..];
      assert head in lines;
      assert s == head + "\n" + JoinLines(rest);
      assert s[|head|] == '\n';
      var i := IndexOf(s, '\n');
      assert i == |head| by {
        if i < |head| {
          assert false;
        } else if i > |head| {
          assert false;
        }
      }
      assert s[..i] == head;
      assert s[i + 1..] == JoinLines(rest);
      forall l | l in rest ensures '\n' !in l { assert l in lines; }
      SplitJoin(rest);
    }
  }

  /** Builds the report as the source does: appends the header and one line per
      flagged row (or the single "no differences" line) to a list, then joins it. */
  method FormatReport(sel: seq<FrameRow>, mean: real, variance: real, rendering: Rendering)
    returns (text: string)
    ensures text == JoinLines(ReportLines(sel, mean, variance, rendering))
  {
    var result: seq<string> := [];
    if |sel| > 0 {
      result := result + [Header];
      var i := 0;
      while i < |sel|
        invariant 0 <= i <= |sel|
        invariant result == [Header] + Lines(sel[..i], mean, variance, rendering)
      {
        result := result + [Line(sel[i], mean, variance, rendering)];
        assert sel[..i + 1][..i] == sel[..i];
        i := i + 1;
      }
      assert sel[..|sel|] == sel;
    } else {
      result := result + [NoDifferences];
    }
    text := JoinLines(result);
  }

  /** No key or z rendering of a flagged row contains a newline. */
  ghost predicate SingleLineRenderings(sel: seq<FrameRow>, mean: real, variance: real, rendering: Rendering)
  {
    forall r :: r in sel ==> '\n' !in rendering.key(r.key) && '\n' !in rendering.z(Dev(r, mean), variance)
  }

  /** No line of a flagged row contains a newline when its renderings do not. */
  lemma LinesAreSingle(sel: seq<FrameRow>, mean: real, variance: real, rendering: Rendering)
    requires SingleLineRenderings(sel, mean, variance, rendering)
    ensures forall l :: l in Lines(sel, mean, variance, rendering) ==> '\n' !in l
  {
    var ls := Lines(sel, mean, variance, rendering);
    forall i | 0 <= i < |ls| ensures '\n' !in ls[i] {
      assert sel[i] in sel;
    }
  }

  /** An empty selection gives exactly the "no differences" message. Otherwise,
      when the renderings are single lines, the report splits into the header
      followed by exactly one line per flagged row, in frame order. */
  lemma ReportShape(sel: seq<FrameRow>, mean: real, variance: real, rendering: Rendering)
    requires SingleLineRenderings(sel, mean, variance, rendering)
    ensures |sel| == 0 ==> JoinLines(ReportLines(sel, mean, variance, rendering)) == NoDifferences
    ensures |sel| > 0 ==>
      var parts := SplitLines(JoinLines(ReportLines(sel, mean, variance, rendering)));
      && |parts| == |sel| + 1
      && parts[0] == Header
      && forall i :: 0 <= i < |sel| ==> parts[i + 1] == Line(sel[i], mean, variance, rendering)
  {
    if |sel| > 0 {
      var ls := Lines(sel, mean, variance, rendering);
      LinesAreSingle(sel, mean, variance, rendering);
      assert '\n' !in Header;
      SplitJoin([Header] + ls);
    }
  }

  /** The report opens with the header line whenever something is flagged. */
  lemma ReportOpening(sel: seq<FrameRow>, mean: real, variance: real, rendering: Rendering)
    ensures var text := JoinLines(ReportLines(sel, mean, variance, rendering));
      && (text == NoDifferences <==> |sel| == 0)
      && (|sel| > 0 ==> |text| > |Header| && text[..|Header| + 1] == Header + "\n")
  {
    if |sel| > 0 {
      var text := JoinLines(ReportLines(sel, mean, variance, rendering));
      var rest := JoinLines(Lines(sel, mean, variance, rendering));
      assert ReportLines(sel, mean, variance, rendering)[1..] == Lines(sel, mean, variance, rendering);
      assert text == Header + "\n" + rest;
      assert text[..|Header| + 1] == Header + "\n";
      OpeningDiffers(text);
    }
  }

  /** A text that opens with the header line is not the "no differences" line. */
  lemma OpeningDiffers(text: string)
    requires |text| > |Header| && text[..|Header| + 1] == Header + "\n"
    ensures text != NoDifferences
  {
    assert text[1] == text[..|Header| + 1][1] == Header[1] == 'i';
    assert NoDifferences[1] == 'o';
  }
}
