/** Layout helpers of the engine: the greedy word wrapper and the column
    splitter (the `Tools` class). */
module Tools {
  import opened Wrappers
  import opened Backend
  import opened JavaText

  // ---- Tools.splitPage ----

  /** Java's `NegativeArraySizeException`. */
  datatype ArrayError = NegativeArraySize(size: int)

  /** Where column k starts: k column widths right of the left margin. */
  function ColumnStart(pageWidth: real, marginLeft: real, columns: int, k: int): real
    requires columns > 0
  {
    marginLeft + k as real * (pageWidth / columns as real)
  }

  /** Neighbouring columns start one column width apart. */
  lemma ColumnGeometry(pageWidth: real, marginLeft: real, columns: int, k: int)
    requires 0 < k < columns
    ensures ColumnStart(pageWidth, marginLeft, columns, k) - ColumnStart(pageWidth, marginLeft, columns, k - 1)
         == pageWidth / columns as real
  {
    var q := pageWidth / columns as real;
    assert k as real * q - (k - 1) as real * q == q;
  }

  /** The last column ends where the content width ends. */
  lemma LastColumnEnd(pageWidth: real, marginLeft: real, columns: int)
    requires columns > 0
    ensures ColumnStart(pageWidth, marginLeft, columns, columns - 1) + pageWidth / columns as real
         == marginLeft + pageWidth
  {
    var q := pageWidth / columns as real;
    assert (columns - 1) as real * q + q == columns as real * q;
  }

  /** The start positions of `columns` equally wide columns over a content
      width of `pageWidth` that begins at `marginLeft`. A negative column
      count fails as the array allocation does; zero columns give none. */
  method SplitPage(pageWidth: real, marginLeft: real, columns: int) returns (r: Result<seq<real>, ArrayError>)
    ensures r.Failure? <==> columns < 0
    ensures r.Success? ==> |r.value| == columns
    ensures r.Success? && columns > 0 ==> r.value[0] == marginLeft
    ensures r.Success? ==>
      forall i :: 0 < i < |r.value| ==> r.value[i] - r.value[i - 1] == pageWidth / columns as real
    ensures r.Success? && columns > 0 ==>
      r.value[columns - 1] + pageWidth / columns as real == marginLeft + pageWidth
  {
    if columns < 0 {
      return Failure(NegativeArraySize(columns));
    }
    var positions: seq<real> := [];
    var i := 0;
    while i < columns
      invariant 0 <= i <= columns
      invariant |positions| == i
      invariant forall k :: 0 <= k < i ==> positions[k] == ColumnStart(pageWidth, marginLeft, columns, k)
    {
      positions := positions + [marginLeft + i as real * (pageWidth / columns as real)];
      i := i + 1;
    }
    if columns > 0 {
      forall k | 0 < k < columns
        ensures positions[k] - positions[k - 1] == pageWidth / columns as real
      {
        ColumnGeometry(pageWidth, marginLeft, columns, k);
      }
      LastColumnEnd(pageWidth, marginLeft, columns);
    }
    r := Success(positions);
  }

  // ---- Strings laid end to end ----

  /** The strings laid end to end. */
  function Concat(ss: seq<string>): string {
    if |ss| == 0 then "" else Concat(ss[..|ss| - 1]) + ss[|ss| - 1]
  }

  lemma {:induction false} ConcatAppend(a: seq<string>, b: seq<string>)
    ensures Concat(a + b) == Concat(a) + Concat(b)
    decreases |b|
  {
    if |b| > 0 {
      ConcatAppend(a, b[..|b| - 1]);
      assert (a + b)[..|a + b| - 1] == a + b[..|b| - 1];
      assert Concat(a + b) == Concat(a + b[..|b| - 1]) + b[|b| - 1];
      assert Concat(b) == Concat(b[..|b| - 1]) + b[|b| - 1];
    } else {
      assert a + b == a;
    }
  }

  /** True when `s` ends with `suffix`. */
  predicate EndsWith(s: string, suffix: string) {
    |suffix| <= |s| && s[|s| - |suffix|..] == suffix
  }

  /** True when `s` is non-empty and its last character is a space. */
  predicate SpaceTerminated(s: string) {
    |s| > 0 && s[|s| - 1] == ' '
  }

  /** The tokens as the wrapper appends them to a line: every token but the
      last carries one trailing space. */
  function Padded(ts: seq<string>): (p: seq<string>)
    ensures |p| == |ts|
  {
    seq(|ts|, i requires 0 <= i < |ts| => if i < |ts| - 1 then ts[i] + " " else ts[i])
  }

  /** Laying the padded tokens end to end is joining the tokens with single
      spaces. */
  lemma {:induction false} PaddedJoin(ts: seq<string>)
    ensures Concat(Padded(ts)) == JoinSpaces(ts)
    decreases |ts|
  {
    if |ts| == 1 {
      assert Padded(ts) == [ts[0]];
      assert Concat([ts[0]]) == Concat([]) + ts[0];
    } else if |ts| > 1 {
      PaddedJoin(ts[1..]);
      assert Padded(ts) == [ts[0] + " "] + Padded(ts[1..]);
      ConcatAppend([ts[0] + " "], Padded(ts[1..]));
      assert Concat([ts[0] + " "]) == Concat([]) + (ts[0] + " ");
    }
  }

  // ---- Cut positions and the lines they produce ----

  /** The positions of the tokens before which a line was cut, ascending. */
  function CutIndices(cuts: seq<bool>): (r: seq<nat>)
    ensures |r| <= |cuts|
    ensures forall k :: 0 <= k < |r| ==> r[k] < |cuts| && cuts[r[k]]
    ensures forall k, l :: 0 <= k < l < |r| ==> r[k] < r[l]
  {
    if |cuts| == 0 then []
    else CutIndices(cuts[..|cuts| - 1]) + (if cuts[|cuts| - 1] then [|cuts| - 1] else [])
  }

  /** A cut before the first token is the first cut position. */
  lemma {:induction false} FirstCut(cuts: seq<bool>)
    requires |cuts| > 0 && cuts[0]
    ensures |CutIndices(cuts)| > 0 && CutIndices(cuts)[0] == 0
    decreases |cuts|
  {
    if |cuts| > 1 {
      FirstCut(cuts[..|cuts| - 1]);
    }
  }

  /** Where the line still open after `cuts` begins: at the last cut, or at
      the first token when there was none. */
  function LineStart(cuts: seq<bool>): (s: nat)
    ensures s <= |cuts|
    ensures |cuts| > 0 ==> s < |cuts|
  {
    if |cuts| == 0 then 0
    else if cuts[|cuts| - 1] then |cuts| - 1
    else LineStart(cuts[..|cuts| - 1])
  }

  /** The open line begins at the last cut position, or at 0. */
  lemma {:induction false} LineStartIsLastCut(cuts: seq<bool>)
    ensures var ci := CutIndices(cuts);
      LineStart(cuts) == ([0] + ci)[|ci|]
    decreases |cuts|
  {
    if |cuts| > 0 {
      LineStartIsLastCut(cuts[..|cuts| - 1]);
    }
  }

  /** The lines the cuts have closed, first to last: each cut closes the
      line that was open before it. */
  function ClosedLines(p: seq<string>, cuts: seq<bool>): (lines: seq<string>)
    requires |cuts| <= |p|
  {
    if |cuts| == 0 then []
    else
      var prev := cuts[..|cuts| - 1];
      ClosedLines(p, prev)
        + (if cuts[|cuts| - 1] then [Concat(p[LineStart(prev)..|prev|])] else [])
  }

  /** The whole output for one cut decision per padded token: the closed
      lines, then the line still open at the end. */
  function Layout(p: seq<string>, cuts: seq<bool>): seq<string>
    requires |cuts| == |p|
  {
    ClosedLines(p, cuts) + [Concat(p[LineStart(cuts)..])]
  }

  /** The greedy rule: the line is cut before token i exactly when the width
      of the open line plus the width of token i exceeds the limit. */
  ghost predicate IsGreedy(ts: seq<string>, width: real, w: string -> real, cuts: seq<bool>) {
    && |cuts| == |ts|
    && forall i :: 0 <= i < |ts| ==> GreedyAt(ts, width, w, cuts, i)
  }

  /** The greedy rule for the decision before token `i`. */
  ghost predicate GreedyAt(ts: seq<string>, width: real, w: string -> real, cuts: seq<bool>, i: nat)
    requires i < |ts| && i < |cuts|
  {
    cuts[i] <==> w(Concat(Padded(ts)[LineStart(cuts[..i])..i])) + w(ts[i]) > width
  }

  /** The greedy rule leaves no choice: at most one cut sequence obeys it. */
  lemma {:induction false} GreedyUnique(ts: seq<string>, width: real, w: string -> real, c1: seq<bool>, c2: seq<bool>)
    requires IsGreedy(ts, width, w, c1) && IsGreedy(ts, width, w, c2)
    ensures c1 == c2
  {
    var i := 0;
    while i < |ts|
      invariant 0 <= i <= |ts|
      invariant c1[..i] == c2[..i]
    {
      GreedyAtAgree(ts, width, w, c1, c2, i);
      assert c1[..i + 1] == c1[..i] + [c1[i]];
      assert c2[..i + 1] == c2[..i] + [c2[i]];
      i := i + 1;
    }
    assert c1 == c1[..i] && c2 == c2[..i];
  }

  /** Two greedy records that agree before token i agree at token i. */
  lemma GreedyAtAgree(ts: seq<string>, width: real, w: string -> real, c1: seq<bool>, c2: seq<bool>, i: nat)
    requires i < |ts| && i < |c1| && i < |c2| && c1[..i] == c2[..i]
    requires GreedyAt(ts, width, w, c1, i) && GreedyAt(ts, width, w, c2, i)
    ensures c1[i] == c2[i]
  {
  }

  lemma CutsSnoc(cuts: seq<bool>, b: bool)
    ensures CutIndices(cuts + [b]) == CutIndices(cuts) + (if b then [|cuts|] else [])
  {
    assert (cuts + [b])[..|cuts|] == cuts;
  }

  lemma LineStartSnoc(cuts: seq<bool>, b: bool)
    ensures LineStart(cuts + [b]) == if b then |cuts| else LineStart(cuts)
  {
    assert (cuts + [b])[..|cuts|] == cuts;
  }

  /** One more cut decision closes the open line exactly when it is a cut. */
  lemma ClosedLinesSnoc(p: seq<string>, cuts: seq<bool>, b: bool)
    requires |cuts| < |p|
    ensures ClosedLines(p, cuts + [b])
         == ClosedLines(p, cuts) + (if b then [Concat(p[LineStart(cuts)..|cuts|])] else [])
  {
    assert (cuts + [b])[..|cuts|] == cuts;
  }

  /** One line is closed per cut. */
  lemma {:induction false} ClosedLinesCount(p: seq<string>, cuts: seq<bool>)
    requires |cuts| <= |p|
    ensures |ClosedLines(p, cuts)| == |CutIndices(cuts)|
    decreases |cuts|
  {
    if |cuts| > 0 {
      ClosedLinesCount(p, cuts[..|cuts| - 1]);
    }
  }

  /** Where closed line k begins: at the first token, or at the previous cut. */
  function LineBegin(ci: seq<nat>, k: nat): nat
    requires k <= |ci|
  {
    if k == 0 then 0 else ci[k - 1]
  }

  /** Closed line k holds exactly the padded tokens from where it begins up
      to the k-th cut position. */
  lemma {:induction false} ClosedLineAt(p: seq<string>, cuts: seq<bool>, k: nat)
    requires |cuts| <= |p|
    requires k < |CutIndices(cuts)|
    ensures |ClosedLines(p, cuts)| == |CutIndices(cuts)|
    ensures LineBegin(CutIndices(cuts), k) <= CutIndices(cuts)[k]
    ensures ClosedLines(p, cuts)[k] == Concat(p[LineBegin(CutIndices(cuts), k)..CutIndices(cuts)[k]])
    decreases |cuts|
  {
    var n := |cuts|;
    var prev, b := cuts[..n - 1], cuts[n - 1];
    assert prev + [b] == cuts;
    ClosedLinesCount(p, cuts);
    ClosedLinesCount(p, prev);
    CutsSnoc(prev, b);
    ClosedLinesSnoc(p, prev, b);
    var cp := CutIndices(prev);
    var ci := CutIndices(cuts);
    if k < |cp| {
      ClosedLineAt(p, prev, k);
      assert ci[k] == cp[k];
      assert LineBegin(ci, k) == LineBegin(cp, k);
      assert ClosedLines(p, cuts)[k] == ClosedLines(p, prev)[k];
    } else {
      assert b && k == |cp| && ci == cp + [n - 1];
      LineStartIsLastCut(prev);
      assert LineBegin(ci, k) == ([0] + cp)[|cp|];
    }
  }

  /** The closed lines followed by the open line give back every padded
      token decided so far, in order. */
  lemma {:induction false} ClosedLinesConcat(p: seq<string>, cuts: seq<bool>)
    requires |cuts| <= |p|
    ensures Concat(ClosedLines(p, cuts)) + Concat(p[LineStart(cuts)..|cuts|]) == Concat(p[..|cuts|])
    decreases |cuts|
  {
    if |cuts| > 0 {
      var n := |cuts|;
      var prev, b := cuts[..n - 1], cuts[n - 1];
      assert cuts == prev + [b];
      ClosedLinesConcat(p, prev);
      ConcatSnocSlice(p, 0, n - 1);
      assert p[0..n] == p[..n] && p[0..n - 1] == p[..n - 1];
      if b {
        ClosedLinesConcatCut(p, prev);
      } else {
        ClosedLinesConcatNoCut(p, prev);
      }
    }
  }

  /** A cut closes the open line and opens an empty one. */
  lemma ClosedLinesConcatCut(p: seq<string>, prev: seq<bool>)
    requires |prev| < |p|
    ensures Concat(ClosedLines(p, prev + [true])) + Concat(p[LineStart(prev + [true])..|prev| + 1])
         == Concat(ClosedLines(p, prev)) + Concat(p[LineStart(prev)..|prev|]) + p[|prev|]
  {
    var n := |prev|;
    var s := LineStart(prev);
    ClosedLinesSnoc(p, prev, true);
    LineStartSnoc(prev, true);
    ConcatAppend(ClosedLines(p, prev), [Concat(p[s..n])]);
    ConcatSingle([Concat(p[s..n])]);
    ConcatSingle(p[n..n + 1]);
  }

  /** Without a cut the token joins the open line. */
  lemma ClosedLinesConcatNoCut(p: seq<string>, prev: seq<bool>)
    requires |prev| < |p|
    ensures Concat(ClosedLines(p, prev + [false])) + Concat(p[LineStart(prev + [false])..|prev| + 1])
         == Concat(ClosedLines(p, prev)) + Concat(p[LineStart(prev)..|prev|]) + p[|prev|]
  {
    var n := |prev|;
    ClosedLinesSnoc(p, prev, false);
    LineStartSnoc(prev, false);
    ConcatSnocSlice(p, LineStart(prev), n);
    assert ClosedLines(p, prev) + [] == ClosedLines(p, prev);
  }

  /** A run of strings whose last one ends in a space ends in a space. */
  lemma ConcatSpaceTerminated(xs: seq<string>)
    requires |xs| > 0 && SpaceTerminated(xs[|xs| - 1])
    ensures SpaceTerminated(Concat(xs))
  {
  }

  /** Laying out padded tokens gives back the space-joined tokens, with one
      more line than there are cuts. */
  lemma LayoutConcat(ts: seq<string>, cuts: seq<bool>)
    requires |ts| >= 1 && |cuts| == |ts|
    ensures |Layout(Padded(ts), cuts)| == |CutIndices(cuts)| + 1
    ensures Concat(Layout(Padded(ts), cuts)) == JoinSpaces(ts)
  {
    var p := Padded(ts);
    ClosedLinesCount(p, cuts);
    ClosedLinesConcat(p, cuts);
    ConcatAppend(ClosedLines(p, cuts), [Concat(p[LineStart(cuts)..])]);
    assert Concat([Concat(p[LineStart(cuts)..])]) == Concat([]) + Concat(p[LineStart(cuts)..]);
    assert p[..|cuts|] == p;
    assert p[LineStart(cuts)..|cuts|] == p[LineStart(cuts)..];
    PaddedJoin(ts);
  }

  /** The last line ends with the last token, with no space after it. */
  lemma LayoutLastLine(ts: seq<string>, cuts: seq<bool>)
    requires |ts| >= 1 && |cuts| == |ts|
    ensures var lines := Layout(Padded(ts), cuts);
      EndsWith(lines[|lines| - 1], ts[|ts| - 1])
  {
    var p := Padded(ts);
    var tail := p[LineStart(cuts)..];
    assert tail[|tail| - 1] == ts[|ts| - 1];
    assert Concat(tail) == Concat(tail[..|tail| - 1]) + ts[|ts| - 1];
  }

  /** A non-empty run of padded tokens that stops before the last token
      ends in a space. */
  lemma PaddedRunSpaceTerminated(ts: seq<string>, lo: nat, hi: nat)
    requires lo < hi < |ts|
    ensures SpaceTerminated(Concat(Padded(ts)[lo..hi]))
  {
    var xs := Padded(ts)[lo..hi];
    assert xs[|xs| - 1] == ts[hi - 1] + " ";
    ConcatSpaceTerminated(xs);
  }

  /** Every line before the last ends in a space, except a leading empty
      line; an empty line can only come first, and it comes exactly when the
      very first decision is a cut. */
  lemma LayoutInnerLines(ts: seq<string>, cuts: seq<bool>)
    requires |ts| >= 1 && |cuts| == |ts|
    ensures var lines := Layout(Padded(ts), cuts);
      && (forall k :: 0 <= k < |lines| - 1 ==> lines[k] == "" || SpaceTerminated(lines[k]))
      && (forall k :: 0 < k < |lines| - 1 ==> SpaceTerminated(lines[k]))
      && ((|lines| > 1 && lines[0] == "") <==> cuts[0])
  {
    var p := Padded(ts);
    var ci := CutIndices(cuts);
    var lines := Layout(p, cuts);
    ClosedLinesCount(p, cuts);
    assert |lines| == |ci| + 1;
    forall k | 0 < k < |ci|
      ensures SpaceTerminated(lines[k])
    {
      ClosedLineAt(p, cuts, k);
      assert lines[k] == Concat(p[ci[k - 1]..ci[k]]);
      PaddedRunSpaceTerminated(ts, ci[k - 1], ci[k]);
    }
    if |ci| > 0 {
      ClosedLineAt(p, cuts, 0);
      assert lines[0] == Concat(p[0..ci[0]]);
      if ci[0] > 0 {
        PaddedRunSpaceTerminated(ts, 0, ci[0]);
      }
      assert cuts[ci[0]];
    }
    if cuts[0] {
      FirstCut(cuts);
    }
  }

  // ---- Tools.splitStringForWidth ----

  /** A further decision leaves the earlier decisions obeying the greedy
      rule, and the new one obeys it when it was taken by the rule. */
  lemma GreedyStep(ts: seq<string>, width: real, w: string -> real, cuts: seq<bool>, cut: bool)
    requires |cuts| < |ts|
    requires forall j :: 0 <= j < |cuts| ==> GreedyAt(ts, width, w, cuts, j)
    requires cut == (w(Concat(Padded(ts)[LineStart(cuts)..|cuts|])) + w(ts[|cuts|]) > width)
    ensures forall j :: 0 <= j <= |cuts| ==> GreedyAt(ts, width, w, cuts + [cut], j)
  {
    forall j | 0 <= j < |cuts|
      ensures GreedyAt(ts, width, w, cuts + [cut], j)
    {
      GreedyAtSnoc(ts, width, w, cuts, cut, j);
    }
    assert (cuts + [cut])[..|cuts|] == cuts;
  }

  /** An earlier decision keeps obeying the greedy rule when a decision is
      appended. */
  lemma GreedyAtSnoc(ts: seq<string>, width: real, w: string -> real, cuts: seq<bool>, cut: bool, j: nat)
    requires j < |cuts| < |ts|
    requires GreedyAt(ts, width, w, cuts, j)
    ensures GreedyAt(ts, width, w, cuts + [cut], j)
  {
    assert (cuts + [cut])[..j] == cuts[..j];
    assert (cuts + [cut])[j] == cuts[j];
  }

  /** The open line after one more decision: the token alone after a cut,
      the old open line plus the token otherwise. */
  lemma OpenLineStep(p: seq<string>, cuts: seq<bool>, cut: bool)
    requires |cuts| < |p|
    ensures cut ==> Concat(p[LineStart(cuts + [cut])..|cuts| + 1]) == p[|cuts|]
    ensures !cut ==>
      Concat(p[LineStart(cuts + [cut])..|cuts| + 1]) == Concat(p[LineStart(cuts)..|cuts|]) + p[|cuts|]
  {
    LineStartSnoc(cuts, cut);
    if cut {
      ConcatSingle(p[|cuts|..|cuts| + 1]);
    } else {
      ConcatSnocSlice(p, LineStart(cuts), |cuts|);
    }
  }

  lemma ConcatSingle(xs: seq<string>)
    requires |xs| == 1
    ensures Concat(xs) == xs[0]
  {
    assert Concat(xs) == Concat(xs[..0]) + xs[0];
    assert "" + xs[0] == xs[0];
  }

  lemma ConcatSnocSlice(p: seq<string>, lo: nat, hi: nat)
    requires lo <= hi < |p|
    ensures Concat(p[lo..hi + 1]) == Concat(p[lo..hi]) + p[hi]
  {
    assert p[lo..hi + 1][..hi - lo] == p[lo..hi];
  }

  /** The state of the wrapping loop after `i` tokens: one greedy decision
      per token so far, the buffer holding the open line, and the emitted
      lines being the closed ones (plus the last line once all tokens are
      done). */
  ghost predicate WrapState(split: seq<string>, width: real, w: string -> real, i: nat,
                            cuts: seq<bool>, sb: string, lines: seq<string>)
  {
    && i <= |split|
    && |cuts| == i
    && sb == Concat(Padded(split)[LineStart(cuts)..i])
    && lines == ClosedLines(Padded(split), cuts) + (if i == |split| then [sb] else [])
    && forall j :: 0 <= j < i ==> GreedyAt(split, width, w, cuts, j)
  }

  /** One iteration of the wrapping loop keeps its state description. */
  lemma WrapStateStep(split: seq<string>, width: real, w: string -> real, i: nat,
                      cuts: seq<bool>, sb: string, lines: seq<string>,
                      cut: bool, sb': string, lines': seq<string>)
    requires WrapState(split, width, w, i, cuts, sb, lines) && i < |split|
    requires cut == (w(sb) + w(split[i]) > width)
    requires sb' == (if cut then "" else sb) + (if i < |split| - 1 then split[i] + " " else split[i])
    requires lines' == (if cut then lines + [sb] else lines) + (if i == |split| - 1 then [sb'] else [])
    ensures WrapState(split, width, w, i + 1, cuts + [cut], sb', lines')
  {
    var p := Padded(split);
    GreedyStep(split, width, w, cuts, cut);
    OpenLineStep(p, cuts, cut);
    ClosedLinesSnoc(p, cuts, cut);
    assert (if i < |split| - 1 then split[i] + " " else split[i]) == p[i];
    if cut {
      assert "" + p[i] == p[i];
    }
    assert sb' == Concat(p[LineStart(cuts + [cut])..i + 1]);
    assert lines == ClosedLines(p, cuts) by {
      assert ClosedLines(p, cuts) + [] == ClosedLines(p, cuts);
    }
    var closed' := if cut then lines + [sb] else lines;
    assert closed' == ClosedLines(p, cuts + [cut]) by {
      if !cut {
        assert ClosedLines(p, cuts) + [] == ClosedLines(p, cuts);
      }
    }
    if i + 1 < |split| {
      assert closed' + [] == closed';
    }
    assert forall j :: 0 <= j < i + 1 ==> GreedyAt(split, width, w, cuts + [cut], j);
  }

  /** Before the first token nothing is decided, the buffer is empty and no
      line is emitted. */
  lemma WrapStateInit(split: seq<string>, width: real, w: string -> real)
    requires |split| >= 1
    ensures WrapState(split, width, w, 0, [], "", [])
  {
    assert Padded(split)[0..0] == [];
  }

  /** After the last token the decisions are greedy and the emitted lines
      are the layout they produce. */
  lemma WrapStateDone(split: seq<string>, width: real, w: string -> real,
                      cuts: seq<bool>, sb: string, lines: seq<string>)
    requires WrapState(split, width, w, |split|, cuts, sb, lines)
    ensures IsGreedy(split, width, w, cuts)
    ensures lines == Layout(Padded(split), cuts)
  {
    assert Padded(split)[LineStart(cuts)..|split|] == Padded(split)[LineStart(cuts)..];
  }

  /** One pass of the loop of `splitStringForWidth` over token `i`: emit
      the buffer when the buffer's width plus the token's width exceeds
      `width`, then append the token (with a space unless it is the last),
      and emit the buffer after the last token. */
  method WrapStep(split: seq<string>, width: real, w: string -> real, i: nat, sb: string, lines: seq<string>)
    returns (cut: bool, sb': string, lines': seq<string>)
    requires i < |split|
    ensures cut == (w(sb) + w(split[i]) > width)
    ensures sb' == (if cut then "" else sb) + (if i < |split| - 1 then split[i] + " " else split[i])
    ensures lines' == (if cut then lines + [sb] else lines) + (if i == |split| - 1 then [sb'] else [])
  {
    var textWidth := w(sb);
    var nextWidth := w(split[i]);
    cut := textWidth + nextWidth > width;
    sb', lines' := sb, lines;
    if cut {
      lines' := lines' + [sb'];
      sb' := "";
    }
    if i < |split| - 1 {
      sb' := sb' + (split[i] + " ");
    } else {
      sb' := sb' + split[i];
    }
    if i == |split| - 1 {
      lines' := lines' + [sb'];
    }
  }

  /** The loop of `splitStringForWidth` over a non-empty token sequence:
      each token is appended to the buffer, after emitting the buffer as a
      line when the buffer's width plus the token's width exceeds `width`;
      the buffer left after the last token is the last line. */
  method WrapTokens(split: seq<string>, width: real, w: string -> real)
    returns (lines: seq<string>, ghost cuts: seq<bool>)
    requires |split| >= 1
    ensures IsGreedy(split, width, w, cuts)
    ensures lines == Layout(Padded(split), cuts)
    ensures |lines| >= 1 && Concat(lines) == JoinSpaces(split)
    ensures EndsWith(lines[|lines| - 1], split[|split| - 1])
  {
    cuts := [];
    lines := [];
    var sb := "";
    var i := 0;
    WrapStateInit(split, width, w);
    while i < |split|
      invariant WrapState(split, width, w, i, cuts, sb, lines)
    {
      ghost var sb0, lines0 := sb, lines;
      var cut;
      cut, sb, lines := WrapStep(split, width, w, i, sb, lines);
      WrapStateStep(split, width, w, i, cuts, sb0, lines0, cut, sb, lines);
      cuts := cuts + [cut];
      i := i + 1;
    }
    WrapStateDone(split, width, w, cuts, sb, lines);
    LayoutConcat(split, cuts);
    LayoutLastLine(split, cuts);
  }

  /** Wraps `text` for a line `width`, measuring with `font` at `fontSize`.
      The text is cut into tokens by Java's `split(" ")`; a token is appended
      to the open line unless the open line's width plus the token's width
      exceeds `width`, in which case the open line is emitted first (so a
      first token that is too wide yields a leading empty line). Every token
      but the last is appended with one trailing space. When splitting yields
      no token at all, the result is `None` (Java's `null`). The ghost `cuts`
      records, per token, whether a line was cut before it; `WrapFacts` and
      `WrapEmptyText` derive the shape of the result from this contract. */
  method SplitStringForWidth(text: string, width: real, m: Metrics, font: Font, fontSize: real)
    returns (r: Option<seq<string>>, ghost cuts: seq<bool>)
    ensures r.None? <==> JavaSplit(text) == []
    ensures r.Some? ==> IsGreedy(JavaSplit(text), width, TextWidth(m, font, fontSize), cuts)
    ensures r.Some? ==> r.value == Layout(Padded(JavaSplit(text)), cuts)
  {
    var split := JavaSplit(text);
    if |split| == 0 {
      r, cuts := None, [];
    } else {
      var lines;
      lines, cuts := WrapTokens(split, width, TextWidth(m, font, fontSize));
      r := Some(lines);
    }
  }

  /** What the greedy layout of a non-empty token sequence looks like. */
  lemma WrapFacts(ts: seq<string>, width: real, w: string -> real, cuts: seq<bool>)
    requires |ts| >= 1
    requires IsGreedy(ts, width, w, cuts)
    ensures var lines := Layout(Padded(ts), cuts);
      && Concat(lines) == JoinSpaces(ts)
      && |lines| == |CutIndices(cuts)| + 1 <= |ts| + 1
      && EndsWith(lines[|lines| - 1], ts[|ts| - 1])
      && (forall k :: 0 <= k < |lines| - 1 ==> lines[k] == "" || SpaceTerminated(lines[k]))
      && (forall k :: 0 < k < |lines| - 1 ==> lines[k] != "")
      && ((|lines| > 1 && lines[0] == "") <==> w("") + w(ts[0]) > width)
  {
    LayoutConcat(ts, cuts);
    LayoutLastLine(ts, cuts);
    LayoutInnerLines(ts, cuts);
    assert GreedyAt(ts, width, w, cuts, 0);
    assert Padded(ts)[0..0] == [];
  }

  /** The empty text is one empty token. It lays out as one empty line
      exactly when twice the width of the empty string fits the limit (the
      code measures the empty buffer plus the empty token); otherwise the
      line is cut before the token and there are two empty lines. */
  lemma WrapEmptyText(width: real, w: string -> real, cuts: seq<bool>)
    requires IsGreedy(JavaSplit(""), width, w, cuts)
    ensures Layout(Padded(JavaSplit("")), cuts) == [""] <==> w("") + w("") <= width
    ensures w("") + w("") > width ==> Layout(Padded(JavaSplit("")), cuts) == ["", ""]
  {
    JavaSplitNoSpace("");
    var p := Padded([""]);
    assert p == [""];
    assert GreedyAt([""], width, w, cuts, 0);
    assert cuts[..0] == [] && p[0..0] == [];
    assert Concat(p[0..0]) == "";
    assert |cuts| == 1 && cuts == [cuts[0]];
    assert [cuts[0]][..0] == [];
    assert p[0..] == p;
    ConcatSingle(p);
    if cuts[0] {
      assert ClosedLines(p, cuts) == ClosedLines(p, []) + [Concat(p[0..0])];
      assert LineStart(cuts) == 0;
      assert Layout(p, cuts) == [""] + [""];
    } else {
      assert ClosedLines(p, cuts) == [] + [];
      assert LineStart(cuts) == 0;
    }
  }

  /** The comparison that admits a token measures the token without the space
      appended after it; that space is counted only when the next token is
      tried. So the space after the last token of a line is never counted
      against that line, and even a measure that adds up character by
      character lets a line overflow: with one unit per character and width
      3, `a b c` wraps as `"a b "` (4 wide) and `"c"`. */
  lemma TrailingSpaceOverflow()
    ensures var ts, cuts, w := ["a", "b", "c"], [false, false, true], (s: string) => |s| as real;
      && IsGreedy(ts, 3.0, w, cuts)
      && Layout(Padded(ts), cuts) == ["a b ", "c"]
      && w("a b ") > 3.0
  {
    var ts, cuts, w := ["a", "b", "c"], [false, false, true], (s: string) => |s| as real;
    var p := Padded(ts);
    assert |p| == 3 && p[0] == "a " && p[1] == "b " && p[2] == "c";
    assert p == ["a ", "b ", "c"];
    assert cuts[..0] == [] && cuts[..1] == [false] && cuts[..2] == [false, false];
    assert LineStart([false]) == 0 && LineStart([false, false]) == 0;
    assert Concat(p[0..0]) == "";
    assert p[0..1] == ["a "] && Concat(["a "]) == Concat([]) + "a ";
    assert p[0..2] == ["a ", "b "] && Concat(["a ", "b "]) == Concat(["a "]) + "b ";
    assert GreedyAt(ts, 3.0, w, cuts, 0) && GreedyAt(ts, 3.0, w, cuts, 1) && GreedyAt(ts, 3.0, w, cuts, 2);
    assert ClosedLines(p, cuts) == ClosedLines(p, [false, false]) + [Concat(p[0..2])];
    assert ClosedLines(p, [false, false]) == [];
    assert LineStart(cuts) == 2 && p[2..] == ["c"];
    ConcatSingle(["c"]);
    assert Concat(p[0..2]) == "a b ";
    assert Layout(p, cuts) == ["a b "] + ["c"];
  }
}
