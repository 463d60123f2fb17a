/**
 What the finder penalty counts, said of modules instead of runs: the places where the line, with a light border on
 both sides, looks like a finder pattern.
 */
module FinderLookalikes {
  import opened FiniteSets
  import opened LinePenalty
  import opened RunLengths
  import opened Sequences

  /** The start of the dark modules, the width of the narrow ones, and the side with the wide light margin. */
  datatype Lookalike = Lookalike(start: nat, unit: nat, wideBefore: bool) {
    function Before(): nat {
      if wideBefore then 4 * unit else unit
    }

    function After(): nat {
      if wideBefore then unit else 4 * unit
    }

    function End(): nat {
      start + 7 * unit
    }
  }

  /** One, one, three, one and one unit in turn dark and light, between light margins of the two widths. */
  ghost predicate Looks(line: seq<bool>, t: Lookalike) {
    var p, n := t.start, t.unit;
    && n >= 1
    && Uniform(line, p - t.Before(), p, false)
    && Uniform(line, p, p + n, true)
    && Uniform(line, p + n, p + 2 * n, false)
    && Uniform(line, p + 2 * n, p + 5 * n, true)
    && Uniform(line, p + 5 * n, p + 6 * n, false)
    && Uniform(line, p + 6 * n, t.End(), true)
    && Uniform(line, t.End(), t.End() + t.After(), false)
  }

  ghost function Lookalikes(line: seq<bool>): set<Lookalike> {
    set p, n, wide: bool | 0 <= p <= |line| && 0 <= n <= |line| && Looks(line, Lookalike(p, n, wide)) ::
      Lookalike(p, n, wide)
  }

  lemma LookalikesAre(line: seq<bool>, t: Lookalike)
    ensures t in Lookalikes(line) <==> Looks(line, t)
  {
    if Looks(line, t) {
      assert t == Lookalike(t.start, t.unit, t.wideBefore);
    }
  }

  // Lengthening the line

  lemma LooksPrefix(line: seq<bool>, more: seq<bool>, t: Lookalike)
    requires t.End() + t.After() <= |line|
    ensures Looks(line + more, t) <==> Looks(line, t)
  {
    hide Uniform;
    var p, n := t.start, t.unit;
    UniformPrefix(line, more, p - t.Before(), p, false);
    UniformPrefix(line, more, p, p + n, true);
    UniformPrefix(line, more, p + n, p + 2 * n, false);
    UniformPrefix(line, more, p + 2 * n, p + 5 * n, true);
    UniformPrefix(line, more, p + 5 * n, p + 6 * n, false);
    UniformPrefix(line, more, p + 6 * n, t.End(), true);
    UniformPrefix(line, more, t.End(), t.End() + t.After(), false);
  }

  /** The last dark unit is dark, and what follows it is light. */
  lemma LooksEnd(line: seq<bool>, t: Lookalike)
    requires Looks(line, t)
    ensures 0 < t.End() < t.End() + t.After() <= |line| && line[t.End() - 1]
    ensures forall i | t.End() <= i < t.End() + t.After() :: !line[i]
  {}

  /** With one more dark and light run: what was there before, and what ends with the new dark run. */
  lemma LooksNext(line: seq<bool>, dark: nat, light: nat, t: Lookalike)
    requires dark > 0 && light > 0
    ensures Looks(line, t) ==> t.End() < |line|
    ensures Looks(line + Solid(dark, true) + Solid(light, false), t) <==>
            || Looks(line, t)
            || (Looks(line + Solid(dark, true) + Solid(light, false), t) && t.End() == |line| + dark)
  {
    hide Looks;
    var all := line + Solid(dark, true) + Solid(light, false);
    assert all == line + (Solid(dark, true) + Solid(light, false));
    if Looks(line, t) {
      LooksEnd(line, t);
      LooksPrefix(line, Solid(dark, true) + Solid(light, false), t);
    } else if Looks(all, t) {
      LooksEnd(all, t);
      if t.End() + t.After() <= |line| {
        LooksPrefix(line, Solid(dark, true) + Solid(light, false), t);
      } else {
        assert all[|line|] && !all[t.End()];
        assert t.End() > |line|;
        assert all[t.End() - 1];
      }
    }
  }

  // The runs of a lookalike

  ghost predicate Positive(runs: seq<nat>) {
    forall i | 0 <= i < |runs| :: runs[i] > 0
  }

  /** A stretch of one colour up to the end of run `j` lies in that run, and fills it if the colour changes there. */
  lemma StretchInRun(runs: seq<nat>, j: nat, from: nat)
    requires Positive(runs) && j < |runs| && from < Offset(runs, j + 1)
    requires Uniform(Expand(runs), from, Offset(runs, j + 1), ColorOf(j))
    ensures Offset(runs, j) <= from
    ensures from > 0 && Expand(runs)[from - 1] != ColorOf(j) ==> from == Offset(runs, j) && j > 0
  {
    hide Expand, ColorOf, Offset;
    OffsetNext(runs, j);
    if j > 0 {
      OffsetNext(runs, j - 1);
      ColorsAlternate(j - 1);
      ModuleInRun(runs, j - 1, Offset(runs, j) - 1);
    } else {
      NoRuns(runs);
    }
    if from > Offset(runs, j) {
      ModuleInRun(runs, j, from - 1);
    }
  }

  /** The condition on seven runs that makes `Patterns` count one side. */
  predicate Shaped(w: seq<nat>, n: nat, wideBefore: bool)
    requires |w| == 7
  {
    && n >= 1 && w[1] == n && w[2] == n && w[3] == 3 * n && w[4] == n && w[5] == n
    && w[0] >= (if wideBefore then 4 * n else n) && w[6] >= (if wideBefore then n else 4 * n)
  }

  lemma PatternsShaped(w: seq<nat>)
    requires |w| == 7
    ensures Patterns(w) == (if Shaped(w, w[1], true) then 1 else 0) + (if Shaped(w, w[1], false) then 1 else 0)
    ensures forall n, wide | Shaped(w, n, wide) :: n == w[1]
  {}

  lemma ColorsBack(m: int)
    requires m % 2 == 1
    ensures !ColorOf(m - 1) && ColorOf(m - 2) && !ColorOf(m - 3) && ColorOf(m - 4)
    ensures !ColorOf(m - 5) && ColorOf(m - 6) && !ColorOf(m - 7)
  {}

  /** Where the last seven runs start, and their colours. */
  lemma LastSeven(runs: seq<nat>)
    requires |runs| >= 7 && |runs| % 2 == 1
    ensures var j, w := |runs| - 7, runs[|runs| - 7..];
            && Offset(runs, j + 1) == Offset(runs, j) + w[0]
            && Offset(runs, j + 2) == Offset(runs, j + 1) + w[1]
            && Offset(runs, j + 3) == Offset(runs, j + 2) + w[2]
            && Offset(runs, j + 4) == Offset(runs, j + 3) + w[3]
            && Offset(runs, j + 5) == Offset(runs, j + 4) + w[4]
            && Offset(runs, j + 6) == Offset(runs, j + 5) + w[5]
            && Offset(runs, j + 7) == Offset(runs, j + 6) + w[6]
            && !ColorOf(j) && ColorOf(j + 1) && !ColorOf(j + 2) && ColorOf(j + 3)
            && !ColorOf(j + 4) && ColorOf(j + 5) && !ColorOf(j + 6)
  {
    hide Offset, ColorOf;
    var j := |runs| - 7;
    OffsetNext(runs, j);
    OffsetNext(runs, j + 1);
    OffsetNext(runs, j + 2);
    OffsetNext(runs, j + 3);
    OffsetNext(runs, j + 4);
    OffsetNext(runs, j + 5);
    OffsetNext(runs, j + 6);
    ColorsBack(|runs|);
  }

  lemma ShapedLooks(runs: seq<nat>, t: Lookalike)
    requires Positive(runs) && |runs| >= 7 && |runs| % 2 == 1
    requires Shaped(runs[|runs| - 7..], t.unit, t.wideBefore) && t.End() == Offset(runs, |runs| - 1)
    ensures Looks(Expand(runs), t)
  {
    hide Uniform, Expand, Offset, ColorOf, Positive;
    var j, line := |runs| - 7, Expand(runs);
    LastSeven(runs);
    RunIsUniform(runs, j);
    RunIsUniform(runs, j + 1);
    RunIsUniform(runs, j + 2);
    RunIsUniform(runs, j + 3);
    RunIsUniform(runs, j + 4);
    RunIsUniform(runs, j + 5);
    RunIsUniform(runs, j + 6);
    var p, e := t.start, t.End();
    assert p == Offset(runs, j + 1) && e == Offset(runs, j + 6);
    PartUniform(line, Offset(runs, j), p, p - t.Before(), p, false);
    PartUniform(line, e, Offset(runs, j + 7), e, e + t.After(), false);
  }

  /** The colour changes at every boundary inside a lookalike. */
  lemma LooksChanges(line: seq<bool>, t: Lookalike)
    requires Looks(line, t)
    ensures var p, n := t.start, t.unit;
            && n >= 1 && t.Before() <= p && t.End() + t.After() <= |line|
            && !line[p - 1] && line[p + n - 1] && !line[p + 2 * n - 1] && line[p + 5 * n - 1] && !line[p + 6 * n - 1]
  {}

  /** The parts of a lookalike that ends with the last dark run are the runs before it, one by one. */
  lemma PartsAreRuns(runs: seq<nat>, t: Lookalike)
    requires Positive(runs) && |runs| % 2 == 1 && |runs| > 1
    requires Looks(Expand(runs), t) && t.End() == Offset(runs, |runs| - 1)
    ensures var m, p, n := |runs|, t.start, t.unit;
            && m >= 7 && Offset(runs, m - 2) == p + 6 * n && Offset(runs, m - 3) == p + 5 * n
            && Offset(runs, m - 4) == p + 2 * n && Offset(runs, m - 5) == p + n
            && Offset(runs, m - 6) == p && Offset(runs, m - 7) <= p - t.Before()
  {
    hide Uniform, Expand, Offset, Positive, ColorOf;
    var m, p, n := |runs|, t.start, t.unit;
    ColorsBack(m);
    LooksChanges(Expand(runs), t);
    StretchInRun(runs, m - 2, p + 6 * n);
    assert p + 6 * n == Offset(runs, m - 2);
    StretchInRun(runs, m - 3, p + 5 * n);
    assert p + 5 * n == Offset(runs, m - 3);
    StretchInRun(runs, m - 4, p + 2 * n);
    assert p + 2 * n == Offset(runs, m - 4);
    StretchInRun(runs, m - 5, p + n);
    assert p + n == Offset(runs, m - 5);
    StretchInRun(runs, m - 6, p);
    assert p == Offset(runs, m - 6);
    StretchInRun(runs, m - 7, p - t.Before());
  }

  lemma LooksShaped(runs: seq<nat>, t: Lookalike)
    requires Positive(runs) && |runs| % 2 == 1 && |runs| > 1
    requires Looks(Expand(runs), t) && t.End() == Offset(runs, |runs| - 1)
    ensures |runs| >= 7 && Shaped(runs[|runs| - 7..], t.unit, t.wideBefore)
  {
    hide Looks, Expand, Offset, Positive, ColorOf;
    PartsAreRuns(runs, t);
    LooksChanges(Expand(runs), t);
    LastSeven(runs);
    WholeLine(runs);
  }

  /** What a last light run and the dark run before it add. */
  ghost function Latest(runs: seq<nat>): set<Lookalike>
    requires |runs| > 0
  {
    if |runs| < 7 then {}
    else
      var w, e := runs[|runs| - 7..], Offset(runs, |runs| - 1);
      (if Shaped(w, w[1], true) && e >= 7 * w[1] then {Lookalike(e - 7 * w[1], w[1], true)} else {})
      + (if Shaped(w, w[1], false) && e >= 7 * w[1] then {Lookalike(e - 7 * w[1], w[1], false)} else {})
  }

  lemma LatestAre(runs: seq<nat>, t: Lookalike)
    requires Positive(runs) && |runs| % 2 == 1 && |runs| > 1
    ensures t in Latest(runs) <==> Looks(Expand(runs), t) && t.End() == Offset(runs, |runs| - 1)
  {
    hide Looks, Expand, Offset, Positive;
    if |runs| >= 7 {
      PatternsShaped(runs[|runs| - 7..]);
      if t in Latest(runs) {
        ShapedLooks(runs, t);
      }
    }
    if Looks(Expand(runs), t) && t.End() == Offset(runs, |runs| - 1) {
      LooksShaped(runs, t);
    }
  }

  lemma LatestSize(runs: seq<nat>)
    requires |runs| % 2 == 1
    ensures |Latest(runs)| == if |runs| < 7 then 0 else Patterns(runs[|runs| - 7..])
  {
    hide Offset, Patterns;
    if |runs| >= 7 {
      LastSeven(runs);
      PatternsShaped(runs[|runs| - 7..]);
    }
  }

  /** Lookalikes of a line with one more dark and light run. */
  lemma LookalikesNext(runs: seq<nat>)
    requires Positive(runs) && |runs| % 2 == 1 && |runs| > 1
    ensures |Lookalikes(Expand(runs))| == |Lookalikes(Expand(runs[..|runs| - 2]))| + |Latest(runs)|
  {
    hide Looks, Expand, Lookalikes, Latest, ColorOf;
    var m := |runs|;
    var shorter, line := Expand(runs[..m - 2]), Expand(runs);
    ColorsBack(m);
    PrefixExpands(runs, m - 2);
    PrefixExpands(runs, m - 1);
    assert runs[..m] == runs;
    forall t: Lookalike
      ensures t in Lookalikes(line) <==> t in Lookalikes(shorter) || t in Latest(runs)
      ensures !(t in Lookalikes(shorter) && t in Latest(runs))
    {
      LookalikesAre(line, t);
      LookalikesAre(shorter, t);
      LatestAre(runs, t);
      LooksNext(shorter, runs[m - 2], runs[m - 1], t);
    }
    assert Lookalikes(line) == Lookalikes(shorter) + Latest(runs);
    UnionSize(Lookalikes(shorter), Latest(runs));
  }

  lemma NoLookalikes(n: nat)
    ensures |Lookalikes(Expand([n]))| == 0
  {
    var line := Expand([n]);
    ExpandOne(n);
    forall t: Lookalike
      ensures t !in Lookalikes(line)
    {
      if Looks(line, t) {
        LooksEnd(line, t);
      }
      LookalikesAre(line, t);
    }
  }

  lemma FinderCountTwoMore(runs: seq<nat>)
    requires |runs| % 2 == 1 && |runs| > 1
    ensures FinderCount(runs) ==
            FinderCount(runs[..|runs| - 2]) + (if |runs| < 7 then 0 else Patterns(runs[|runs| - 7..]))
  {
    hide FinderCount, Patterns;
    var m := |runs|;
    FinderCountUnfold(runs);
    FinderCountUnfold(runs[..m - 1]);
    FinderCountUnfold(runs[..m - 2]);
    assert runs[..m - 1][..m - 2] == runs[..m - 2];
  }

  /** The windows of seven runs that match are as many as the lookalikes in the line. */
  lemma {:induction false} CountLookalikes(runs: seq<nat>)
    requires Positive(runs) && |runs| % 2 == 1
    ensures |Lookalikes(Expand(runs))| == FinderCount(runs)
  {
    hide Lookalikes, Expand, FinderCount, Patterns, Latest;
    if |runs| == 1 {
      assert runs == [runs[0]];
      NoLookalikes(runs[0]);
      FinderCountUnfold(runs);
    } else {
      var shorter := runs[..|runs| - 2];
      CountLookalikes(shorter);
      LookalikesNext(runs);
      LatestSize(runs);
      FinderCountTwoMore(runs);
    }
  }

  // The border

  lemma {:induction false} BorderFirstExpands(runs: seq<nat>, n: nat)
    requires |runs| > 0
    ensures Expand(BorderFirst(runs, n)) == Solid(n, false) + Expand(runs)
  {
    hide Expand, Solid, ColorOf;
    var k := |runs| - 1;
    if k == 0 {
      assert runs == [runs[0]] && BorderFirst(runs, n) == [n + runs[0]];
      ExpandOne(runs[0]);
      ExpandOne(n + runs[0]);
      SolidSum(n, runs[0], false);
    } else {
      BorderFirstExpands(runs[..k], n);
      ExpandLast(runs[..k], runs[k]);
      ExpandLast(BorderFirst(runs[..k], n), runs[k]);
      assert runs[..k] + [runs[k]] == runs;
      assert BorderFirst(runs[..k], n) + [runs[k]] == BorderFirst(runs, n);
    }
  }

  lemma LengthenLast(before: seq<nat>, last: nat, n: nat)
    requires !ColorOf(|before|)
    ensures Expand(before + [last + n]) == Expand(before + [last]) + Solid(n, false)
  {
    hide Expand, Solid, ColorOf;
    ExpandLast(before, last);
    ExpandLast(before, last + n);
    SolidSum(last, n, false);
    AppendAssociates(Expand(before), Solid(last, false), Solid(n, false));
  }

  lemma BorderedIs(runs: seq<nat>, n: nat)
    requires |runs| > 0
    ensures var r := BorderFirst(runs, n); var k := |r| - 1;
            && ColorOf(k) != ColorOf(|r|)
            && Bordered(runs, n) == if ColorOf(k) then r + [n] else r[..k] + [r[k] + n]
  {
    hide BorderFirst;
  }

  lemma BorderedAppends(runs: seq<nat>, n: nat)
    requires |runs| > 0
    ensures Expand(Bordered(runs, n)) == Expand(BorderFirst(runs, n)) + Solid(n, false)
  {
    hide Expand, BorderFirst, Bordered, Solid, ColorOf;
    BorderedIs(runs, n);
    var r := BorderFirst(runs, n);
    if ColorOf(|r| - 1) {
      ExpandLast(r, n);
    } else {
      var k := |r| - 1;
      assert r == r[..k] + [r[k]];
      LengthenLast(r[..k], r[k], n);
    }
  }

  /** The bordered runs are those of the line between two light borders. */
  lemma BorderedExpands(runs: seq<nat>, n: nat)
    requires |runs| > 0
    ensures Expand(Bordered(runs, n)) == Solid(n, false) + Expand(runs) + Solid(n, false)
  {
    hide Expand, BorderFirst, Bordered, Solid;
    BorderFirstExpands(runs, n);
    BorderedAppends(runs, n);
  }

  lemma BorderedPositive(runs: seq<nat>, n: nat)
    requires Canonical(runs) && n > 0
    ensures Positive(Bordered(runs, n)) && |Bordered(runs, n)| % 2 == 1
  {}

  /** The line with as many light modules before and after it as it has itself. */
  function Framed(line: seq<bool>): seq<bool> {
    Solid(|line|, false) + line + Solid(|line|, false)
  }

  /** The finder patterns counted in a line are the places where the framed line looks like one. */
  lemma FinderCountMeans(line: seq<bool>)
    requires |line| > 0
    ensures FinderCount(Bordered(Runs(line), |line|)) == |Lookalikes(Framed(line))|
  {
    hide Expand, Bordered, Positive, FinderCount, Lookalikes, Runs, Solid;
    var runs, n := Runs(line), |line|;
    BorderedPositive(runs, n);
    BorderedExpands(runs, n);
    ExpandRuns(line);
    CountLookalikes(Bordered(runs, n));
  }
}
