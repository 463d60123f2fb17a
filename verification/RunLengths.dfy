/** Run lengths of a line of modules, and the penalties that depend on them. */
module RunLengths {

  /** Runs alternate in colour, the first is white. */
  predicate ColorOf(i: int) {
    i % 2 == 1
  }

  function Solid(n: nat, color: bool): (line: seq<bool>)
    ensures |line| == n && forall i | 0 <= i < n :: line[i] == color
  {
    seq(n, _ => color)
  }

  lemma ColorsAlternate(i: int)
    ensures ColorOf(i + 1) != ColorOf(i)
  {}

  /** The line that a list of runs describes. */
  function Expand(runs: seq<nat>): seq<bool> {
    if |runs| == 0 then []
    else var k := |runs| - 1; Expand(runs[..k]) + Solid(runs[k], ColorOf(k))
  }

  /** There is a first run, and every other run is non-empty. */
  ghost predicate Canonical(runs: seq<nat>) {
    |runs| > 0 && forall i | 1 <= i < |runs| :: runs[i] > 0
  }

  /** The runs of a line. */
  function Runs(line: seq<bool>): (runs: seq<nat>)
    ensures Canonical(runs) && |runs| <= |line| + 1
  {
    if |line| == 0 then [0]
    else Extend(Runs(line[..|line| - 1]), line[|line| - 1])
  }

  /** One more module. */
  function Extend(runs: seq<nat>, color: bool): (r: seq<nat>)
    requires Canonical(runs)
    ensures Canonical(r) && |r| <= |runs| + 1
  {
    var k := |runs| - 1;
    if color == ColorOf(k) then runs[..k] + [runs[k] + 1] else runs + [1]
  }

  lemma ExtendIs(runs: seq<nat>, color: bool)
    requires Canonical(runs)
    ensures var k := |runs| - 1;
            Extend(runs, color) == if color == ColorOf(k) then runs[..k] + [runs[k] + 1] else runs + [1]
  {}

  lemma RunsNext(line: seq<bool>, x: nat)
    requires x < |line|
    ensures Runs(line[..x + 1]) == Extend(Runs(line[..x]), line[x])
  {
    assert line[..x + 1][..x] == line[..x];
  }

  lemma ExpandLast(runs: seq<nat>, n: nat)
    ensures Expand(runs + [n]) == Expand(runs) + Solid(n, ColorOf(|runs|))
  {
    assert (runs + [n])[..|runs|] == runs;
  }

  lemma ExpandOne(n: nat)
    ensures Expand([n]) == Solid(n, false)
  {
    assert [n][..0] == [];
  }

  lemma SolidSum(a: nat, b: nat, color: bool)
    ensures Solid(a + b, color) == Solid(a, color) + Solid(b, color)
  {}

  lemma SolidNext(line: seq<bool>, n: nat, color: bool)
    ensures line + Solid(n + 1, color) == line + Solid(n, color) + [color]
  {
    hide Solid;
  }

  lemma SolidOne(color: bool)
    ensures Solid(1, color) == [color]
  {}

  lemma ExpandExtend(runs: seq<nat>, color: bool)
    requires Canonical(runs)
    ensures Expand(Extend(runs, color)) == Expand(runs) + [color]
  {
    hide Expand, Solid, ColorOf;
    var k := |runs| - 1;
    ColorsAlternate(k);
    if color == ColorOf(k) {
      var first, n := runs[..k], runs[k];
      assert runs == first + [n];
      ExpandLast(first, n);
      ExpandLast(first, n + 1);
      SolidNext(Expand(first), n, color);
    } else {
      ExpandLast(runs, 1);
      SolidOne(color);
    }
  }

  /** The runs of a line describe it. */
  lemma {:induction false} ExpandRuns(line: seq<bool>)
    ensures Expand(Runs(line)) == line
  {
    hide Expand, Extend;
    if |line| == 0 {
      ExpandNothing();
    } else {
      var n := |line| - 1;
      ExpandRuns(line[..n]);
      ExpandExtend(Runs(line[..n]), line[n]);
      assert line == line[..n] + [line[n]];
    }
  }

  /** No other canonical list describes the line: the runs are maximal. */
  lemma {:induction false} RunsExpand(runs: seq<nat>)
    requires Canonical(runs)
    ensures Runs(Expand(runs)) == runs
    decreases |runs|, runs[|runs| - 1]
  {
    hide Expand, Extend, Runs, ColorOf;
    var k := |runs| - 1;
    if runs[k] == 0 {
      assert k == 0;
      assert runs == [0];
      ExpandNothing();
    } else {
      var fewer := if runs[k] == 1 && k > 0 then runs[..k] else runs[..k] + [runs[k] - 1];
      ExtendFewer(runs, fewer);
      RunsExpand(fewer);
      ExpandExtend(fewer, ColorOf(k));
      RunsSnoc(Expand(fewer), ColorOf(k));
    }
  }

  lemma ExpandNothing()
    ensures Expand([0]) == [] && Runs([]) == [0]
  {
    assert [0][..0] == [];
  }

  lemma ExtendFewer(runs: seq<nat>, fewer: seq<nat>)
    requires Canonical(runs) && runs[|runs| - 1] > 0
    requires var k := |runs| - 1;
             fewer == if runs[k] == 1 && k > 0 then runs[..k] else runs[..k] + [runs[k] - 1]
    ensures Canonical(fewer) && Extend(fewer, ColorOf(|runs| - 1)) == runs
  {
    var k := |runs| - 1;
    assert runs == runs[..k] + [runs[k]];
    if !(runs[k] == 1 && k > 0) {
      assert fewer[..k] == runs[..k];
    }
  }

  lemma RunsSnoc(line: seq<bool>, color: bool)
    ensures Runs(line + [color]) == Extend(Runs(line), color)
  {
    RunsNext(line + [color], |line|);
    assert (line + [color])[..|line| + 1] == line + [color] && (line + [color])[..|line|] == line;
  }

  // Where the runs lie

  /** The modules in a range all have the colour. */
  ghost predicate Uniform(line: seq<bool>, from: int, to: int, color: bool) {
    0 <= from <= to <= |line| && forall i | from <= i < to :: line[i] == color
  }

  lemma UniformPrefix(line: seq<bool>, more: seq<bool>, from: int, to: int, color: bool)
    requires to <= |line|
    ensures Uniform(line + more, from, to, color) <==> Uniform(line, from, to, color)
  {
    if Uniform(line + more, from, to, color) {
      forall i | from <= i < to
        ensures line[i] == color
      {
        assert (line + more)[i] == color;
      }
    }
  }

  lemma PartUniform(line: seq<bool>, from: int, to: int, a: int, b: int, color: bool)
    requires Uniform(line, from, to, color) && from <= a <= b <= to
    ensures Uniform(line, a, b, color)
  {}

  /** Where run `j` starts. */
  function Offset(runs: seq<nat>, j: nat): nat
    requires j <= |runs|
  {
    |Expand(runs[..j])|
  }

  lemma PrefixExpands(runs: seq<nat>, j: nat)
    requires j < |runs|
    ensures Expand(runs[..j + 1]) == Expand(runs[..j]) + Solid(runs[j], ColorOf(j))
    ensures Offset(runs, j + 1) == Offset(runs, j) + runs[j]
  {
    hide Expand, Solid, ColorOf;
    assert runs[..j + 1] == runs[..j] + [runs[j]];
    ExpandLast(runs[..j], runs[j]);
  }

  lemma OffsetNext(runs: seq<nat>, j: nat)
    requires j < |runs|
    ensures Offset(runs, j + 1) == Offset(runs, j) + runs[j]
  {
    hide Expand;
    PrefixExpands(runs, j);
  }

  lemma {:induction false} PrefixOfLine(runs: seq<nat>, j: nat) returns (more: seq<bool>)
    requires j <= |runs|
    ensures Expand(runs) == Expand(runs[..j]) + more
    decreases |runs| - j
  {
    hide Expand, Solid, ColorOf;
    if j == |runs| {
      more := [];
      assert runs[..j] == runs;
    } else {
      var rest := PrefixOfLine(runs, j + 1);
      PrefixExpands(runs, j);
      more := Solid(runs[j], ColorOf(j)) + rest;
    }
  }

  /** The modules of run `j`. */
  lemma RunIsUniform(runs: seq<nat>, j: nat)
    requires j < |runs|
    ensures Uniform(Expand(runs), Offset(runs, j), Offset(runs, j) + runs[j], ColorOf(j))
  {
    hide Expand, ColorOf;
    PrefixExpands(runs, j);
    var more := PrefixOfLine(runs, j + 1);
    UniformPrefix(Expand(runs[..j + 1]), more, Offset(runs, j), Offset(runs, j) + runs[j], ColorOf(j));
  }

  lemma ModuleInRun(runs: seq<nat>, j: nat, i: nat)
    requires j < |runs| && Offset(runs, j) <= i < Offset(runs, j) + runs[j]
    ensures i < |Expand(runs)| && Expand(runs)[i] == ColorOf(j)
  {
    hide Expand, Offset, ColorOf;
    RunIsUniform(runs, j);
  }

  lemma NoRuns(runs: seq<nat>)
    ensures Offset(runs, 0) == 0
  {}

  lemma WholeLine(runs: seq<nat>)
    ensures Offset(runs, |runs|) == |Expand(runs)|
  {
    assert runs[..|runs|] == runs;
  }
}
