/** The penalty of one row or column: long runs of one colour, and patterns that look like a finder. */
module LinePenalty {
  import opened Outcomes
  import opened RunLengths

  const PENALTY_N1 := 3
  const PENALTY_N3 := 40

  // What a line costs

  /** A run of length 5 costs 3 and each further module 1. */
  function RunCost(n: nat): nat {
    if n < 5 then 0 else n - 5 + PENALTY_N1
  }

  function RunScore(runs: seq<nat>): nat {
    if |runs| == 0 then 0 else RunScore(runs[..|runs| - 1]) + RunCost(runs[|runs| - 1])
  }

  /** Five runs 1:1:3:1:1 with light runs on both sides, counted once for each side that is four times as long. */
  function Patterns(w: seq<nat>): (count: nat)
    requires |w| == 7
    ensures count <= 2
  {
    var n := w[1];
    var core := n > 0 && w[2] == n && w[3] == n * 3 && w[4] == n && w[5] == n;
    (if core && w[0] >= n * 4 && w[6] >= n then 1 else 0) + (if core && w[6] >= n * 4 && w[0] >= n then 1 else 0)
  }

  /** The patterns in all windows of seven runs that start and end with a white one. */
  function FinderCount(runs: seq<nat>): nat {
    if |runs| < 7 then 0
    else FinderCount(runs[..|runs| - 1]) + (if ColorOf(|runs| - 1) then 0 else Patterns(runs[|runs| - 7..]))
  }

  function BorderFirst(runs: seq<nat>, n: nat): (r: seq<nat>)
    ensures |r| == |runs|
  {
    if |runs| == 0 then [] else [runs[0] + n] + runs[1..]
  }

  /** The runs with a white border of length n before the first run and after the last. */
  function Bordered(runs: seq<nat>, n: nat): seq<nat>
    requires |runs| > 0
  {
    var r := BorderFirst(runs, n);
    if |r| % 2 == 1 then r[..|r| - 1] + [r[|r| - 1] + n] else r + [n]
  }

  function LineScore(line: seq<bool>): nat {
    RunScore(Runs(line)) + PENALTY_N3 * FinderCount(Bordered(Runs(line), |line|))
  }

  // The history of the last seven runs, the latest first

  function Recent(runs: seq<nat>): (h: seq<nat>)
    ensures |h| == 7
  {
    seq(7, k requires 0 <= k < 7 => if k < |runs| then runs[|runs| - 1 - k] else 0)
  }

  lemma RecentNext(runs: seq<nat>, n: nat)
    ensures Recent(runs + [n]) == [n] + Recent(runs)[..6]
  {}

  lemma PatternsRecent(runs: seq<nat>)
    ensures Patterns(Recent(runs)) == if |runs| < 7 then 0 else Patterns(runs[|runs| - 7..])
  {}

  lemma FinderCountNext(runs: seq<nat>, n: nat)
    ensures FinderCount(runs + [n]) ==
            FinderCount(runs) + (if ColorOf(|runs|) then 0 else Patterns(Recent(runs + [n])))
  {
    hide Patterns, Recent, ColorOf, FinderCount;
    var all := runs + [n];
    assert all[..|runs|] == runs;
    PatternsRecent(all);
    FinderCountUnfold(all);
    if |all| < 7 {
      FinderCountUnfold(runs);
    }
  }

  lemma FinderCountUnfold(runs: seq<nat>)
    ensures FinderCount(runs) == if |runs| < 7 then 0 else
            FinderCount(runs[..|runs| - 1]) + (if ColorOf(|runs| - 1) then 0 else Patterns(runs[|runs| - 7..]))
  {}

  lemma RunScoreNext(runs: seq<nat>, n: nat)
    ensures RunScore(runs + [n]) == RunScore(runs) + RunCost(n)
  {
    assert (runs + [n])[..|runs|] == runs;
  }

  /** The history after one more run; the first run gets the white border. */
  function Added(size: nat, length: nat, h: seq<nat>): (r: seq<nat>)
    requires |h| == 7
    ensures |r| == 7
  {
    [if h[0] == 0 then length + size else length] + h[..6]
  }

  /** `finderPenaltyAddHistory` */
  method AddHistory(size: nat, currentRunLength: nat, history: array<nat>)
    requires history.Length == 7
    modifies history
    ensures history[..] == Added(size, currentRunLength, old(history[..]))
  {
    var length := currentRunLength;
    if history[0] == 0 {
      length := length + size;
    }
    for k := 6 downto 0
      invariant forall i | 0 <= i <= k :: history[i] == old(history[i])
      invariant forall i | k < i < 7 :: history[i] == old(history[i - 1])
    {
      history[k + 1] := history[k];
    }
    history[0] := length;
  }

  /** `finderPenaltyCountPatterns` */
  method CountPatterns(size: nat, history: array<nat>) returns (r: Result<nat>)
    requires history.Length == 7
    ensures r == if history[1] > size * 3 then Failure(AssertionError) else Success(Patterns(history[..]))
  {
    var n := history[1];
    if n > size * 3 {
      return Failure(AssertionError);
    }
    var core := n > 0 && history[2] == n && history[3] == n * 3 && history[4] == n && history[5] == n;
    return Success((if core && history[0] >= n * 4 && history[6] >= n then 1 else 0)
                   + (if core && history[6] >= n * 4 && history[0] >= n then 1 else 0));
  }

  /** The history when the line ends: a black run is closed, then the last white run gets the border. */
  function Terminated(size: nat, color: bool, length: nat, h: seq<nat>): (r: seq<nat>)
    requires |h| == 7
    ensures |r| == 7
  {
    if color then Added(size, size, Added(size, length, h)) else Added(size, length + size, h)
  }

  /** `finderPenaltyTerminateAndCount` */
  method TerminateAndCount(size: nat, color: bool, length: nat, history: array<nat>) returns (r: Result<nat>)
    requires history.Length == 7
    modifies history
    ensures history[..] == Terminated(size, color, length, old(history[..]))
    ensures r == if history[1] > size * 3 then Failure(AssertionError) else Success(Patterns(history[..]))
  {
    hide Added, Patterns;
    var currentRunLength := length;
    if color {
      AddHistory(size, currentRunLength, history);
      currentRunLength := 0;
    }
    currentRunLength := currentRunLength + size;
    AddHistory(size, currentRunLength, history);
    r := CountPatterns(size, history);
  }

  // The history holds the runs before the current one

  /** The runs before run k, with the border. */
  function Before(runs: seq<nat>, k: nat, n: nat): (r: seq<nat>)
    requires k <= |runs|
    ensures |r| == k
  {
    BorderFirst(runs[..k], n)
  }

  lemma BeforeNext(runs: seq<nat>, k: nat, n: nat)
    requires k < |runs|
    ensures Before(runs, k + 1, n) == Before(runs, k, n) + [if k == 0 then runs[0] + n else runs[k]]
  {}

  lemma HistoryStarts(runs: seq<nat>, k: nat, n: nat)
    requires Canonical(runs) && k <= |runs| && n > 0
    ensures Recent(Before(runs, k, n))[0] == 0 <==> k == 0
  {}

  lemma HistoryNext(runs: seq<nat>, k: nat, n: nat)
    requires Canonical(runs) && k < |runs| && n > 0
    ensures Recent(Before(runs, k + 1, n)) == Added(n, runs[k], Recent(Before(runs, k, n)))
    ensures FinderCount(Before(runs, k + 1, n)) == FinderCount(Before(runs, k, n))
            + (if ColorOf(k) then 0 else Patterns(Recent(Before(runs, k + 1, n))))
  {
    hide Recent, Before, Patterns, FinderCount;
    BeforeNext(runs, k, n);
    HistoryStarts(runs, k, n);
    var last := if k == 0 then runs[0] + n else runs[k];
    RecentNext(Before(runs, k, n), last);
    FinderCountNext(Before(runs, k, n), last);
  }

  lemma HistoryEnds(runs: seq<nat>, n: nat)
    requires Canonical(runs) && n > 0
    ensures var k := |runs| - 1; var h := Recent(Before(runs, k, n));
            && Terminated(n, ColorOf(k), runs[k], h) == Recent(Bordered(runs, n))
            && FinderCount(Bordered(runs, n)) == FinderCount(Before(runs, k, n)) + Patterns(Recent(Bordered(runs, n)))
  {
    hide Recent, Before, Patterns, FinderCount, Bordered, Terminated;
    if ColorOf(|runs| - 1) {
      HistoryEndsBlack(runs, n);
    } else {
      HistoryEndsWhite(runs, n);
    }
  }

  lemma HistoryEndsBlack(runs: seq<nat>, n: nat)
    requires Canonical(runs) && n > 0 && ColorOf(|runs| - 1)
    ensures var k := |runs| - 1; var h := Recent(Before(runs, k, n));
            && Terminated(n, true, runs[k], h) == Recent(Bordered(runs, n))
            && FinderCount(Bordered(runs, n)) == FinderCount(Before(runs, k, n)) + Patterns(Recent(Bordered(runs, n)))
  {
    hide Recent, Before, Patterns, FinderCount, Bordered;
    var k := |runs| - 1;
    HistoryNext(runs, k, n);
    BlackEnd(runs, n);
    HistoryStarts(runs, k + 1, n);
    RecentNext(Before(runs, k + 1, n), n);
    FinderCountNext(Before(runs, k + 1, n), n);
  }

  lemma HistoryEndsWhite(runs: seq<nat>, n: nat)
    requires Canonical(runs) && n > 0 && !ColorOf(|runs| - 1)
    ensures var k := |runs| - 1; var h := Recent(Before(runs, k, n));
            && Terminated(n, false, runs[k], h) == Recent(Bordered(runs, n))
            && FinderCount(Bordered(runs, n)) == FinderCount(Before(runs, k, n)) + Patterns(Recent(Bordered(runs, n)))
  {
    hide Recent, Before, Patterns, FinderCount, Bordered, ColorOf;
    var k := |runs| - 1;
    HistoryStarts(runs, k, n);
    WhiteEnd(runs, n);
    var last := if k == 0 then runs[0] + n + n else runs[k] + n;
    RecentNext(Before(runs, k, n), last);
    FinderCountNext(Before(runs, k, n), last);
  }

  lemma BlackEnd(runs: seq<nat>, n: nat)
    requires |runs| > 0 && ColorOf(|runs| - 1)
    ensures Bordered(runs, n) == Before(runs, |runs|, n) + [n]
  {
    assert runs[..|runs|] == runs;
  }

  lemma WhiteEnd(runs: seq<nat>, n: nat)
    requires |runs| > 0 && !ColorOf(|runs| - 1)
    ensures var k := |runs| - 1;
            Bordered(runs, n) == Before(runs, k, n) + [if k == 0 then runs[0] + n + n else runs[k] + n]
  {
    var k := |runs| - 1;
    BeforeNext(runs, k, n);
    assert runs[..|runs|] == runs;
    assert Before(runs, k + 1, n)[..k] == Before(runs, k, n);
  }

  // Scoring a line

  ghost predicate AllAtMost(runs: seq<nat>, bound: nat) {
    forall i | 0 <= i < |runs| :: runs[i] <= bound
  }

  lemma ExtendAtMost(runs: seq<nat>, color: bool, bound: nat)
    requires Canonical(runs) && AllAtMost(runs, bound)
    ensures AllAtMost(Extend(runs, color), bound + 1)
  {
    hide ColorOf;
  }

  lemma {:induction false} RunsFit(line: seq<bool>)
    ensures AllAtMost(Runs(line), |line|)
  {
    hide Extend, AllAtMost;
    if |line| == 0 {
      NoModules();
    } else {
      var n := |line| - 1;
      RunsFit(line[..n]);
      ExtendAtMost(Runs(line[..n]), line[n], n);
    }
  }

  lemma NoModules()
    ensures AllAtMost(Runs([]), 0)
  {}

  /** The check on the run history never fails: the black run in it is no longer than the line. */
  lemma BlackRunFits(line: seq<bool>, k: nat, n: nat)
    requires k < |Runs(line)| && !ColorOf(k) && |line| <= n
    ensures Recent(Before(Runs(line), k + 1, n))[1] <= n
    ensures k == |Runs(line)| - 1 ==> Recent(Bordered(Runs(line), n))[1] <= n
  {
    hide Runs;
    RunsFit(line);
    assert k > 0 ==> Runs(line)[k - 1] <= n;
  }

  lemma LastBlackRunFits(line: seq<bool>, n: nat)
    requires ColorOf(|Runs(line)| - 1) && |line| <= n
    ensures Recent(Bordered(Runs(line), n))[1] <= n
  {
    hide Runs;
    var k := |Runs(line)| - 1;
    RunsFit(line);
    BlackEnd(Runs(line), n);
    assert k >= 1 && Before(Runs(line), k + 1, n)[k] == Runs(line)[k];
  }

  lemma RunScoreExtend(runs: seq<nat>, color: bool)
    requires Canonical(runs)
    ensures var k := |runs| - 1;
            RunScore(Extend(runs, color)) == RunScore(runs) +
              if color == ColorOf(k) then RunCost(runs[k] + 1) - RunCost(runs[k]) else RunCost(1)
  {
    hide RunScore, ColorOf, RunCost, Extend;
    var k := |runs| - 1;
    ExtendIs(runs, color);
    if color == ColorOf(k) {
      RunScoreLast(runs, runs[k]);
      RunScoreLast(runs, runs[k] + 1);
    } else {
      RunScoreNext(runs, 1);
    }
  }

  lemma RunScoreLast(runs: seq<nat>, n: nat)
    requires |runs| > 0
    ensures var k := |runs| - 1;
            && RunScore(runs[..k] + [n]) == RunScore(runs[..k]) + RunCost(n)
            && runs[..k] + [runs[k]] == runs
  {
    hide RunScore, RunCost;
    RunScoreNext(runs[..|runs| - 1], n);
  }

  /** The body of `getPenaltyScore` for one row or column. */
  method ScoreLine(line: seq<bool>) returns (result: nat)
    requires |line| > 0
    ensures result == LineScore(line)
  {
    hide Runs, RunScore, FinderCount, Before, Recent, Patterns, ColorOf, Added, Bordered, Terminated;
    var size := |line|;
    var runColor := false;
    var runX := 0;
    var history := new nat[7](_ => 0);
    result := 0;
    ScoreStarts(line);
    for x := 0 to size
      invariant runX == Current(line, x) && runColor == CurrentColor(line, x)
      invariant history[..] == Recent(Done(line, x))
      invariant result == RunScore(Runs(line[..x])) + PENALTY_N3 * FinderCount(Done(line, x))
    {
      ScoreStep(line, x);
      if line[x] == runColor {
        runX := runX + 1;
        if runX == 5 {
          result := result + PENALTY_N1;
        } else if runX > 5 {
          result := result + 1;
        }
      } else {
        AddHistory(size, runX, history);
        if !runColor {
          var r := CountPatterns(size, history);
          match r {
            case Failure(_) => assert false;
            case Success(count) => result := result + count * PENALTY_N3;
          }
        }
        runColor := line[x];
        runX := 1;
      }
    }
    ScoreEnds(line);
    var r := TerminateAndCount(size, runColor, runX, history);
    match r {
      case Failure(_) => assert false;
      case Success(count) => result := result + count * PENALTY_N3;
    }
  }

  function Current(line: seq<bool>, x: nat): nat
    requires x <= |line|
  {
    var runs := Runs(line[..x]); runs[|runs| - 1]
  }

  predicate CurrentColor(line: seq<bool>, x: nat)
    requires x <= |line|
  {
    ColorOf(|Runs(line[..x])| - 1)
  }

  function Done(line: seq<bool>, x: nat): seq<nat>
    requires x <= |line|
  {
    var runs := Runs(line[..x]); Before(runs, |runs| - 1, |line|)
  }

  lemma ScoreStarts(line: seq<bool>)
    ensures Current(line, 0) == 0 && !CurrentColor(line, 0) && RunScore(Runs(line[..0])) == 0
    ensures FinderCount(Done(line, 0)) == 0 && Recent(Done(line, 0)) == [0, 0, 0, 0, 0, 0, 0]
  {
    assert line[..0] == [];
    assert Runs(line[..0]) == [0];
    assert [0][..0] == [];
    assert RunScore([0]) == 0;
  }

  lemma ScoreStep(line: seq<bool>, x: nat)
    requires x < |line|
    ensures var size, runX, runColor, done := |line|, Current(line, x), CurrentColor(line, x), Done(line, x);
            var h := Added(size, runX, Recent(done));
            && RunScore(Runs(line[..x + 1])) == RunScore(Runs(line[..x])) +
                 (if line[x] == runColor then RunCost(runX + 1) - RunCost(runX) else RunCost(1))
            && (line[x] == runColor ==>
                  && Current(line, x + 1) == runX + 1 && CurrentColor(line, x + 1) == runColor
                  && Done(line, x + 1) == done)
            && (line[x] != runColor ==>
                  && Current(line, x + 1) == 1 && CurrentColor(line, x + 1) == line[x]
                  && Recent(Done(line, x + 1)) == h
                  && (!runColor ==> h[1] <= size * 3)
                  && FinderCount(Done(line, x + 1)) == FinderCount(done) + (if runColor then 0 else Patterns(h)))
  {
    hide Runs, RunScore, FinderCount, Before, Recent, Patterns, ColorOf, Added, RunCost;
    var runs, size := Runs(line[..x]), |line|;
    var k := |runs| - 1;
    RunsNext(line, x);
    RunScoreExtend(runs, line[x]);
    ColorsAlternate(k);
    if line[x] == ColorOf(k) {
      BeforeSame(runs, k, [runs[k] + 1], size);
    } else {
      BeforeSame(runs, k + 1, [1], size);
      HistoryNext(runs, k, size);
      if !ColorOf(k) {
        BlackRunFits(line[..x], k, size);
      }
    }
  }

  lemma BeforeSame(runs: seq<nat>, k: nat, more: seq<nat>, n: nat)
    requires k <= |runs|
    ensures Before(runs[..k] + more, k, n) == Before(runs, k, n)
    ensures runs[..|runs|] == runs
  {
    assert (runs[..k] + more)[..k] == runs[..k];
  }

  lemma ScoreEnds(line: seq<bool>)
    requires |line| > 0
    ensures var size, runX, runColor, done := |line|, Current(line, |line|), CurrentColor(line, |line|),
            Done(line, |line|);
            var h := Terminated(size, runColor, runX, Recent(done));
            && h[1] <= size * 3
            && LineScore(line) == RunScore(Runs(line[..|line|])) + PENALTY_N3 * (FinderCount(done) + Patterns(h))
  {
    hide Runs, RunScore, FinderCount, Before, Recent, Patterns, ColorOf, Terminated, Bordered;
    assert line[..|line|] == line;
    var runs := Runs(line);
    HistoryEnds(runs, |line|);
    if ColorOf(|runs| - 1) {
      LastBlackRunFits(line, |line|);
    } else {
      BlackRunFits(line, |runs| - 1, |line|);
    }
  }
}
