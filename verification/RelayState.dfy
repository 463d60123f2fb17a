/** How a transaction in the pool was received and relayed: flag bits that only move up a ladder of methods. */
module RelayState {

  type Uint8 = v: int | 0 <= v < 256
  type Flag = v: int | 0 <= v < 2

  datatype RelayMethod = NoRelay | Local | Forward | Stem | Fluff | Block {
    function Rank(): nat {
      match this
      case NoRelay => 0
      case Local => 1
      case Forward => 2
      case Stem => 3
      case Fluff => 4
      case Block => 5
    }
  }

  datatype RelayCategory = Broadcasted | Relayable | Legacy | All

  /** `matches_category` */
  predicate MatchesCategory(m: RelayMethod, category: RelayCategory) {
    match category
    case All => true
    case Relayable => m != NoRelay
    case _ =>
      match m
      case Local => false
      case Forward => false
      case Stem => false
      case Block => true
      case Fluff => true
      case NoRelay => category == Legacy
  }

  /** The flag fields of the metadata; two of them are whole bytes. */
  datatype Flags = Flags(keptByBlock: Uint8, doNotRelay: Uint8, isLocal: Flag, isForwarding: Flag,
                         dandelionppStem: Flag) {

    /** The sum is cut to a byte. Every combination without a meaning counts as fluff. */
    function Method(): RelayMethod {
      var state := (keptByBlock + 2 * doNotRelay + 4 * isLocal + 8 * isForwarding + 16 * dandelionppStem) % 256;
      if state == 1 then Block
      else if state == 2 then NoRelay
      else if state == 4 then Local
      else if state == 8 then Forward
      else if state == 16 then Stem
      else Fluff
    }

    /** No flag, or one flag with value 1. */
    predicate AtMostOne() {
      keptByBlock + doNotRelay + isLocal + isForwarding + dandelionppStem <= 1
    }
  }

  function FlagsFor(m: RelayMethod): Flags {
    Flags(if m == Block then 1 else 0, if m == NoRelay then 1 else 0, if m == Local then 1 else 0,
          if m == Forward then 1 else 0, if m == Stem then 1 else 0)
  }

  function Upgraded(f: Flags, m: RelayMethod): Flags {
    if f.Method().Rank() < m.Rank() then FlagsFor(m) else f
  }

  class TxMeta {
    var keptByBlock: Uint8
    var doNotRelay: Uint8
    var isLocal: Flag
    var isForwarding: Flag
    var dandelionppStem: Flag

    function AsFlags(): Flags
      reads this
    {
      Flags(keptByBlock, doNotRelay, isLocal, isForwarding, dandelionppStem)
    }

    /** `set_relay_method` */
    method SetRelayMethod(m: RelayMethod)
      modifies this
      ensures AsFlags() == FlagsFor(m)
    {
      keptByBlock := 0;
      doNotRelay := 0;
      isLocal := 0;
      isForwarding := 0;
      dandelionppStem := 0;
      match m {
        case NoRelay => doNotRelay := 1;
        case Local => isLocal := 1;
        case Forward => isForwarding := 1;
        case Stem => dandelionppStem := 1;
        case Block => keptByBlock := 1;
        case Fluff =>
      }
    }

    /** `upgrade_relay_method` */
    method UpgradeRelayMethod(m: RelayMethod) returns (upgraded: bool)
      modifies this
      ensures AsFlags() == Upgraded(old(AsFlags()), m)
      ensures upgraded <==> old(AsFlags()).Method().Rank() < m.Rank()
      ensures upgraded ==> AsFlags().Method() == m && AsFlags().AtMostOne()
    {
      if AsFlags().Method().Rank() < m.Rank() {
        SetRelayMethod(m);
        FlagsRoundTrip(m);
        return true;
      }
      return false;
    }
  }

  /** The flags set for a method are read as that method. */
  lemma FlagsRoundTrip(m: RelayMethod)
    ensures FlagsFor(m).Method() == m && FlagsFor(m).AtMostOne()
  {}

  /** Single flags and methods are in one-to-one correspondence. */
  lemma SingleFlags(f: Flags)
    requires f.AtMostOne()
    ensures f == FlagsFor(f.Method())
  {}

  /** Which flag stands for which method; no flag, or several of them, count as fluff. */
  lemma FlagMeanings(f: Flags)
    requires f.keptByBlock <= 1 && f.doNotRelay <= 1
    ensures f.Method() == Block <==> f == Flags(1, 0, 0, 0, 0)
    ensures f.Method() == NoRelay <==> f == Flags(0, 1, 0, 0, 0)
    ensures f.Method() == Local <==> f == Flags(0, 0, 1, 0, 0)
    ensures f.Method() == Forward <==> f == Flags(0, 0, 0, 1, 0)
    ensures f.Method() == Stem <==> f == Flags(0, 0, 0, 0, 1)
    ensures f.Method() == Fluff <==> f == Flags(0, 0, 0, 0, 0) || !f.AtMostOne()
  {}

  // Sequences of requests

  function UpgradeAll(f: Flags, requests: seq<RelayMethod>): Flags {
    if |requests| == 0 then f
    else Upgraded(UpgradeAll(f, requests[..|requests| - 1]), requests[|requests| - 1])
  }

  /** The highest of a starting method and some requests. */
  ghost predicate IsHighest(m: RelayMethod, start: RelayMethod, requests: seq<RelayMethod>) {
    && (m == start || m in requests)
    && start.Rank() <= m.Rank()
    && forall i | 0 <= i < |requests| :: requests[i].Rank() <= m.Rank()
  }

  lemma SameRank(a: RelayMethod, b: RelayMethod)
    requires a.Rank() == b.Rank()
    ensures a == b
  {}

  lemma UpgradedMethod(f: Flags, m: RelayMethod)
    ensures Upgraded(f, m).Method() == if f.Method().Rank() < m.Rank() then m else f.Method()
  {
    FlagsRoundTrip(m);
  }

  /** From any flags, after any requests, the method is the highest of the first one and all requested ones. */
  lemma {:induction false} UpgradeAllIsHighest(f: Flags, requests: seq<RelayMethod>)
    ensures IsHighest(UpgradeAll(f, requests).Method(), f.Method(), requests)
  {
    if |requests| > 0 {
      var n := |requests| - 1;
      var before := UpgradeAll(f, requests[..n]);
      UpgradeAllIsHighest(f, requests[..n]);
      UpgradedMethod(before, requests[n]);
      assert requests == requests[..n] + [requests[n]];
    }
  }

  lemma HighestIsUnique(a: RelayMethod, b: RelayMethod, start: RelayMethod, requests: seq<RelayMethod>)
    requires IsHighest(a, start, requests) && IsHighest(b, start, requests)
    ensures a == b
  {
    assert a.Rank() <= b.Rank() && b.Rank() <= a.Rank();
    SameRank(a, b);
  }

  /** The flags are the first ones, or a single flag for the last accepted request. */
  lemma {:induction false} UpgradeAllFlags(f: Flags, requests: seq<RelayMethod>)
    ensures var g := UpgradeAll(f, requests);
            if g.Method() == f.Method() then g == f else g == FlagsFor(g.Method()) && g.AtMostOne()
  {
    if |requests| > 0 {
      var n := |requests| - 1;
      UpgradeAllFlags(f, requests[..n]);
      UpgradeAllIsHighest(f, requests[..n]);
      UpgradedMethod(UpgradeAll(f, requests[..n]), requests[n]);
      FlagsRoundTrip(requests[n]);
    }
  }

  /** The order of the requests does not matter. */
  lemma OrderIrrelevant(f: Flags, first: seq<RelayMethod>, second: seq<RelayMethod>)
    requires forall m :: m in first <==> m in second
    ensures UpgradeAll(f, first) == UpgradeAll(f, second)
  {
    hide UpgradeAll;
    UpgradeAllIsHighest(f, first);
    UpgradeAllIsHighest(f, second);
    var a, b := UpgradeAll(f, first).Method(), UpgradeAll(f, second).Method();
    forall i | 0 <= i < |first|
      ensures first[i].Rank() <= b.Rank()
    {
      assert first[i] in second;
    }
    HighestIsUnique(a, b, f.Method(), first);
    UpgradeAllFlags(f, first);
    UpgradeAllFlags(f, second);
  }

  // Categories

  /** Each category is a stretch of the ladder: fluff and up, local and up, the former with none, or everything. */
  lemma CategoriesByRank(m: RelayMethod)
    ensures MatchesCategory(m, Broadcasted) <==> m.Rank() >= Fluff.Rank()
    ensures MatchesCategory(m, Relayable) <==> m.Rank() >= Local.Rank()
    ensures MatchesCategory(m, Legacy) <==> MatchesCategory(m, Broadcasted) || m.Rank() < Local.Rank()
    ensures MatchesCategory(m, All)
    ensures NoRelay.Rank() < Local.Rank() < Forward.Rank() < Stem.Rank() < Fluff.Rank() < Block.Rank()
  {}

  /** Once broadcasted, always broadcasted; once relayable, always relayable. */
  lemma CategoriesKept(f: Flags, requests: seq<RelayMethod>, category: RelayCategory)
    requires category != Legacy && MatchesCategory(f.Method(), category)
    ensures MatchesCategory(UpgradeAll(f, requests).Method(), category)
  {
    hide UpgradeAll;
    UpgradeAllIsHighest(f, requests);
  }

  /**
   The legacy category can be left: exactly by starting at `none` and ending, after the highest request, at
   local, forward or stem.
   */
  lemma LegacyKept(f: Flags, requests: seq<RelayMethod>)
    requires MatchesCategory(f.Method(), Legacy)
    ensures MatchesCategory(UpgradeAll(f, requests).Method(), Legacy) <==>
            || f.Method() != NoRelay
            || (forall m | m in requests :: m == NoRelay)
            || Fluff in requests || Block in requests
  {
    hide UpgradeAll;
    UpgradeAllIsHighest(f, requests);
    var m := UpgradeAll(f, requests).Method();
    if f.Method() == NoRelay {
      if r :| r in requests && r != NoRelay {
        var i :| 0 <= i < |requests| && requests[i] == r;
        assert requests[i].Rank() <= m.Rank();
      }
    }
  }

  lemma LegacyLeft()
    ensures MatchesCategory(FlagsFor(NoRelay).Method(), Legacy)
    ensures !MatchesCategory(UpgradeAll(FlagsFor(NoRelay), [Local]).Method(), Legacy)
  {
    assert UpgradeAll(FlagsFor(NoRelay), [Local]) == FlagsFor(Local);
  }

  /**
   The header promises that an upgrade returns true if the method is now the requested one. It does so
   unless that already was the method.
   */
  lemma ReturnValueMeans(f: Flags, m: RelayMethod)
    ensures (f.Method().Rank() < m.Rank() <==> Upgraded(f, m).Method() == m) <==> f.Method() != m
  {
    UpgradedMethod(f, m);
    if f.Method().Rank() == m.Rank() {
      SameRank(f.Method(), m);
    }
  }

  lemma RepeatedRequest()
    ensures Upgraded(FlagsFor(Stem), Stem).Method() == Stem && !(FlagsFor(Stem).Method().Rank() < Stem.Rank())
  {}
}
