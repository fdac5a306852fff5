/** Where a fork sends the indexer back to. */
module Rewind {
  import opened Wrappers
  import opened Chain
  import opened Tracker
  import opened ForkCheck

  /** What the tracker's memory must satisfy for its answers to be right. */
  ghost predicate Tracked(L: Ledger, v: View, s: State) {
    && Linked(L, s.blocks)
    && OnView(v, s.finalized)
    && (s.lastChecked.At? ==>
        && s.lastChecked.height <= s.finalized.blockHeight
        && s.lastChecked.height in v.blocks
        && AllAbove(s.blocks, s.lastChecked.height))
  }

  function Best(s: State): seq<Header> {
    AtMost(s.blocks, s.finalized.blockHeight)
  }

  lemma BestIsPrefix(L: Ledger, s: State)
    requires Linked(L, s.blocks)
    ensures Linked(L, Best(s)) && Best(s) <= s.blocks
    ensures forall b :: b in Best(s) ==> b.blockHeight <= s.finalized.blockHeight
  {
    FiltersCut(s.blocks, s.finalized.blockHeight);
    LinkedPrefix(L, s.blocks, |Best(s)|);
  }

  // ----- safety -----

  lemma {:induction false} SearchSafe(L: Ledger, v: View, best: seq<Header>, checking: Header)
    requires ChainView(L, v) && OnView(v, checking)
    requires forall b :: b in best ==> Known(L, b)
    ensures var r := Search(v, best, checking);
            r.Success? && r.value.Some? ==> r.value.value in best && OnView(v, r.value.value)
  {
    if |best| > 0 {
      var b := Last(best);
      if b.blockHash == checking.blockHash {
        SameHashSameBlock(L, v, checking, b);
      } else if b.blockHash == checking.parentHash {
        ParentIsPrevious(L, v, checking, b);
      } else if ParentByHeight(v, checking.blockHeight - 1).Success? {
        ParentIsGreatest(v, checking.blockHeight - 1);
        SearchSafe(L, v, best[..|best| - 1], ParentByHeight(v, checking.blockHeight - 1).value);
      }
    }
  }

  /** The first comparison already succeeds, with an entry that is not on the
      chain. */
  ghost predicate MeetsOrphan(v: View, best: seq<Header>, forked: Header) {
    && |best| > 0
    && !OnView(v, Last(best))
    && (Last(best).blockHash == forked.blockHash || Last(best).blockHash == forked.parentHash)
  }

  /** For a forked header of any branch, the entry found is on the chain exactly
      when the search does not meet an orphan at once. */
  lemma {:induction false} SearchSafeExactly(L: Ledger, v: View, best: seq<Header>, forked: Header)
    requires ChainView(L, v) && forall b :: b in best ==> Known(L, b)
    ensures var r := Search(v, best, forked);
            r.Success? && r.value.Some? ==>
              r.value.value in best && (OnView(v, r.value.value) <==> !MeetsOrphan(v, best, forked))
    ensures MeetsOrphan(v, best, forked) ==> Search(v, best, forked) == Success(Some(Last(best)))
  {
    if |best| > 0 && ParentByHeight(v, forked.blockHeight - 1).Success? {
      ParentIsGreatest(v, forked.blockHeight - 1);
      SearchSafe(L, v, best[..|best| - 1], ParentByHeight(v, forked.blockHeight - 1).value);
    }
  }

  lemma TargetSource(v: View, s: State, forked: Header, target: Header)
    requires LastCorrect(v, s, forked) == Success(Some(target))
    ensures Search(v, Best(s), forked) == Success(Some(target))
            || (Search(v, Best(s), forked) == Success(None)
                && s.lastChecked == At(target.blockHeight) && OnView(v, target))
  {
  }

  /** For a forked header of any branch, the target lies between the last checked
      and the finalized height, and it is on the finalized chain exactly when the
      search does not meet an orphan at once. */
  lemma {:induction false} RewindSafe(L: Ledger, v: View, s: State, forked: Header, target: Header)
    requires ChainView(L, v) && Tracked(L, v, s)
    requires LastCorrect(v, s, forked) == Success(Some(target))
    ensures OnView(v, target) <==> !MeetsOrphan(v, Best(s), forked)
    ensures target.blockHeight <= s.finalized.blockHeight
    ensures s.lastChecked.At? ==> s.lastChecked.height <= target.blockHeight
    ensures target in s.blocks || s.lastChecked == At(target.blockHeight)
  {
    BestIsPrefix(L, s);
    TargetSource(v, s, forked, target);
    SearchSafeExactly(L, v, Best(s), forked);
  }

  /** A forked header of the chain itself never meets an orphan. */
  lemma {:induction false} ChainMeetsNoOrphan(L: Ledger, v: View, best: seq<Header>, forked: Header)
    requires ChainView(L, v) && OnView(v, forked) && forall b :: b in best ==> Known(L, b)
    ensures !MeetsOrphan(v, best, forked)
  {
    if |best| > 0 {
      MatchExact(L, v, Last(best), forked);
    }
  }

  // ----- exactness -----

  /** Entry j is the highest entry that is on the chain. */
  ghost predicate IsCommon(v: View, best: seq<Header>, j: int) {
    && 0 <= j < |best|
    && OnView(v, best[j])
    && forall i :: j < i < |best| ==> !OnView(v, best[i])
  }

  /** Blocks the chain produced after the common one, up to `checking`, minus
      the entries stored after it. */
  ghost function Lag(v: View, best: seq<Header>, j: int, checking: Header): int
    requires 0 <= j < |best|
  {
    Rank(v, checking.blockHeight) - Rank(v, best[j].blockHeight) - (|best| - 1 - j)
  }

  /** The last entry is matched at once exactly when it is the block checked or
      that block's parent. */
  lemma {:induction false} MatchExact(L: Ledger, v: View, b: Header, checking: Header)
    requires ChainView(L, v) && OnView(v, checking) && Known(L, b)
    ensures b.blockHash == checking.blockHash || b.blockHash == checking.parentHash <==>
            && OnView(v, b)
            && 0 <= Rank(v, checking.blockHeight) - Rank(v, b.blockHeight) <= 1
  {
    assert ChainBlock(L, v, checking.blockHeight);
    ParentRank(v, checking.blockHeight);
    if b.blockHash == checking.blockHash {
      SameHashSameBlock(L, v, checking, b);
    } else if b.blockHash == checking.parentHash {
      ParentIsPrevious(L, v, checking, b);
    } else if OnView(v, b) && Rank(v, checking.blockHeight) == Rank(v, b.blockHeight) {
      RankInjective(v, checking, b);
    } else if OnView(v, b) && Rank(v, checking.blockHeight) == Rank(v, b.blockHeight) + 1 {
      RankMonotone(v, -1, b.blockHeight);
      RankInjective(v, GreatestAtOrBelow(v, checking.blockHeight - 1).value, b);
    }
  }

  /** One step of the search keeps the lag. */
  lemma {:induction false} StepDown(L: Ledger, v: View, checking: Header)
    requires ChainView(L, v) && OnView(v, checking)
    ensures checking.parentHash != ""
    ensures var r := ParentByHeight(v, checking.blockHeight - 1);
            r.Success? ==> OnView(v, r.value) && r.value.blockHeight < checking.blockHeight
                           && Rank(v, r.value.blockHeight) == Rank(v, checking.blockHeight) - 1
  {
    assert ChainBlock(L, v, checking.blockHeight);
    ParentRank(v, checking.blockHeight);
    if ParentByHeight(v, checking.blockHeight - 1).Success? {
      ParentIsGreatest(v, checking.blockHeight - 1);
    }
  }

  lemma {:induction false} StepDownSucceeds(L: Ledger, v: View, checking: Header, floor: Header)
    requires ChainView(L, v) && OnView(v, checking) && OnView(v, floor)
    requires Rank(v, checking.blockHeight) > Rank(v, floor.blockHeight)
    requires NoFailures(v, floor.blockHeight, checking.blockHeight)
    ensures ParentByHeight(v, checking.blockHeight - 1).Success?
  {
    ParentRank(v, checking.blockHeight);
    RankMonotone(v, -1, floor.blockHeight);
    var p := GreatestAtOrBelow(v, checking.blockHeight - 1).value;
    if p.blockHeight < floor.blockHeight {
      RankMonotone(v, p.blockHeight, floor.blockHeight);
    }
    ParentByHeightExact(v, checking.blockHeight - 1, p);
  }

  /** The chain has n more blocks below `checking`, and no slot down to the last
      of them fails. */
  ghost predicate HasRoom(v: View, checking: Header, n: nat) {
    exists floor: Header :: OnView(v, floor) && Rank(v, floor.blockHeight) == Rank(v, checking.blockHeight) - n
                            && NoFailures(v, floor.blockHeight, checking.blockHeight)
  }

  /** A search that still has n steps to go can make the next one, and then has
      n - 1 to go. */
  lemma {:induction false} RoomStep(L: Ledger, v: View, checking: Header, n: nat)
    requires ChainView(L, v) && OnView(v, checking) && n > 0
    ensures var r := ParentByHeight(v, checking.blockHeight - 1);
            HasRoom(v, checking, n) <==> r.Success? && HasRoom(v, r.value, n - 1)
  {
    StepDown(L, v, checking);
    var r := ParentByHeight(v, checking.blockHeight - 1);
    if HasRoom(v, checking, n) {
      var floor: Header :| OnView(v, floor) && Rank(v, floor.blockHeight) == Rank(v, checking.blockHeight) - n
                           && NoFailures(v, floor.blockHeight, checking.blockHeight);
      StepDownSucceeds(L, v, checking, floor);
      assert HasRoom(v, r.value, n - 1);
    }
    if r.Success? && HasRoom(v, r.value, n - 1) {
      ParentByHeightExact(v, checking.blockHeight - 1, r.value);
      var floor: Header :| OnView(v, floor) && Rank(v, floor.blockHeight) == Rank(v, r.value.blockHeight) - (n - 1)
                           && NoFailures(v, floor.blockHeight, r.value.blockHeight);
      assert NoFailures(v, floor.blockHeight, checking.blockHeight);
    }
  }

  lemma RoomForNone(v: View, checking: Header)
    requires OnView(v, checking)
    ensures HasRoom(v, checking, 0)
  {
    assert NoFailures(v, checking.blockHeight, checking.blockHeight);
  }

  /** There is room down to any block of the chain if no slot on the way fails. */
  lemma {:induction false} RoomDownTo(L: Ledger, v: View, checking: Header, n: nat, low: Header)
    requires ChainView(L, v) && OnView(v, checking) && OnView(v, low)
    requires Rank(v, checking.blockHeight) - Rank(v, low.blockHeight) >= n
    requires NoFailures(v, low.blockHeight, checking.blockHeight)
    ensures HasRoom(v, checking, n)
    decreases n
  {
    if n == 0 {
      RoomForNone(v, checking);
    } else {
      StepDownSucceeds(L, v, checking, low);
      StepDown(L, v, checking);
      RoomDownTo(L, v, ParentByHeight(v, checking.blockHeight - 1).value, n - 1, low);
      RoomStep(L, v, checking, n);
    }
  }

  /** Without failing lookups, room is a matter of how many blocks there are. */
  lemma {:induction false} RoomExact(L: Ledger, v: View, checking: Header, n: nat)
    requires ChainView(L, v) && OnView(v, checking) && NoFailures(v, 0, checking.blockHeight)
    ensures HasRoom(v, checking, n) <==> Rank(v, checking.blockHeight) > n
    decreases n
  {
    RankMonotone(v, -1, checking.blockHeight);
    if n == 0 {
      RoomForNone(v, checking);
    } else {
      RoomStep(L, v, checking, n);
      StepDown(L, v, checking);
      ParentRank(v, checking.blockHeight);
      var below := GreatestAtOrBelow(v, checking.blockHeight - 1);
      if below.Some? {
        ParentByHeightExact(v, checking.blockHeight - 1, below.value);
        RoomExact(L, v, below.value, n - 1);
      } else if HasRoom(v, checking, n) {
        assert false;
      }
    }
  }

  /** Entry j is the highest common entry, and the search comes to it in step with
      the chain. */
  ghost predicate InStep(v: View, best: seq<Header>, checking: Header, j: int) {
    IsCommon(v, best, j) && 0 <= Lag(v, best, j, checking) <= 1
  }

  /** The last entry is matched at once exactly when it is common and in step. */
  lemma TopInStep(L: Ledger, v: View, best: seq<Header>, checking: Header)
    requires ChainView(L, v) && OnView(v, checking) && Linked(L, best) && |best| > 0
    ensures InStep(v, best, checking, |best| - 1) <==>
            Last(best).blockHash == checking.blockHash || Last(best).blockHash == checking.parentHash
  {
    MatchExact(L, v, Last(best), checking);
  }

  lemma CommonBelow(v: View, best: seq<Header>, j: int)
    requires |best| > 0 && !OnView(v, Last(best))
    ensures IsCommon(v, best[..|best| - 1], j) <==> IsCommon(v, best, j)
  {
    var rest := best[..|best| - 1];
    assert forall i :: 0 <= i < |rest| ==> rest[i] == best[i];
  }

  lemma CommonTop(v: View, best: seq<Header>, j: int)
    requires |best| > 0 && OnView(v, Last(best))
    ensures IsCommon(v, best, j) <==> j == |best| - 1
  {
  }

  /** A step that passes the last entry keeps every other entry in or out of
      step. */
  lemma {:induction false} InStepKept(L: Ledger, v: View, best: seq<Header>, checking: Header, p: Header, j: int)
    requires ChainView(L, v) && Linked(L, best) && |best| > 0
    requires Rank(v, p.blockHeight) == Rank(v, checking.blockHeight) - 1
    requires !InStep(v, best, checking, |best| - 1)
    ensures InStep(v, best[..|best| - 1], p, j) <==> InStep(v, best, checking, j)
  {
    var n := |best| - 1;
    if !OnView(v, best[n]) {
      CommonBelow(v, best, j);
    } else {
      CommonTop(v, best, j);
      if n > 0 {
        OlderEntriesOnView(L, v, best, n, n - 1);
        CommonTop(v, best[..n], j);
      }
    }
  }

  /** The lockstep search, one step at a time. */
  lemma {:induction false} SearchStep(L: Ledger, v: View, best: seq<Header>, checking: Header)
    requires ChainView(L, v) && OnView(v, checking) && Linked(L, best) && |best| > 0
    ensures InStep(v, best, checking, |best| - 1) ==> Search(v, best, checking) == Success(Some(Last(best)))
    ensures !InStep(v, best, checking, |best| - 1) ==>
              Search(v, best, checking) ==
              match ParentByHeight(v, checking.blockHeight - 1)
              case Failure(e) => Failure(RpcFailure)
              case Success(p) => Search(v, best[..|best| - 1], p)
  {
    TopInStep(L, v, best, checking);
    StepDown(L, v, checking);
  }

  /** The search for a common entry in step ends with it, or with an error if
      there is no room for the steps to it. */
  lemma {:induction false} SearchInStep(L: Ledger, v: View, best: seq<Header>, checking: Header, j: int)
    requires ChainView(L, v) && OnView(v, checking) && Linked(L, best) && InStep(v, best, checking, j)
    ensures Search(v, best, checking) ==
            if HasRoom(v, checking, |best| - 1 - j) then Success(Some(best[j])) else Failure(RpcFailure)
    decreases |best|
  {
    var n := |best| - 1;
    SearchStep(L, v, best, checking);
    if j == n {
      RoomForNone(v, checking);
    } else {
      RoomStep(L, v, checking, n - j);
      StepDown(L, v, checking);
      var r := ParentByHeight(v, checking.blockHeight - 1);
      if r.Success? {
        LinkedPrefix(L, best, n);
        InStepKept(L, v, best, checking, r.value, j);
        SearchInStep(L, v, best[..n], r.value, j);
      }
    }
  }

  /** Any other search ends with nothing, or with an error if there is no room for
      a step past every entry. */
  lemma {:induction false} SearchOutOfStep(L: Ledger, v: View, best: seq<Header>, checking: Header)
    requires ChainView(L, v) && OnView(v, checking) && Linked(L, best)
    requires forall j :: !InStep(v, best, checking, j)
    ensures Search(v, best, checking) == if HasRoom(v, checking, |best|) then Success(None) else Failure(RpcFailure)
    decreases |best|
  {
    var n := |best| - 1;
    if n < 0 {
      RoomForNone(v, checking);
    } else {
      SearchStep(L, v, best, checking);
      RoomStep(L, v, checking, n + 1);
      StepDown(L, v, checking);
      var r := ParentByHeight(v, checking.blockHeight - 1);
      if r.Success? {
        LinkedPrefix(L, best, n);
        forall j ensures !InStep(v, best[..n], r.value, j) {
          InStepKept(L, v, best, checking, r.value, j);
        }
        SearchOutOfStep(L, v, best[..n], r.value);
      }
    }
  }

  /** From a header of the chain, the search comes to entry j. */
  ghost predicate Finds(v: View, best: seq<Header>, checking: Header, j: int) {
    InStep(v, best, checking, j) && HasRoom(v, checking, |best| - 1 - j)
  }

  /** From a header of the chain, the search passes every entry. */
  ghost predicate PassesAll(v: View, best: seq<Header>, checking: Header) {
    HasRoom(v, checking, |best|) && forall j :: !InStep(v, best, checking, j)
  }

  /** The search from a header of the chain finds an entry, passes them all, or
      ends with an error. */
  lemma {:induction false} SearchOnChain(L: Ledger, v: View, best: seq<Header>, checking: Header)
    requires ChainView(L, v) && OnView(v, checking) && Linked(L, best)
    ensures forall j :: Finds(v, best, checking, j) ==> Search(v, best, checking) == Success(Some(best[j]))
    ensures PassesAll(v, best, checking) ==> Search(v, best, checking) == Success(None)
    ensures (forall j :: !Finds(v, best, checking, j)) && !PassesAll(v, best, checking) ==>
              Search(v, best, checking) == Failure(RpcFailure)
  {
    if j :| InStep(v, best, checking, j) {
      SearchInStep(L, v, best, checking, j);
      OnlyCommon(v, best, checking, j);
      assert Finds(v, best, checking, j) <==> HasRoom(v, checking, |best| - 1 - j);
    } else {
      SearchOutOfStep(L, v, best, checking);
    }
  }

  /** There is one highest common entry at most. */
  lemma OnlyCommon(v: View, best: seq<Header>, forked: Header, j: int)
    requires IsCommon(v, best, j)
    ensures forall i :: InStep(v, best, forked, i) ==> i == j
  {
  }

  // ----- forked headers of any branch -----

  /** What can be reported as forked: a block of the chain, or a delivered header
      above the finalized height. */
  ghost predicate Reportable(L: Ledger, v: View, s: State, forked: Header) {
    Known(L, forked) && (OnView(v, forked) || forked.blockHeight > s.finalized.blockHeight)
  }

  /** The last entry is not the parent of a header off the view, and the search
      goes on from the block p of the chain below that header. */
  ghost predicate GoesOnFrom(v: View, best: seq<Header>, forked: Header, p: Header) {
    && |best| > 0
    && forked.parentHash != "" && forked.parentHash != Last(best).blockHash
    && ParentByHeight(v, forked.blockHeight - 1) == Success(p)
  }

  /** The search from any reported header comes to entry j.  Off the view this is
      the header's own parent, or what is found below it. */
  ghost predicate FindsFrom(v: View, best: seq<Header>, forked: Header, j: int) {
    if OnView(v, forked) then Finds(v, best, forked, j)
    else
      0 <= j < |best| &&
      if forked.parentHash == Last(best).blockHash then j == |best| - 1
      else exists p :: GoesOnFrom(v, best, forked, p) && Finds(v, best[..|best| - 1], p, j)
  }

  ghost predicate PassesAllFrom(v: View, best: seq<Header>, forked: Header) {
    if OnView(v, forked) then PassesAll(v, best, forked)
    else |best| == 0 || exists p :: GoesOnFrom(v, best, forked, p) && PassesAll(v, best[..|best| - 1], p)
  }

  function SearchError(v: View, forked: Header): Error {
    if !OnView(v, forked) && forked.parentHash == "" then MissingParentHash else RpcFailure
  }

  /** The first step from a header off the view. */
  lemma FirstStep(v: View, best: seq<Header>, forked: Header)
    requires |best| > 0 && Last(best).blockHash != forked.blockHash
    ensures forked.parentHash == Last(best).blockHash ==> Search(v, best, forked) == Success(Some(Last(best)))
    ensures forall p :: GoesOnFrom(v, best, forked, p) ==>
              Search(v, best, forked) == Search(v, best[..|best| - 1], p)
    ensures forked.parentHash != Last(best).blockHash && (forall p :: !GoesOnFrom(v, best, forked, p)) ==>
              Search(v, best, forked) == Failure(if forked.parentHash == "" then MissingParentHash else RpcFailure)
  {
    var r := ParentByHeight(v, forked.blockHeight - 1);
    if r.Success? && forked.parentHash != "" && forked.parentHash != Last(best).blockHash {
      assert GoesOnFrom(v, best, forked, r.value);
    }
  }

  lemma {:induction false} SearchOffChain(L: Ledger, v: View, best: seq<Header>, forked: Header)
    requires ChainView(L, v) && Linked(L, best) && |best| > 0
    requires !OnView(v, forked) && Last(best).blockHash != forked.blockHash
    ensures forall j :: FindsFrom(v, best, forked, j) ==> Search(v, best, forked) == Success(Some(best[j]))
    ensures PassesAllFrom(v, best, forked) ==> Search(v, best, forked) == Success(None)
    ensures (forall j :: !FindsFrom(v, best, forked, j)) && !PassesAllFrom(v, best, forked) ==>
              Search(v, best, forked) == Failure(SearchError(v, forked))
  {
    FirstStep(v, best, forked);
    if forked.parentHash == Last(best).blockHash {
      assert FindsFrom(v, best, forked, |best| - 1);
    } else if p :| GoesOnFrom(v, best, forked, p) {
      var rest := best[..|best| - 1];
      LinkedPrefix(L, best, |best| - 1);
      ParentIsGreatest(v, forked.blockHeight - 1);
      SearchOnChain(L, v, rest, p);
      assert forall j :: Finds(v, rest, p, j) ==> FindsFrom(v, best, forked, j) && rest[j] == best[j];
    }
  }

  /** Whatever header is reported: the search finds an entry, passes them all, or
      ends with an error, and in which case it is. */
  lemma {:induction false} SearchExact(L: Ledger, v: View, best: seq<Header>, forked: Header)
    requires ChainView(L, v) && Linked(L, best) && Known(L, forked)
    requires OnView(v, forked) || forall b :: b in best ==> b.blockHeight < forked.blockHeight
    ensures forall j :: FindsFrom(v, best, forked, j) ==> Search(v, best, forked) == Success(Some(best[j]))
    ensures PassesAllFrom(v, best, forked) ==> Search(v, best, forked) == Success(None)
    ensures (forall j :: !FindsFrom(v, best, forked, j)) && !PassesAllFrom(v, best, forked) ==>
              Search(v, best, forked) == Failure(SearchError(v, forked))
  {
    if OnView(v, forked) {
      SearchOnChain(L, v, best, forked);
      assert forall j :: FindsFrom(v, best, forked, j) <==> Finds(v, best, forked, j);
    } else if |best| > 0 {
      assert Last(best) in best;
      SearchOffChain(L, v, best, forked);
    }
  }

  lemma BestIsOlder(L: Ledger, v: View, s: State, forked: Header)
    requires Linked(L, s.blocks) && Reportable(L, v, s, forked)
    ensures OnView(v, forked) || forall b :: b in Best(s) ==> b.blockHeight < forked.blockHeight
  {
    BestIsPrefix(L, s);
  }

  /** The target is an entry that the search comes to; if it passes all of them,
      the header at the last checked height, if there is a usable one; and
      otherwise the call ends with an error. */
  lemma {:induction false} RewindOutcome(L: Ledger, v: View, s: State, forked: Header)
    requires ChainView(L, v) && Linked(L, s.blocks) && Reportable(L, v, s, forked)
    ensures var best, r := Best(s), LastCorrect(v, s, forked);
            && (forall j :: FindsFrom(v, best, forked, j) ==> r == Success(Some(best[j])))
            && (PassesAllFrom(v, best, forked) ==> r == Fallback(v, s.lastChecked))
            && ((forall j :: !FindsFrom(v, best, forked, j)) && !PassesAllFrom(v, best, forked) ==>
                  r == Failure(SearchError(v, forked)))
  {
    BestIsPrefix(L, s);
    BestIsOlder(L, v, s, forked);
    SearchExact(L, v, Best(s), forked);
  }

  lemma FallbackIsOther(L: Ledger, v: View, s: State, j: int)
    requires Tracked(L, v, s) && 0 <= j < |Best(s)|
    ensures Fallback(v, s.lastChecked) != Success(Some(Best(s)[j]))
  {
    BestIsPrefix(L, s);
    assert Best(s)[j] in s.blocks;
  }

  lemma NoRepeats(blocks: seq<Header>, i: int, j: int)
    requires Increasing(blocks) && 0 <= i < |blocks| && 0 <= j < |blocks| && blocks[i] == blocks[j]
    ensures i == j
  {
    assert blocks[i].blockHeight == blocks[j].blockHeight;
  }

  /** The target is the highest stored block on the chain exactly when the search
      comes to it. */
  lemma {:induction false} RewindExact(L: Ledger, v: View, s: State, forked: Header, j: int)
    requires ChainView(L, v) && Tracked(L, v, s) && Reportable(L, v, s, forked) && IsCommon(v, Best(s), j)
    ensures LastCorrect(v, s, forked) == Success(Some(Best(s)[j])) <==> FindsFrom(v, Best(s), forked, j)
  {
    RewindOutcome(L, v, s, forked);
    FallbackIsOther(L, v, s, j);
    BestIsPrefix(L, s);
    if i :| FindsFrom(v, Best(s), forked, i) {
      if Best(s)[i] == Best(s)[j] {
        NoRepeats(Best(s), i, j);
      }
    }
  }

  /** A fork gets no target exactly when the search passes every entry and there is
      no usable last checked height. */
  lemma {:induction false} ForkWithoutTarget(L: Ledger, v: View, s: State, forked: Header)
    requires ChainView(L, v) && Linked(L, s.blocks) && Reportable(L, v, s, forked)
    ensures LastCorrect(v, s, forked) == Success(None) <==>
            Falsy(s.lastChecked) && PassesAllFrom(v, Best(s), forked)
  {
    RewindOutcome(L, v, s, forked);
    if j :| FindsFrom(v, Best(s), forked, j) {
      BestIsPrefix(L, s);
      BestIsOlder(L, v, s, forked);
      SearchExact(L, v, Best(s), forked);
    }
  }

  // ----- the same slots skipped -----

  ghost predicate Stored(best: seq<Header>, slot: int) {
    exists i :: 0 <= i < |best| && best[i].blockHeight == slot
  }

  /** From the lowest entry to the forked header, the stored entries occupy
      exactly the slots that the chain produced. */
  ghost predicate SameSlots(v: View, best: seq<Header>, forked: Header) {
    && |best| > 0
    && Last(best).blockHeight == forked.blockHeight
    && forall s :: best[0].blockHeight <= s <= forked.blockHeight ==> (s in v.blocks <==> Stored(best, s))
  }

  /** No slot lies between two neighbours. */
  lemma NotBetween(best: seq<Header>, i: nat, slot: int)
    requires Increasing(best) && 0 < i < |best|
    requires best[i - 1].blockHeight < slot < best[i].blockHeight
    ensures !Stored(best, slot)
  {
    forall k | 0 <= k < |best| ensures best[k].blockHeight != slot {
      if k < i - 1 {
        assert best[k].blockHeight < best[i - 1].blockHeight;
      } else if k > i {
        assert best[k].blockHeight > best[i].blockHeight;
      }
    }
  }

  lemma {:induction false} SameSlotsRank(v: View, best: seq<Header>, forked: Header, i: nat)
    requires SameSlots(v, best, forked) && Increasing(best) && i < |best|
    ensures Rank(v, best[i].blockHeight) == Rank(v, best[0].blockHeight) + i
  {
    if i > 0 {
      SameSlotsRank(v, best, forked, i - 1);
      SameSlotsNext(v, best, forked, i);
    }
  }

  lemma SameSlotsNext(v: View, best: seq<Header>, forked: Header, i: nat)
    requires SameSlots(v, best, forked) && Increasing(best) && 0 < i < |best|
    ensures Rank(v, best[i].blockHeight) == Rank(v, best[i - 1].blockHeight) + 1
  {
    var lo, hi := best[i - 1].blockHeight, best[i].blockHeight;
    assert best[0].blockHeight <= lo < hi <= forked.blockHeight;
    forall s | lo < s <= hi - 1 ensures s !in v.blocks {
      NotBetween(best, i, s);
    }
    RankMonotone(v, lo, hi - 1);
    assert Stored(best, hi);
  }

  /** A fork found by the check is reported at the slot of the last entry. */
  lemma ForkedAtLast(L: Ledger, v: View, s: State, forked: Header)
    requires ChainView(L, v) && Linked(L, s.blocks) && OnView(v, s.finalized)
    requires HasForked(v, s.finalized, s.blocks) == Success(Some(forked))
    ensures OnView(v, forked) && |Best(s)| > 0 && forked.blockHeight == Last(Best(s)).blockHeight
  {
    HasForkedExact(L, v, s.finalized, s.blocks);
  }

  lemma SameSlotsInStep(v: View, best: seq<Header>, forked: Header, j: nat)
    requires SameSlots(v, best, forked) && Increasing(best) && IsCommon(v, best, j)
    ensures InStep(v, best, forked, j)
    ensures Rank(v, forked.blockHeight) - Rank(v, best[j].blockHeight) == |best| - 1 - j
  {
    SameSlotsRank(v, best, forked, j);
    SameSlotsRank(v, best, forked, |best| - 1);
  }

  /** With the same slots skipped on both sides, the search returns the highest
      stored block that is on the chain. */
  lemma {:induction false} MaximalRewind(L: Ledger, v: View, s: State, forked: Header, j: int)
    requires ChainView(L, v) && Tracked(L, v, s)
    requires HasForked(v, s.finalized, s.blocks) == Success(Some(forked))
    requires SameSlots(v, Best(s), forked) && IsCommon(v, Best(s), j)
    requires NoFailures(v, Best(s)[j].blockHeight, forked.blockHeight)
    ensures LastCorrect(v, s, forked) == Success(Some(Best(s)[j]))
  {
    ForkedAtLast(L, v, s, forked);
    BestIsPrefix(L, s);
    SameSlotsInStep(v, Best(s), forked, j);
    RoomDownTo(L, v, forked, |Best(s)| - 1 - j, Best(s)[j]);
    assert ChainBlock(L, v, forked.blockHeight);
    RewindExact(L, v, s, forked, j);
  }

  lemma SameSlotsRoom(L: Ledger, v: View, best: seq<Header>, forked: Header, low: Header)
    requires ChainView(L, v) && OnView(v, forked) && OnView(v, low)
    requires SameSlots(v, best, forked) && Increasing(best) && low.blockHeight < best[0].blockHeight
    requires NoFailures(v, low.blockHeight, forked.blockHeight)
    ensures HasRoom(v, forked, |best|)
  {
    SameSlotsRank(v, best, forked, |best| - 1);
    assert Stored(best, best[0].blockHeight);
    assert best[0].blockHeight <= Last(best).blockHeight;
    RankMonotone(v, low.blockHeight, best[0].blockHeight);
    RoomDownTo(L, v, forked, |best|, low);
  }

  /** Then, with no stored block on the chain, the target is the header at the last
      checked height, except that a last checked height of zero is taken for none. */
  lemma {:induction false} FallbackRewind(L: Ledger, v: View, s: State, forked: Header)
    requires ChainView(L, v) && Tracked(L, v, s)
    requires HasForked(v, s.finalized, s.blocks) == Success(Some(forked))
    requires SameSlots(v, Best(s), forked) && forall b :: b in Best(s) ==> !OnView(v, b)
    requires s.lastChecked.At? && NoFailures(v, s.lastChecked.height, forked.blockHeight)
    ensures LastCorrect(v, s, forked) ==
            Success(if s.lastChecked.height == 0 then None else Some(v.blocks[s.lastChecked.height]))
  {
    ForkedAtLast(L, v, s, forked);
    BestIsPrefix(L, s);
    assert Best(s)[0] in s.blocks && Last(Best(s)) in s.blocks;
    SameSlotsRoom(L, v, Best(s), forked, v.blocks[s.lastChecked.height]);
    assert ChainBlock(L, v, forked.blockHeight);
    RewindOutcome(L, v, s, forked);
  }
}
