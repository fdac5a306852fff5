/** What the single comparison made by the fork check proves about the whole
    stored list, and when it gives an answer at all. */
module ForkCheck {
  import opened Wrappers
  import opened Chain
  import opened Tracker
  import opened UnfinalizedBlocks

  /** A stored list: known headers, heights strictly increasing, each naming the
      entry before it as its parent. */
  ghost predicate Linked(L: Ledger, blocks: seq<Header>) {
    && (forall b :: b in blocks ==> Known(L, b))
    && Increasing(blocks)
    && (forall i {:trigger blocks[i].parentHash} :: 0 < i < |blocks| ==> blocks[i].parentHash == blocks[i - 1].blockHash)
  }

  ghost predicate Increasing(blocks: seq<Header>) {
    forall i, j :: 0 <= i < j < |blocks| ==> blocks[i].blockHeight < blocks[j].blockHeight
  }

  ghost predicate AllAbove(blocks: seq<Header>, height: nat) {
    forall b :: b in blocks ==> b.blockHeight > height
  }

  // ----- the filters -----

  lemma {:induction false} FiltersAt(blocks: seq<Header>, height: nat, k: nat)
    requires k <= |blocks|
    requires forall i :: 0 <= i < |blocks| ==> (i < k <==> blocks[i].blockHeight <= height)
    ensures AtMost(blocks, height) == blocks[..k] && Above(blocks, height) == blocks[k..]
  {
    if |blocks| > 0 {
      var n := |blocks| - 1;
      var front := blocks[..n];
      if k == |blocks| {
        FiltersAt(front, height, n);
        assert blocks == front + [blocks[n]];
      } else {
        FiltersAt(front, height, k);
        assert front[..k] == blocks[..k];
        assert front[k..] + [blocks[n]] == blocks[k..];
      }
    }
  }

  lemma {:induction false} CutExists(blocks: seq<Header>, height: nat) returns (k: nat)
    requires Increasing(blocks)
    ensures k <= |blocks|
    ensures forall i :: 0 <= i < |blocks| ==> (i < k <==> blocks[i].blockHeight <= height)
  {
    k := |blocks|;
    while k > 0 && blocks[k - 1].blockHeight > height
      invariant k <= |blocks|
      invariant forall i :: k <= i < |blocks| ==> blocks[i].blockHeight > height
    {
      k := k - 1;
    }
  }

  /** On an increasing list the two filters cut it in two at one place. */
  lemma {:induction false} FiltersCut(blocks: seq<Header>, height: nat)
    requires Increasing(blocks)
    ensures var k := |AtMost(blocks, height)|;
            && k <= |blocks|
            && AtMost(blocks, height) == blocks[..k]
            && Above(blocks, height) == blocks[k..]
            && (forall i :: 0 <= i < |blocks| ==> (i < k <==> blocks[i].blockHeight <= height))
  {
    var k := CutExists(blocks, height);
    FiltersAt(blocks, height, k);
  }

  lemma {:induction false} ClosestIsLast(blocks: seq<Header>, height: nat)
    requires Increasing(blocks)
    ensures var low := AtMost(blocks, height);
            Closest(blocks, height) == if |low| == 0 then None else Some(Last(low))
  {
    if |blocks| > 0 && Last(blocks).blockHeight > height {
      ClosestIsLast(blocks[..|blocks| - 1], height);
    }
  }

  lemma LinkedPrefix(L: Ledger, blocks: seq<Header>, n: nat)
    requires Linked(L, blocks) && n <= |blocks|
    ensures Linked(L, blocks[..n])
  {
    var part := blocks[..n];
    forall i | 0 < i < n ensures part[i].parentHash == part[i - 1].blockHash {
      assert blocks[i].parentHash == blocks[i - 1].blockHash;
    }
  }

  // ----- one entry on the chain covers the older ones -----

  lemma {:induction false} OlderEntriesOnView(L: Ledger, v: View, blocks: seq<Header>, k: nat, i: nat)
    requires ChainView(L, v) && Linked(L, blocks) && i <= k < |blocks|
    requires OnView(v, blocks[k])
    ensures OnView(v, blocks[i])
    ensures Rank(v, blocks[k].blockHeight) - Rank(v, blocks[i].blockHeight) == k - i
    decreases k - i
  {
    if i < k {
      assert blocks[k].parentHash == blocks[k - 1].blockHash;
      ParentIsPrevious(L, v, blocks[k], blocks[k - 1]);
      ParentRank(v, blocks[k].blockHeight);
      OlderEntriesOnView(L, v, blocks, k - 1, i);
    }
  }

  /** When no fork is found, every entry at or below the finalized height is the
      finalized chain's block at its slot, although only one was compared. */
  lemma {:induction false} NoForkMeansFinalized(L: Ledger, v: View, finalized: Header, blocks: seq<Header>)
    requires ChainView(L, v) && OnView(v, finalized) && Linked(L, blocks)
    requires HasForked(v, finalized, blocks) == Success(None)
    ensures forall b :: b in AtMost(blocks, finalized.blockHeight) ==>
              OnView(v, b) && b.blockHeight <= finalized.blockHeight
  {
    var low := AtMost(blocks, finalized.blockHeight);
    FiltersCut(blocks, finalized.blockHeight);
    ClosestIsLast(blocks, finalized.blockHeight);
    if |low| > 0 {
      HasForkedExact(L, v, finalized, blocks);
      forall i | 0 <= i < |low| ensures OnView(v, low[i]) {
        OlderEntriesOnView(L, v, blocks, |low| - 1, i);
      }
    }
  }

  // ----- the walk and the shortcut -----

  ghost predicate NoFailures(v: View, lo: int, hi: int) {
    forall s :: lo <= s < hi ==> s !in v.failing
  }

  /** The walk arrives exactly when the target slot was produced and no slot on
      the way fails; otherwise it steps over the target and runs off the chain. */
  lemma {:induction false} WalkExact(L: Ledger, v: View, header: Header, target: nat)
    requires ChainView(L, v) && OnView(v, header)
    ensures target <= header.blockHeight ==>
              (Walk(v, header, target).Success? <==>
               target in v.blocks && NoFailures(v, target, header.blockHeight))
    ensures target > header.blockHeight ==> Walk(v, header, target).Failure?
    ensures Walk(v, header, target).Success? ==>
              target in v.blocks && Walk(v, header, target).value == v.blocks[target]
    decreases header.blockHeight
  {
    if header.blockHeight != target {
      assert ChainBlock(L, v, header.blockHeight);
      var prev := GreatestAtOrBelow(v, header.blockHeight - 1);
      if ParentByHeight(v, header.blockHeight - 1).Success? {
        ParentIsGreatest(v, header.blockHeight - 1);
      }
      if prev.Some? {
        var p := prev.value;
        ParentByHeightExact(v, header.blockHeight - 1, p);
        WalkExact(L, v, p, target);
      }
    }
  }

  /** The lookup used above the threshold and the walk used below it agree. */
  lemma {:induction false} ShortcutRefinesWalk(L: Ledger, v: View, finalized: Header, target: nat)
    requires ChainView(L, v) && OnView(v, finalized) && target < finalized.blockHeight
    ensures Walk(v, finalized, target).Success? ==> Direct(v, target) == Walk(v, finalized, target)
    ensures NoFailures(v, target, finalized.blockHeight) ==>
              (Walk(v, finalized, target).Success? <==> Direct(v, target).Success?)
  {
    WalkExact(L, v, finalized, target);
  }

  /** No lookup that the check needs for this entry fails. */
  ghost predicate Reachable(v: View, finalized: Header, rec: Header) {
    if finalized.blockHeight - rec.blockHeight > UNFINALIZED_THRESHOLD then rec.blockHeight !in v.failing
    else NoFailures(v, rec.blockHeight, finalized.blockHeight)
  }

  lemma {:induction false} ChainHeaderExact(L: Ledger, v: View, finalized: Header, rec: Header)
    requires ChainView(L, v) && OnView(v, finalized) && rec.blockHeight <= finalized.blockHeight
    ensures var r := ChainHeader(v, finalized, rec.blockHeight);
            && (r.Success? <==> rec.blockHeight in v.blocks && Reachable(v, finalized, rec))
            && (r.Success? ==> r.value == v.blocks[rec.blockHeight])
  {
    WalkExact(L, v, finalized, rec.blockHeight);
  }

  /** The check of one entry, at or below the finalized height. */
  lemma {:induction false} EntryChecked(L: Ledger, v: View, finalized: Header, blocks: seq<Header>, rec: Header)
    requires ChainView(L, v) && OnView(v, finalized) && Known(L, rec) && rec.blockHeight <= finalized.blockHeight
    requires Closest(blocks, finalized.blockHeight) == Some(rec)
    ensures var r := HasForked(v, finalized, blocks);
            && (r.Success? <==> rec.blockHeight in v.blocks && Reachable(v, finalized, rec))
            && (r.Success? ==> r.value == if OnView(v, rec) then None else Some(v.blocks[rec.blockHeight]))
  {
    ChainHeaderExact(L, v, finalized, rec);
    if rec.blockHeight in v.blocks {
      HashDecides(L, v, rec);
    }
  }

  /** The check gives an answer exactly when the slot of the greatest entry at or
      below the finalized height was produced on the chain, and reports a fork
      exactly when that entry is not the block there. */
  lemma {:induction false} HasForkedExact(L: Ledger, v: View, finalized: Header, blocks: seq<Header>)
    requires ChainView(L, v) && OnView(v, finalized) && Linked(L, blocks)
    ensures var low := AtMost(blocks, finalized.blockHeight);
            var r := HasForked(v, finalized, blocks);
            if |low| == 0 then r == Success(None)
            else
              var rec := Last(low);
              && (r.Success? <==> rec.blockHeight in v.blocks && Reachable(v, finalized, rec))
              && (r.Success? ==> r.value == if OnView(v, rec) then None else Some(v.blocks[rec.blockHeight]))
  {
    var low := AtMost(blocks, finalized.blockHeight);
    FiltersCut(blocks, finalized.blockHeight);
    ClosestIsLast(blocks, finalized.blockHeight);
    if |low| > 0 {
      assert Last(low) in blocks;
      EntryChecked(L, v, finalized, blocks, Last(low));
    }
  }

  lemma HashDecides(L: Ledger, v: View, b: Header)
    requires ChainView(L, v) && Known(L, b) && b.blockHeight in v.blocks
    ensures v.blocks[b.blockHeight].blockHash == b.blockHash <==> OnView(v, b)
  {
    if v.blocks[b.blockHeight].blockHash == b.blockHash {
      SameHashSameBlock(L, v, v.blocks[b.blockHeight], b);
    }
  }

  // ----- how many lookups -----

  /** The slots below `high`, from the highest down to `low`. */
  ghost predicate Descends(slots: seq<int>, high: int, low: int) {
    |slots| == high - low && forall i :: 0 <= i < |slots| ==> slots[i] == high - 1 - i
  }

  lemma DescendsOn(upper: seq<int>, lower: seq<int>, high: int, middle: int, low: int)
    requires Descends(upper, high, middle) && Descends(lower, middle, low)
    ensures Descends(upper + lower, high, low)
  {
  }

  lemma {:induction false} ParentProbesExact(v: View, height: int, h: Header)
    requires ParentByHeight(v, height - 1) == Success(h)
    ensures h.blockHeight < height && Descends(ParentProbes(v, height - 1), height, h.blockHeight)
    decreases if height < 0 then 0 else height
  {
    if Lookup(v, height - 1).Unavailable? {
      ParentProbesExact(v, height - 1, h);
      DescendsOn([height - 1], ParentProbes(v, height - 2), height, height - 1, h.blockHeight);
    }
  }

  lemma WalkStep(v: View, header: Header, target: nat) returns (p: Header)
    requires Walk(v, header, target).Success? && header.blockHeight != target
    ensures header.parentHash != "" && ParentByHeight(v, header.blockHeight - 1) == Success(p)
    ensures p.blockHeight < header.blockHeight && Walk(v, p, target).Success?
  {
    p := ParentByHeight(v, header.blockHeight - 1).value;
  }

  lemma WalkProbesParts(v: View, header: Header, target: nat, p: Header)
    requires header.blockHeight != target && header.parentHash != ""
    requires ParentByHeight(v, header.blockHeight - 1) == Success(p)
    ensures WalkProbes(v, header, target) == ParentProbes(v, header.blockHeight - 1) + WalkProbes(v, p, target)
  {
  }

  lemma {:induction false} WalkProbesExact(v: View, header: Header, target: nat)
    requires Walk(v, header, target).Success?
    ensures target <= header.blockHeight
    ensures Descends(WalkProbes(v, header, target), header.blockHeight, target)
    decreases header.blockHeight
  {
    if header.blockHeight != target {
      var p := WalkStep(v, header, target);
      ParentProbesExact(v, header.blockHeight, p);
      WalkProbesExact(v, p, target);
      DescendsOn(ParentProbes(v, header.blockHeight - 1), WalkProbes(v, p, target),
                 header.blockHeight, p.blockHeight, target);
      WalkProbesParts(v, header, target, p);
    }
  }

  /** A check that gives an answer asks for each slot from just below the
      finalized one down to the compared one, once, or for that one alone. */
  lemma {:induction false} ForkProbesExact(v: View, finalized: Header, blocks: seq<Header>)
    requires HasForked(v, finalized, blocks).Success?
    ensures var closest := Closest(blocks, finalized.blockHeight);
            var probes := ForkProbes(v, finalized, blocks);
            match closest
            case None => probes == []
            case Some(rec) =>
              var gap := finalized.blockHeight - rec.blockHeight;
              && (gap > UNFINALIZED_THRESHOLD ==> probes == [rec.blockHeight])
              && (gap <= UNFINALIZED_THRESHOLD ==>
                  0 <= gap && Descends(probes, finalized.blockHeight, rec.blockHeight))
  {
    var closest := Closest(blocks, finalized.blockHeight);
    if closest.Some? && finalized.blockHeight - closest.value.blockHeight <= UNFINALIZED_THRESHOLD {
      WalkProbesExact(v, finalized, closest.value.blockHeight);
    }
  }
}
