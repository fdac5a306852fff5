/** What registering a header does to the list. */
module Registration {
  import opened Wrappers
  import opened Chain
  import opened Tracker
  import opened ForkCheck
  import opened Seqs

  // ----- a header of the current view -----

  /** The blocks produced in the slots lo..hi, in order. */
  ghost function Produced(v: View, lo: int, hi: int): seq<Header>
    decreases hi - lo
  {
    if lo > hi then []
    else (if lo in v.blocks then [v.blocks[lo]] else []) + Produced(v, lo + 1, hi)
  }

  /** The blocks given by Produced are exactly those of the slots it covers, in
      strictly increasing order. */
  lemma {:induction false} ProducedExact(v: View, lo: int, hi: int)
    ensures Increasing(Produced(v, lo, hi))
    ensures forall h :: h in Produced(v, lo, hi) <==> OnView(v, h) && lo <= h.blockHeight <= hi
    decreases hi - lo
  {
    if lo <= hi {
      ProducedExact(v, lo + 1, hi);
    }
  }

  /** From an entry on the view, backfilling appends every produced block and
      finds no fork. */
  lemma {:induction false} BackfillFollows(L: Ledger, v: View, blocks: seq<Header>, lo: int, hi: int)
    requires ChainView(L, v) && |blocks| > 0
    requires GreatestAtOrBelow(v, lo - 1) == Some(Last(blocks))
    requires 0 <= lo <= hi + 1 && NoFailures(v, lo, hi + 1)
    ensures Backfill(v, blocks, lo, hi) == (blocks + Produced(v, lo, hi), Success(None))
    ensures GreatestAtOrBelow(v, hi) == Some(Last(blocks + Produced(v, lo, hi)))
    decreases hi - lo
  {
    if lo > hi {
      assert blocks + [] == blocks;
    } else if lo in v.blocks {
      assert ChainBlock(L, v, lo);
      BackfillFollows(L, v, blocks + [v.blocks[lo]], lo + 1, hi);
      ProducedFirst(v, blocks, lo, hi);
    } else {
      BackfillFollows(L, v, blocks, lo + 1, hi);
      assert Produced(v, lo, hi) == Produced(v, lo + 1, hi);
    }
  }

  lemma ProducedFirst(v: View, blocks: seq<Header>, lo: int, hi: int)
    requires lo <= hi && lo in v.blocks
    ensures blocks + [v.blocks[lo]] + Produced(v, lo + 1, hi) == blocks + Produced(v, lo, hi)
  {
    Associative(blocks, [v.blocks[lo]], Produced(v, lo + 1, hi));
  }

  /** From an entry that is not on the view, backfilling stops at the first
      produced block, which it reports, and appends nothing. */
  lemma {:induction false} BackfillStops(L: Ledger, v: View, blocks: seq<Header>, lo: int, hi: int)
    requires ChainView(L, v) && |blocks| > 0 && Known(L, Last(blocks)) && !OnView(v, Last(blocks))
    requires 0 <= lo <= hi + 1 && NoFailures(v, lo, hi + 1)
    ensures Backfill(v, blocks, lo, hi) ==
            (blocks, Success(if Produced(v, lo, hi) == [] then None else Some(Produced(v, lo, hi)[0])))
    decreases hi - lo
  {
    if lo <= hi {
      if lo in v.blocks {
        MustNotLink(L, v, v.blocks[lo], Last(blocks));
      } else {
        BackfillStops(L, v, blocks, lo + 1, hi);
      }
    }
  }

  lemma {:induction false} MustNotLink(L: Ledger, v: View, h: Header, orphan: Header)
    requires ChainView(L, v) && OnView(v, h) && Known(L, orphan) && !OnView(v, orphan)
    ensures h.parentHash != orphan.blockHash
  {
    if h.parentHash == orphan.blockHash {
      ParentIsPrevious(L, v, h, orphan);
    }
  }

  lemma {:induction false} ProducedSplit(v: View, lo: int, hi: int)
    requires lo <= hi + 1
    ensures Produced(v, lo, hi + 1) == Produced(v, lo, hi) + if hi + 1 in v.blocks then [v.blocks[hi + 1]] else []
    decreases hi - lo
  {
    if lo <= hi {
      ProducedSplit(v, lo + 1, hi);
    } else {
      assert Produced(v, hi + 2, hi + 1) == [];
    }
  }

  /** Where backfilling ends, on any view: at the first slot that fails, or at the
      first block that does not name the last entry as its parent; up to there it
      has appended every produced block of the range, in order. */
  ghost predicate BackfillEnds(v: View, blocks: seq<Header>, lo: int, hi: int, after: seq<Header>, r: Verdict) {
    match r
    case Success(None) => NoFailures(v, lo, hi + 1) && after == blocks + Produced(v, lo, hi)
    case Success(Some(f)) =>
      && OnView(v, f) && lo <= f.blockHeight <= hi && NoFailures(v, lo, f.blockHeight + 1)
      && after == blocks + Produced(v, lo, f.blockHeight - 1)
      && |after| > 0 && f.parentHash != Last(after).blockHash
    case Failure(e) =>
      e == RpcFailure && exists k :: lo <= k <= hi && k in v.failing && NoFailures(v, lo, k)
                                     && after == blocks + Produced(v, lo, k - 1)
  }

  lemma BackfillEndsLater(v: View, blocks: seq<Header>, lo: int, hi: int, after: seq<Header>, r: Verdict)
    requires |blocks| > 0 && 0 <= lo <= hi && lo !in v.failing
    requires BackfillEnds(v, blocks + if lo in v.blocks then [v.blocks[lo]] else [], lo + 1, hi, after, r)
    ensures BackfillEnds(v, blocks, lo, hi, after, r)
  {
    var first := if lo in v.blocks then [v.blocks[lo]] else [];
    forall k | lo <= k <= hi ensures (blocks + first) + Produced(v, lo + 1, k) == blocks + Produced(v, lo, k) {
      Associative(blocks, first, Produced(v, lo + 1, k));
    }
    if r.Failure? {
      var k :| lo + 1 <= k <= hi && k in v.failing && NoFailures(v, lo + 1, k)
               && after == (blocks + first) + Produced(v, lo + 1, k - 1);
      assert NoFailures(v, lo, k);
    }
  }

  lemma {:induction false} BackfillExact(v: View, blocks: seq<Header>, lo: int, hi: int)
    requires |blocks| > 0 && 0 <= lo
    ensures var (after, r) := Backfill(v, blocks, lo, hi); BackfillEnds(v, blocks, lo, hi, after, r)
    decreases hi - lo
  {
    if lo <= hi {
      var (after, r) := Backfill(v, blocks, lo, hi);
      match Lookup(v, lo)
      case Failed =>
        assert blocks + Produced(v, lo, lo - 1) == blocks;
        assert NoFailures(v, lo, lo);
      case Unavailable =>
        BackfillExact(v, blocks, lo + 1, hi);
        assert blocks + [] == blocks;
        BackfillEndsLater(v, blocks, lo, hi, after, r);
      case Found(h) =>
        if h.parentHash == Last(blocks).blockHash {
          BackfillExact(v, blocks + [h], lo + 1, hi);
          BackfillEndsLater(v, blocks, lo, hi, after, r);
        } else {
          assert blocks + Produced(v, lo, lo - 1) == blocks;
        }
    } else {
      assert blocks + [] == blocks;
    }
  }

  /** Whatever the view and the header, a registration onto a list that finds no
      fork appends exactly the blocks produced after the last entry and before the
      header, in order, then the header, and saves the list. */
  lemma {:induction false} RegisterAppends(v: View, s: State, header: Header)
    requires |s.blocks| > 0 && s.finalized.blockHeight < header.blockHeight
    requires Register(v, s, header).1 == Success(None)
    ensures var all := s.blocks + Produced(v, Last(s.blocks).blockHeight + 1, header.blockHeight - 1) + [header];
            Register(v, s, header).0 == s.(blocks := all, savedBlocks := Some(all))
  {
    BackfillExact(v, s.blocks, Last(s.blocks).blockHeight + 1, header.blockHeight - 1);
  }

  /** The blocks produced between the last entry and a header. */
  ghost function Gap(v: View, s: State, header: Header): seq<Header>
    requires |s.blocks| > 0
  {
    Produced(v, Last(s.blocks).blockHeight + 1, header.blockHeight - 1)
  }

  /** A header of any branch that comes after the last entry.  If the gap holds
      blocks and the last entry is not on the view, the first of them is reported
      and nothing changes.  Otherwise the gap is appended; then the header is
      reported if it does not follow the last entry, and appended and saved if it
      does. */
  lemma {:induction false} RegisterExact(L: Ledger, v: View, s: State, header: Header)
    requires ChainView(L, v) && Linked(L, s.blocks) && |s.blocks| > 0
    requires Last(s.blocks).blockHeight < header.blockHeight && s.finalized.blockHeight < header.blockHeight
    requires NoFailures(v, Last(s.blocks).blockHeight + 1, header.blockHeight)
    ensures var gap := Gap(v, s, header);
            var all := s.blocks + gap;
            Register(v, s, header) ==
            if |gap| > 0 && !OnView(v, Last(s.blocks)) then (s, Success(Some(gap[0])))
            else if header.parentHash != Last(all).blockHash then (s.(blocks := all), Success(Some(header)))
            else (s.(blocks := all + [header], savedBlocks := Some(all + [header])), Success(None))
  {
    var last := Last(s.blocks);
    var lo, hi := last.blockHeight + 1, header.blockHeight - 1;
    assert last in s.blocks;
    if OnView(v, last) {
      BackfillFollows(L, v, s.blocks, lo, hi);
    } else {
      BackfillStops(L, v, s.blocks, lo, hi);
      assert s.(blocks := s.blocks) == s && s.blocks + [] == s.blocks;
    }
  }

  /** For a header of the view, no fork is found exactly when the last entry is on
      the view; then the list grows by all produced blocks up to and including the
      header, and otherwise the first of them is reported and nothing changes. */
  lemma {:induction false} RegisterCurrent(L: Ledger, v: View, s: State, header: Header)
    requires ChainView(L, v) && Linked(L, s.blocks) && |s.blocks| > 0 && OnView(v, header)
    requires Last(s.blocks).blockHeight < header.blockHeight && s.finalized.blockHeight < header.blockHeight
    requires NoFailures(v, Last(s.blocks).blockHeight + 1, header.blockHeight)
    ensures var added := Produced(v, Last(s.blocks).blockHeight + 1, header.blockHeight);
            && |added| > 0 && Last(added) == header
            && Register(v, s, header) ==
               if OnView(v, Last(s.blocks)) then
                 (s.(blocks := s.blocks + added, savedBlocks := Some(s.blocks + added)), Success(None))
               else (s, Success(Some(added[0])))
  {
    var last, gap := Last(s.blocks), Gap(v, s, header);
    var lo, hi := last.blockHeight + 1, header.blockHeight - 1;
    assert last in s.blocks;
    RegisterExact(L, v, s, header);
    ProducedSplit(v, lo, hi);
    if OnView(v, last) {
      BackfillFollows(L, v, s.blocks, lo, hi);
      assert ChainBlock(L, v, header.blockHeight);
      Associative(s.blocks, gap, [header]);
    } else {
      MustNotLink(L, v, header, last);
      if gap == [] {
        assert s.(blocks := s.blocks + gap) == s;
      }
    }
  }

  /** After a header of the view is registered, the whole list is on the view. */
  lemma {:induction false} RegisteredListOnView(L: Ledger, v: View, s: State, header: Header)
    requires ChainView(L, v) && Linked(L, s.blocks) && OnView(v, header)
    requires s.finalized.blockHeight < header.blockHeight
    requires Register(v, s, header).1 == Success(None)
    ensures forall b :: b in Register(v, s, header).0.blocks ==> OnView(v, b)
  {
    assert ChainBlock(L, v, header.blockHeight);
    RegisterKeeps(L, v, s, header);
    var blocks := Register(v, s, header).0.blocks;
    assert Last(blocks) == header;
    forall i | 0 <= i < |blocks| ensures OnView(v, blocks[i]) {
      OlderEntriesOnView(L, v, blocks, |blocks| - 1, i);
    }
  }

  // ----- any known header, from this view or an abandoned one -----

  lemma {:induction false} AppendLinked(L: Ledger, blocks: seq<Header>, header: Header)
    requires Linked(L, blocks) && Known(L, header)
    requires |blocks| > 0 ==> Last(blocks).blockHeight < header.blockHeight
                              && header.parentHash == Last(blocks).blockHash
    ensures Linked(L, blocks + [header])
  {
    var more := blocks + [header];
    forall i, j | 0 <= i < j < |more| ensures more[i].blockHeight < more[j].blockHeight {
      if j == |blocks| && i < j - 1 { assert blocks[i].blockHeight < blocks[j - 1].blockHeight; }
    }
    forall i | 0 < i < |more| ensures more[i].parentHash == more[i - 1].blockHash {
      if i < |blocks| { assert blocks[i].parentHash == blocks[i - 1].blockHash; }
    }
  }

  /** The list is only appended to, with blocks of the slots lo..hi, and stays
      linked; a block that is reported is on the view. */
  ghost predicate Extended(L: Ledger, v: View, blocks: seq<Header>, lo: int, hi: int, after: seq<Header>, r: Verdict) {
    && blocks <= after && Linked(L, after)
    && (forall i :: |blocks| <= i < |after| ==> lo <= after[i].blockHeight <= hi)
    && (r.Success? && r.value.Some? ==> OnView(v, r.value.value))
  }

  lemma ExtendedByOne(L: Ledger, v: View, blocks: seq<Header>, h: Header, lo: int, hi: int, after: seq<Header>, r: Verdict)
    requires Extended(L, v, blocks + [h], lo + 1, hi, after, r) && h.blockHeight == lo <= hi
    ensures Extended(L, v, blocks, lo, hi, after, r)
  {
    assert after[|blocks|] == (blocks + [h])[|blocks|] == h;
    assert blocks == (blocks + [h])[..|blocks|];
  }

  lemma ExtendedBySkip(L: Ledger, v: View, blocks: seq<Header>, lo: int, hi: int, after: seq<Header>, r: Verdict)
    requires Extended(L, v, blocks, lo + 1, hi, after, r)
    ensures Extended(L, v, blocks, lo, hi, after, r)
  {
  }

  lemma {:induction false} BackfillKeeps(L: Ledger, v: View, blocks: seq<Header>, lo: int, hi: int)
    requires ChainView(L, v) && Linked(L, blocks)
    requires |blocks| > 0 ==> Last(blocks).blockHeight < lo
    ensures var (after, r) := Backfill(v, blocks, lo, hi); Extended(L, v, blocks, lo, hi, after, r)
    decreases hi - lo
  {
    if lo <= hi {
      var (after, r) := Backfill(v, blocks, lo, hi);
      match Lookup(v, lo)
      case Failed =>
      case Unavailable =>
        BackfillKeeps(L, v, blocks, lo + 1, hi);
        ExtendedBySkip(L, v, blocks, lo, hi, after, r);
      case Found(h) =>
        if |blocks| == 0 || h.parentHash == Last(blocks).blockHash {
          assert ChainBlock(L, v, lo);
          AppendLinked(L, blocks, h);
          BackfillKeeps(L, v, blocks + [h], lo + 1, hi);
          ExtendedByOne(L, v, blocks, h, lo, hi, after, r);
        }
    }
  }

  ghost predicate Grown(L: Ledger, s: State, after: State) {
    && s.blocks <= after.blocks && Linked(L, after.blocks)
    && (forall i :: |s.blocks| <= i < |after.blocks| ==>
          after.blocks[i].blockHeight > if |s.blocks| > 0 then Last(s.blocks).blockHeight
                                        else s.finalized.blockHeight)
    && after == s.(blocks := after.blocks, savedBlocks := after.savedBlocks)
    && (after.savedBlocks == s.savedBlocks || after.savedBlocks == Some(after.blocks))
  }

  lemma {:induction false} RegisterGap(L: Ledger, v: View, s: State, header: Header)
    requires ChainView(L, v) && Linked(L, s.blocks) && Known(L, header)
    requires |s.blocks| > 0 && Last(s.blocks).blockHeight < header.blockHeight
    ensures var (blocks, r) := Backfill(v, s.blocks, Last(s.blocks).blockHeight + 1, header.blockHeight - 1);
            var s1 := s.(blocks := blocks);
            && Grown(L, s, s1)
            && |blocks| > 0 && Last(blocks).blockHeight < header.blockHeight
            && (r.Success? && r.value.Some? ==> OnView(v, r.value.value))
            && (header.parentHash == Last(blocks).blockHash ==> Grown(L, s, PushAndSave(s1, header)))
  {
    var lo, hi := Last(s.blocks).blockHeight + 1, header.blockHeight - 1;
    BackfillKeeps(L, v, s.blocks, lo, hi);
    var blocks := Backfill(v, s.blocks, lo, hi).0;
    GapGrows(L, s, blocks, header.blockHeight);
    if header.parentHash == Last(blocks).blockHash {
      PushGrows(L, s, s.(blocks := blocks), header);
    }
  }

  lemma GapGrows(L: Ledger, s: State, blocks: seq<Header>, height: nat)
    requires |s.blocks| > 0 && s.blocks <= blocks && Linked(L, blocks)
    requires Last(s.blocks).blockHeight < height
    requires forall i :: |s.blocks| <= i < |blocks| ==> Last(s.blocks).blockHeight < blocks[i].blockHeight < height
    ensures Grown(L, s, s.(blocks := blocks))
    ensures Last(blocks).blockHeight < height
  {
    assert |blocks| == |s.blocks| ==> blocks == s.blocks;
  }

  /** Whatever is registered, the list is only appended to and stays linked, and
      the saved copy is either untouched or the whole new list.  A reported block
      is on the view unless it is the registered header itself. */
  lemma {:induction false} RegisterKeeps(L: Ledger, v: View, s: State, header: Header)
    requires ChainView(L, v) && Linked(L, s.blocks) && Known(L, header)
    ensures var (after, r) := Register(v, s, header);
            && Grown(L, s, after)
            && (after.blocks != s.blocks && r == Success(None) ==> after.savedBlocks == Some(after.blocks))
            && (r.Success? && r.value.Some? ==> OnView(v, r.value.value) || r.value.value == header)
  {
    if header.blockHeight > s.finalized.blockHeight {
      if |s.blocks| == 0 {
        FirstGrows(L, s, header);
      } else if Last(s.blocks).blockHeight < header.blockHeight {
        RegisterLaterKeeps(L, v, s, header);
      }
    }
  }

  lemma RegisterLaterKeeps(L: Ledger, v: View, s: State, header: Header)
    requires ChainView(L, v) && Linked(L, s.blocks) && Known(L, header) && |s.blocks| > 0
    requires Last(s.blocks).blockHeight < header.blockHeight && s.finalized.blockHeight < header.blockHeight
    ensures var (after, r) := Register(v, s, header);
            && Grown(L, s, after)
            && (after.blocks != s.blocks && r == Success(None) ==> after.savedBlocks == Some(after.blocks))
            && (r.Success? && r.value.Some? ==> OnView(v, r.value.value) || r.value.value == header)
  {
    RegisterGap(L, v, s, header);
    var (blocks, r) := Backfill(v, s.blocks, Last(s.blocks).blockHeight + 1, header.blockHeight - 1);
    if r != Success(None) {
      assert Register(v, s, header) == (s.(blocks := blocks), r);
    } else if header.parentHash != Last(blocks).blockHash {
      assert Register(v, s, header) == (s.(blocks := blocks), Success(Some(header)));
    } else {
      assert Register(v, s, header) == (PushAndSave(s.(blocks := blocks), header), Success(None));
    }
  }

  lemma FirstGrows(L: Ledger, s: State, header: Header)
    requires s.blocks == [] && Known(L, header) && s.finalized.blockHeight < header.blockHeight
    ensures Grown(L, s, PushAndSave(s, header))
  {
    AppendLinked(L, s.blocks, header);
  }

  lemma PushGrows(L: Ledger, s: State, s1: State, header: Header)
    requires Grown(L, s, s1) && |s.blocks| > 0 && Known(L, header)
    requires Last(s1.blocks).blockHeight < header.blockHeight
    requires header.parentHash == Last(s1.blocks).blockHash
    ensures Grown(L, s, PushAndSave(s1, header))
  {
    AppendLinked(L, s1.blocks, header);
    assert Last(s.blocks).blockHeight <= Last(s1.blocks).blockHeight;
  }
}
