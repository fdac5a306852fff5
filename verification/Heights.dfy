/** Headers made from blocks that do not carry their own slot. */
module Heights {
  import opened Wrappers
  import opened Chain
  import opened Tracker
  import opened ForkCheck

  datatype Block = Block(parentSlot: nat, blockhash: string, previousBlockhash: string)

  /** Without the slot, the parent's slot plus one is taken. */
  function ToHeader(block: Block, slot: Option<nat>): Header {
    Header(if slot.Some? then slot.value else block.parentSlot + 1, block.blockhash, block.previousBlockhash)
  }

  /** The height up to which a dictionary response is taken to reach. */
  function LastBufferedHeight(blocks: seq<Block>): Option<nat> {
    if |blocks| == 0 then None else Some(ToHeader(blocks[|blocks| - 1], None).blockHeight)
  }

  /** The block that the chain produced in a slot.  The first block of a chain may
      name any slot as its parent's; in slot zero it names its own. */
  ghost predicate IsBlockAt(v: View, slot: nat, block: Block) {
    && slot in v.blocks
    && block.blockhash == v.blocks[slot].blockHash
    && block.previousBlockhash == v.blocks[slot].parentHash
    && (HasPrevious(v, slot) ==> block.parentSlot == GreatestAtOrBelow(v, slot - 1).value.blockHeight)
  }

  ghost predicate HasPrevious(v: View, slot: nat) {
    GreatestAtOrBelow(v, slot - 1).Some?
  }

  /** With its slot, a block's header is the chain's; without, it is the chain's
      exactly when the slot before is the parent's, and too high exactly when the
      parent's slot is not lower.  After the first block that never happens, and the
      slot before is the parent's exactly when it was not skipped. */
  lemma {:induction false} HeaderExact(v: View, slot: nat, block: Block)
    requires IsBlockAt(v, slot, block)
    ensures ToHeader(block, Some(slot)) == v.blocks[slot]
    ensures ToHeader(block, None) == v.blocks[slot] <==> block.parentSlot + 1 == slot
    ensures ToHeader(block, None).blockHeight <= slot <==> block.parentSlot < slot
    ensures HasPrevious(v, slot) ==>
              block.parentSlot < slot && (block.parentSlot + 1 == slot <==> slot - 1 in v.blocks)
  {
    var previous := GreatestAtOrBelow(v, slot - 1);
    if previous.Some? {
      assert previous.value.blockHeight <= slot - 1;
    }
  }

  /** Blocks of one chain, in order. */
  ghost predicate InSlots(v: View, slots: seq<nat>, blocks: seq<Block>) {
    && |slots| == |blocks|
    && (forall i, j :: 0 <= i < j < |slots| ==> slots[i] < slots[j])
    && (forall i :: 0 <= i < |slots| ==> IsBlockAt(v, slots[i], blocks[i]))
  }

  /** After the first, a block's parent is not before the previous block given. */
  lemma ParentsFollow(v: View, slots: seq<nat>, blocks: seq<Block>, i: nat, j: nat)
    requires InSlots(v, slots, blocks) && i < j < |slots|
    ensures slots[i] <= blocks[j].parentSlot < slots[j]
  {
    assert slots[i] in v.blocks && slots[i] <= slots[j] - 1;
    assert HasPrevious(v, slots[j]);
  }

  /** The heights without slots increase exactly when the first two do, and the
      last buffered height passes the last block's slot exactly when that block is
      the only one and its parent's slot is not lower. */
  lemma {:induction false} SlotlessOrder(v: View, slots: seq<nat>, blocks: seq<Block>)
    requires InSlots(v, slots, blocks)
    ensures (forall i, j :: 0 <= i < j < |blocks| ==>
               ToHeader(blocks[i], None).blockHeight < ToHeader(blocks[j], None).blockHeight) <==>
            |blocks| < 2 || blocks[0].parentSlot < blocks[1].parentSlot
    ensures |blocks| > 0 ==>
              (LastBufferedHeight(blocks).value > slots[|slots| - 1] <==>
               |blocks| == 1 && blocks[0].parentSlot >= slots[0])
  {
    var n := |blocks|;
    if n > 1 {
      ParentsFollow(v, slots, blocks, n - 2, n - 1);
      if blocks[0].parentSlot < blocks[1].parentSlot {
        forall i, j | 0 <= i < j < n ensures blocks[i].parentSlot < blocks[j].parentSlot {
          if i > 0 {
            ParentsFollow(v, slots, blocks, i - 1, i);
            ParentsFollow(v, slots, blocks, i, j);
          } else if j > 1 {
            ParentsFollow(v, slots, blocks, 0, 1);
            ParentsFollow(v, slots, blocks, 1, j);
          }
        }
      } else {
        assert ToHeader(blocks[0], None).blockHeight >= ToHeader(blocks[1], None).blockHeight;
      }
    }
  }

  /** The chain's blocks in slots zero and one get the same height without slots. */
  lemma {:induction false} FirstBlocksCollide(v: View, blocks: seq<Block>)
    requires InSlots(v, [0, 1], blocks) && blocks[0].parentSlot == 0
    ensures ToHeader(blocks[0], None).blockHeight == ToHeader(blocks[1], None).blockHeight == 1
  {
    ParentsFollow(v, [0, 1], blocks, 0, 1);
  }

  /** A header made without its slot, after a skipped one, lies in a skipped slot.
      Once it is the entry to be checked, the check gives no answer. */
  lemma {:induction false} SlotlessHeaderStopsCheck(L: Ledger, v: View, slot: nat, block: Block, finalized: Header,
                                                    blocks: seq<Header>)
    requires ChainView(L, v) && OnView(v, finalized) && IsBlockAt(v, slot, block)
    requires HasPrevious(v, slot) && slot - 1 !in v.blocks
    requires Closest(blocks, finalized.blockHeight) == Some(ToHeader(block, None))
    ensures HasForked(v, finalized, blocks).Failure?
  {
    var height := ToHeader(block, None).blockHeight;
    assert height !in v.blocks;
    assert height <= finalized.blockHeight by { ClosestIsAtMost(blocks, finalized.blockHeight); }
    WalkExact(L, v, finalized, height);
  }

  lemma {:induction false} ClosestIsAtMost(blocks: seq<Header>, height: nat)
    ensures Closest(blocks, height).Some? ==> Closest(blocks, height).value.blockHeight <= height
  {
    if |blocks| > 0 && Last(blocks).blockHeight > height {
      ClosestIsAtMost(blocks[..|blocks| - 1], height);
    }
  }
}
