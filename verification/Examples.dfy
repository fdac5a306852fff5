/** Runs that lead to states in which a fork is not reported, or leads somewhere
    other than to the highest stored block of the chain. */
module Examples {
  import opened Wrappers
  import opened Chain
  import opened Tracker
  import opened ForkCheck
  import opened Rewind
  import opened Registration
  import opened Runs

  // ----- how the states are reached -----

  /** The list can be delivered entry by entry, above the finalized slot, with
      nothing to backfill. */
  ghost predicate Deliverable(L: Ledger, v: View, finalizedSlot: nat, blocks: seq<Header>) {
    Linked(L, blocks) && AllAbove(blocks, finalizedSlot) && NoGaps(v, blocks)
  }

  ghost predicate NoGaps(v: View, blocks: seq<Header>) {
    forall i :: 0 < i < |blocks| ==> Produced(v, blocks[i - 1].blockHeight + 1, blocks[i].blockHeight - 1) == []
  }

  lemma {:induction false} NothingToBackfill(v: View, blocks: seq<Header>, lo: int, hi: int)
    requires v.failing == {} && 0 <= lo && Produced(v, lo, hi) == []
    ensures Backfill(v, blocks, lo, hi) == (blocks, Success(None))
    decreases hi - lo
  {
    if lo <= hi {
      assert lo !in v.blocks;
      NothingToBackfill(v, blocks, lo + 1, hi);
    }
  }

  lemma RegisterNext(v: View, s: State, b: Header)
    requires v.failing == {} && s.finalized.blockHeight < b.blockHeight
    requires |s.blocks| > 0 ==>
               && Last(s.blocks).blockHeight < b.blockHeight && b.parentHash == Last(s.blocks).blockHash
               && Produced(v, Last(s.blocks).blockHeight + 1, b.blockHeight - 1) == []
    ensures Register(v, s, b) == (PushAndSave(s, b), Success(None))
  {
    if |s.blocks| > 0 {
      NothingToBackfill(v, s.blocks, Last(s.blocks).blockHeight + 1, b.blockHeight - 1);
      assert s.(blocks := s.blocks) == s;
    }
  }

  lemma NothingToCheck(v: View, s: State)
    requires Increasing(s.blocks) && AllAbove(s.blocks, s.finalized.blockHeight)
    ensures HasForked(v, s.finalized, s.blocks) == Success(None)
  {
    FiltersAt(s.blocks, s.finalized.blockHeight, 0);
    ClosestIsLast(s.blocks, s.finalized.blockHeight);
  }

  /** The state after the deliveries. */
  function Holding(finalized: Header, blocks: seq<Header>): State {
    if blocks == [] then State([], finalized, Undefined, None, Undefined)
    else State(blocks, finalized, At(finalized.blockHeight), Some(blocks), Undefined)
  }

  lemma DeliverNext(v: View, slot: nat, finalized: Header, blocks: seq<Header>, b: Header)
    requires Register(v, Holding(finalized, blocks), b) == (PushAndSave(Holding(finalized, blocks), b), Success(None))
    requires HasForked(v, finalized, blocks + [b]) == Success(None)
    ensures Step(World(v, slot, true, Holding(finalized, blocks)), Deliver(Some(b))).0 ==
            World(v, slot, true, Holding(finalized, blocks + [b]))
  {
    assert Process(v, Holding(finalized, blocks), Some(b)) == (Holding(finalized, blocks + [b]), Success(None));
  }

  lemma DeliverableFront(L: Ledger, v: View, slot: nat, blocks: seq<Header>)
    requires Deliverable(L, v, slot, blocks) && |blocks| > 0
    ensures Deliverable(L, v, slot, blocks[..|blocks| - 1])
  {
    LinkedPrefix(L, blocks, |blocks| - 1);
  }

  lemma RegisterLast(L: Ledger, v: View, slot: nat, blocks: seq<Header>, front: seq<Header>, b: Header)
    requires ChainOk(L, v, slot) && v.failing == {} && Deliverable(L, v, slot, blocks) && blocks == front + [b]
    ensures var s := Holding(v.blocks[slot], front); Register(v, s, b) == (PushAndSave(s, b), Success(None))
  {
    var n := |front|;
    assert blocks[n] == b && b in blocks;
    if n > 0 {
      assert blocks[n - 1] == Last(front);
      assert blocks[n].parentHash == blocks[n - 1].blockHash;
    }
    RegisterNext(v, Holding(v.blocks[slot], front), b);
  }

  lemma DeliverLast(L: Ledger, v: View, slot: nat, blocks: seq<Header>, front: seq<Header>, b: Header)
    requires ChainOk(L, v, slot) && v.failing == {} && Deliverable(L, v, slot, blocks) && blocks == front + [b]
    ensures Step(World(v, slot, true, Holding(v.blocks[slot], front)), Deliver(Some(b))).0 ==
            World(v, slot, true, Holding(v.blocks[slot], blocks))
  {
    RegisterLast(L, v, slot, blocks, front, b);
    NothingToCheck(v, Holding(v.blocks[slot], blocks));
    DeliverNext(v, slot, v.blocks[slot], front, b);
  }

  lemma Started(L: Ledger, v: View, slot: nat)
    requires ChainOk(L, v, slot) && v.failing == {}
    ensures Reached(L, World(v, slot, true, Holding(v.blocks[slot], [])))
  {
    var w := World(v, slot, false, Holding(v.blocks[slot], []));
    ReachedStart(L, w);
    ReachedStep(L, w, Restart);
  }

  lemma DeliverOne(L: Ledger, v: View, slot: nat, blocks: seq<Header>, front: seq<Header>, b: Header)
    requires ChainOk(L, v, slot) && v.failing == {} && Deliverable(L, v, slot, blocks) && blocks == front + [b]
    requires Reached(L, World(v, slot, true, Holding(v.blocks[slot], front)))
    ensures Reached(L, World(v, slot, true, Holding(v.blocks[slot], blocks)))
  {
    assert b in blocks;
    ReachedStep(L, World(v, slot, true, Holding(v.blocks[slot], front)), Deliver(Some(b)));
    DeliverLast(L, v, slot, blocks, front, b);
  }

  lemma {:induction false} Delivered(L: Ledger, v: View, slot: nat, blocks: seq<Header>)
    requires ChainOk(L, v, slot) && v.failing == {} && Deliverable(L, v, slot, blocks)
    ensures Reached(L, World(v, slot, true, Holding(v.blocks[slot], blocks)))
  {
    if |blocks| == 0 {
      Started(L, v, slot);
    } else {
      var front, b := blocks[..|blocks| - 1], Last(blocks);
      assert blocks == front + [b];
      DeliverableFront(L, v, slot, blocks);
      Delivered(L, v, slot, front);
      DeliverOne(L, v, slot, blocks, front, b);
    }
  }

  /** Then the chain moves on, and a higher header is registered as finalized. */
  lemma Arrived(L: Ledger, v: View, slot: nat, blocks: seq<Header>, v': View, finalized: Header)
    requires ChainOk(L, v, slot) && v.failing == {} && Deliverable(L, v, slot, blocks) && |blocks| > 0
    requires ChainView(L, v') && OnView(v', finalized) && slot < finalized.blockHeight && Agree(v, v', slot)
    ensures Reached(L, World(v', finalized.blockHeight, true,
                             State(blocks, finalized, At(slot), Some(blocks), Undefined)))
  {
    Delivered(L, v, slot, blocks);
    var w := World(v, slot, true, Holding(v.blocks[slot], blocks));
    var e := Advance(v', finalized.blockHeight);
    ReachedStep(L, w, e);
    ReachedStep(L, Step(w, e).0, Finalize(finalized));
  }

  // ----- chains given by their blocks -----

  function ChainOf(blocks: seq<Header>): View {
    if |blocks| == 0 then RawView(map[], {})
    else
      var n := |blocks| - 1;
      RawView(ChainOf(blocks[..n]).blocks[blocks[n].blockHeight := blocks[n]], {})
  }

  lemma {:induction false} ChainOfExact(blocks: seq<Header>)
    requires Increasing(blocks)
    ensures ChainOf(blocks).failing == {}
    ensures forall h :: OnView(ChainOf(blocks), h) <==> h in blocks
  {
    if |blocks| > 0 {
      var n := |blocks| - 1;
      ChainOfExact(blocks[..n]);
      assert blocks[..n] + [blocks[n]] == blocks;
      forall h | h in blocks[..n] ensures h.blockHeight < blocks[n].blockHeight {
        var i :| 0 <= i < n && blocks[i] == h;
      }
    }
  }

  lemma {:induction false} Below(v: View, a: Header, slot: int)
    requires OnView(v, a) && a.blockHeight <= slot && forall s :: a.blockHeight < s <= slot ==> s !in v.blocks
    ensures GreatestAtOrBelow(v, slot) == Some(a)
    ensures Rank(v, slot) == Rank(v, a.blockHeight)
  {
    if a.blockHeight < slot {
      Below(v, a, slot - 1);
    }
  }

  lemma {:induction false} NoneBelow(v: View, slot: int)
    requires forall s :: s <= slot ==> s !in v.blocks
    ensures GreatestAtOrBelow(v, slot) == None && Rank(v, slot) == 0
    decreases if slot < 0 then 0 else slot + 1
  {
    if slot >= 0 {
      NoneBelow(v, slot - 1);
    }
  }

  lemma {:induction false} SlotsOf(blocks: seq<Header>, slot: int)
    ensures slot in ChainOf(blocks).blocks <==> Stored(blocks, slot)
  {
    if |blocks| > 0 {
      var n := |blocks| - 1;
      SlotsOf(blocks[..n], slot);
      assert forall i :: 0 <= i < n ==> blocks[..n][i] == blocks[i];
    }
  }

  lemma NoneBetween(blocks: seq<Header>, i: nat, slot: int)
    requires Increasing(blocks) && i < |blocks| && slot < blocks[i].blockHeight
    requires i > 0 ==> blocks[i - 1].blockHeight < slot
    ensures slot !in ChainOf(blocks).blocks
  {
    SlotsOf(blocks, slot);
    if i > 0 {
      NotBetween(blocks, i, slot);
    } else {
      assert forall k :: 0 < k < |blocks| ==> blocks[0].blockHeight < blocks[k].blockHeight;
    }
  }

  /** Before block i the chain has i blocks, the last of them block i - 1. */
  lemma {:induction false} ChainBefore(blocks: seq<Header>, i: nat)
    requires Increasing(blocks) && i < |blocks|
    ensures var v := ChainOf(blocks);
            && GreatestAtOrBelow(v, blocks[i].blockHeight - 1) == (if i == 0 then None else Some(blocks[i - 1]))
            && Rank(v, blocks[i].blockHeight) == i + 1
  {
    ChainOfExact(blocks);
    assert OnView(ChainOf(blocks), blocks[i]);
    if i == 0 {
      forall s | s < blocks[0].blockHeight ensures s !in ChainOf(blocks).blocks {
        NoneBetween(blocks, 0, s);
      }
      NoneBelow(ChainOf(blocks), blocks[0].blockHeight - 1);
    } else {
      ChainBefore(blocks, i - 1);
      BlockBefore(blocks, i);
    }
  }

  lemma BlockBefore(blocks: seq<Header>, i: nat)
    requires Increasing(blocks) && 0 < i < |blocks|
    ensures var v := ChainOf(blocks);
            && GreatestAtOrBelow(v, blocks[i].blockHeight - 1) == Some(blocks[i - 1])
            && Rank(v, blocks[i].blockHeight - 1) == Rank(v, blocks[i - 1].blockHeight)
  {
    ChainOfExact(blocks);
    assert OnView(ChainOf(blocks), blocks[i - 1]) && blocks[i - 1].blockHeight < blocks[i].blockHeight;
    forall s | blocks[i - 1].blockHeight < s <= blocks[i].blockHeight - 1 ensures s !in ChainOf(blocks).blocks {
      NoneBetween(blocks, i, s);
    }
    Below(ChainOf(blocks), blocks[i - 1], blocks[i].blockHeight - 1);
  }

  /** The first block names no known block, and no parent hash is missing. */
  ghost predicate Rooted(L: Ledger, blocks: seq<Header>) {
    |blocks| > 0 && blocks[0].parentHash !in L && forall b :: b in blocks ==> b.parentHash != ""
  }

  lemma {:induction false} ChainOfIsChain(L: Ledger, blocks: seq<Header>)
    requires Linked(L, blocks) && Rooted(L, blocks)
    ensures ChainView(L, ChainOf(blocks))
  {
    var v := ChainOf(blocks);
    ChainOfExact(blocks);
    forall s | s in v.blocks ensures ChainBlock(L, v, s) {
      assert OnView(v, v.blocks[s]);
      var i :| 0 <= i < |blocks| && blocks[i] == v.blocks[s];
      IsChainBlock(L, blocks, i);
    }
  }

  lemma IsChainBlock(L: Ledger, blocks: seq<Header>, i: nat)
    requires Linked(L, blocks) && Rooted(L, blocks) && i < |blocks|
    ensures OnView(ChainOf(blocks), blocks[i]) && ChainBlock(L, ChainOf(blocks), blocks[i].blockHeight)
  {
    ChainOfExact(blocks);
    ChainBefore(blocks, i);
    assert blocks[i] in blocks && OnView(ChainOf(blocks), blocks[i]);
    assert i > 0 ==> blocks[i].parentHash == blocks[i - 1].blockHash;
  }

  lemma AllAtOrBelow(s: State)
    requires forall i :: 0 <= i < |s.blocks| ==> s.blocks[i].blockHeight <= s.finalized.blockHeight
    ensures Best(s) == s.blocks
  {
    FiltersAt(s.blocks, s.finalized.blockHeight, |s.blocks|);
    assert s.blocks[..|s.blocks|] == s.blocks;
  }

  /** Two branches from block a: the blocks of `stored` are delivered above a, which
      is finalized; then the chain turns to the branch `later`, and its last block is
      finalized. */
  ghost function Turned(a: Header, stored: seq<Header>, later: seq<Header>): World
    requires |later| > 0
  {
    World(ChainOf([a] + later), Last(later).blockHeight, true,
          State(stored, Last(later), At(a.blockHeight), Some(stored), Undefined))
  }

  lemma {:induction false} TurnedIsReached(L: Ledger, a: Header, stored: seq<Header>, later: seq<Header>)
    requires |stored| > 0 && |later| > 0
    requires Linked(L, [a] + stored) && Rooted(L, [a] + stored)
    requires Linked(L, [a] + later) && Rooted(L, [a] + later)
    ensures Reached(L, Turned(a, stored, later)) && ChainView(L, ChainOf([a] + later))
    ensures var s := Turned(a, stored, later).s; Tracked(L, ChainOf([a] + later), s)
  {
    var v, v' := ChainOf([a] + stored), ChainOf([a] + later);
    ChainOfIsChain(L, [a] + stored);
    ChainOfIsChain(L, [a] + later);
    ChainOfExact([a] + stored);
    ChainOfExact([a] + later);
    StoredIsDeliverable(L, a, stored);
    OnlyTheFirst(a, stored);
    OnlyTheFirst(a, later);
    assert Last(later) in [a] + later && a in [a] + stored && a in [a] + later;
    assert ([a] + later)[|later|] == Last(later);
    Arrived(L, v, a.blockHeight, stored, v', Last(later));
  }

  lemma OnlyTheFirst(a: Header, rest: seq<Header>)
    requires Increasing([a] + rest)
    ensures forall h :: h in [a] + rest && h.blockHeight <= a.blockHeight <==> h == a
    ensures AllAbove(rest, a.blockHeight) && Increasing(rest)
  {
    var all := [a] + rest;
    forall h | h in rest ensures h.blockHeight > a.blockHeight {
      var i :| 0 <= i < |rest| && rest[i] == h;
      assert all[0].blockHeight < all[i + 1].blockHeight;
    }
    forall i, j | 0 <= i < j < |rest| ensures rest[i].blockHeight < rest[j].blockHeight {
      assert all[i + 1].blockHeight < all[j + 1].blockHeight;
    }
  }

  lemma StoredIsDeliverable(L: Ledger, a: Header, stored: seq<Header>)
    requires Linked(L, [a] + stored)
    ensures Deliverable(L, ChainOf([a] + stored), a.blockHeight, stored)
  {
    OnlyTheFirst(a, stored);
    LinkedSuffix(L, [a] + stored, 1);
    assert ([a] + stored)[1..] == stored;
    AllHaveNoGaps([a] + stored);
    TailHasNoGaps(ChainOf([a] + stored), a, stored);
  }

  lemma AllHaveNoGaps(blocks: seq<Header>)
    requires Increasing(blocks)
    ensures NoGaps(ChainOf(blocks), blocks)
  {
    forall i | 0 < i < |blocks|
      ensures Produced(ChainOf(blocks), blocks[i - 1].blockHeight + 1, blocks[i].blockHeight - 1) == []
    {
      NoGap(blocks, i);
    }
  }

  lemma TailHasNoGaps(v: View, a: Header, rest: seq<Header>)
    requires NoGaps(v, [a] + rest)
    ensures NoGaps(v, rest)
  {
    var all := [a] + rest;
    forall i | 0 < i < |rest| ensures Produced(v, rest[i - 1].blockHeight + 1, rest[i].blockHeight - 1) == [] {
      var k := i + 1;
      assert Produced(v, all[k - 1].blockHeight + 1, all[k].blockHeight - 1) == [];
    }
  }

  lemma NoGap(blocks: seq<Header>, i: nat)
    requires Increasing(blocks) && 0 < i < |blocks|
    ensures Produced(ChainOf(blocks), blocks[i - 1].blockHeight + 1, blocks[i].blockHeight - 1) == []
  {
    var v, lo, hi := ChainOf(blocks), blocks[i - 1].blockHeight + 1, blocks[i].blockHeight - 1;
    forall s | lo <= s <= hi ensures s !in v.blocks {
      NoneBetween(blocks, i, s);
    }
    NothingProduced(v, lo, hi);
  }

  // ----- what can happen next -----

  function Name(id: nat): (s: string)
    ensures |s| == id + 1
  {
    seq(id + 1, _ => 'x')
  }

  function Block(id: nat, slot: nat, parent: nat): Header {
    Header(slot, Name(id), Name(parent))
  }

  /** Block i of the sequence has the name i + 1. */
  ghost function Tree(blocks: seq<Header>): Ledger {
    imap s: string | 2 <= |s| <= |blocks| + 1 && blocks[|s| - 2].blockHash == s :: blocks[|s| - 2]
  }

  ghost predicate Named(blocks: seq<Header>) {
    forall i :: 0 <= i < |blocks| ==> blocks[i].blockHash == Name(i + 1)
  }

  lemma TreeKnows(blocks: seq<Header>)
    requires Named(blocks)
    ensures Name(0) !in Tree(blocks)
    ensures forall i :: 0 <= i < |blocks| ==> Known(Tree(blocks), blocks[i])
  {
    assert |Name(0)| == 1;
  }

  lemma LinkedTwo(L: Ledger, a: Header, b: Header)
    requires Known(L, a) && Known(L, b) && a.blockHeight < b.blockHeight && b.parentHash == a.blockHash
    ensures Linked(L, [a] + [b])
  {
  }

  lemma LinkedThree(L: Ledger, a: Header, b: Header, c: Header)
    requires Linked(L, [a] + [b]) && Known(L, c) && b.blockHeight < c.blockHeight && c.parentHash == b.blockHash
    ensures Linked(L, [a] + [b, c])
  {
    AppendLinked(L, [a] + [b], c);
    assert [a] + [b] + [c] == [a] + [b, c];
  }

  /** Without a header, a delivery is a check of the list. */
  lemma CheckForks(w: World, f: Header)
    requires HasForked(w.view, w.s.finalized, w.s.blocks) == Success(Some(f))
    ensures Step(w, Deliver(None)).1 == LastCorrect(w.view, w.s, f)
  {
  }

  lemma CheckFails(w: World, e: Error)
    requires HasForked(w.view, w.s.finalized, w.s.blocks) == Failure(e)
    ensures Step(w, Deliver(None)).1 == Failure(e)
  {
  }

  /** The finalized block is dropped from the list. */
  lemma {:induction false} DropsFinalized() returns (L: Ledger, w: World, b: Header)
    ensures Reached(L, w) && Allowed(L, w, Deliver(None))
    ensures Removed(w, Deliver(None)) == [b]
  {
    var a := Block(1, 1, 0);
    b := Block(2, 2, 1);
    var all := [a, b];
    TreeKnows(all);
    L := Tree(all);
    assert Known(L, all[0]) && Known(L, all[1]);
    LinkedTwo(L, a, b);
    TurnedIsReached(L, a, [b], [b]);
    w := Turned(a, [b], [b]);
    PrunesAll(w.view, w.s);
  }

  lemma PrunesAll(v: View, s: State)
    requires s.blocks == [s.finalized] && Prunes(s.lastChecked, s.finalized.blockHeight)
    ensures Pruned(v, s, None) == s.blocks
  {
    AllAtOrBelow(s);
    assert HasForked(v, s.finalized, s.blocks) == Success(None);
  }

  /** An orphan is stored for a slot that the finalized chain skips: the check steps
      over the slot, runs off the chain and ends with an error, although no lookup
      fails; the fork is not reported. */
  lemma {:induction false} OrphanAtSkippedSlot() returns (L: Ledger, w: World)
    ensures Reached(L, w) && Allowed(L, w, Deliver(None)) && w.view.failing == {}
    ensures |Best(w.s)| == 1 && !OnView(w.view, Best(w.s)[0])
    ensures Step(w, Deliver(None)).1 == Failure(RpcFailure)
  {
    var a, b, c := Block(1, 1, 0), Block(2, 2, 1), Block(3, 3, 1);
    var all := [a, b, c];
    TreeKnows(all);
    L := Tree(all);
    assert Known(L, all[0]) && Known(L, all[1]) && Known(L, all[2]);
    LinkedTwo(L, a, b);
    LinkedTwo(L, a, c);
    TurnedIsReached(L, a, [b], [c]);
    w := Turned(a, [b], [c]);
    WalksPast(w.view, w.s, a, b, c);
    CheckFails(w, RpcFailure);
  }

  lemma WalksPast(v: View, s: State, a: Header, b: Header, c: Header)
    requires v == ChainOf([a] + [c]) && s.blocks == [b] && s.finalized == c
    requires a.blockHeight == 1 && b.blockHeight == 2 && c.blockHeight == 3
    requires a.parentHash != "" && c.parentHash != ""
    ensures Best(s) == [b] && !OnView(v, b) && v.failing == {}
    ensures HasForked(v, c, [b]) == Failure(RpcFailure)
  {
    AllAtOrBelow(s);
    ChainOfExact([a] + [c]);
    SlotsOf([a] + [c], 0);
    SlotsOf([a] + [c], 2);
    assert a in [a] + [c] && OnView(v, a);
    assert ParentByHeight(v, 2) == ParentByHeight(v, 1) == Success(a);
    assert ParentByHeight(v, 0) == ParentByHeight(v, -1) == Failure(RpcFailure);
    assert Walk(v, a, 2) == Failure(RpcFailure);
    assert Walk(v, c, 2) == Failure(RpcFailure);
  }

  /** Start-up finds a fork, gives no rewind target and drops the list. */
  lemma {:induction false} StartupDropsFork() returns (L: Ledger, w: World, f: Header)
    ensures Reached(L, w) && Allowed(L, w, Restart)
    ensures var s := CallState(w, Restart); HasForked(w.view, s.finalized, s.blocks) == Success(Some(f))
    ensures Step(w, Restart).1 == Success(None)
    ensures w.s.blocks != [] && Step(w, Restart).0.s.blocks == []
  {
    var a, b := Block(1, 1, 0), Block(2, 2, 1);
    f := Block(3, 2, 1);
    var all := [a, b, f];
    TreeKnows(all);
    L := Tree(all);
    assert Known(L, all[0]) && Known(L, all[1]) && Known(L, all[2]);
    LinkedTwo(L, a, b);
    LinkedTwo(L, a, f);
    TurnedIsReached(L, a, [b], [f]);
    w := Turned(a, [b], [f]);
    ForkDropped(w, a, b, f);
  }

  lemma ForkDropped(w: World, a: Header, b: Header, f: Header)
    requires w == Turned(a, [b], [f]) && a.blockHeight == 1 && b.blockHeight == f.blockHeight == 2
    requires f.parentHash != "" && b.blockHash != f.blockHash && b.blockHash != f.parentHash
    ensures var s := CallState(w, Restart); HasForked(w.view, s.finalized, s.blocks) == Success(Some(f))
    ensures Step(w, Restart).1 == Success(None) && Step(w, Restart).0.s.blocks == []
  {
    var s := State([b], f, Undefined, Some([b]), Undefined);
    ChainOfExact([a] + [f]);
    assert a in [a] + [f] && f in [a] + [f] && OnView(w.view, a) && OnView(w.view, f);
    assert CallState(w, Restart) == s;
    CheckDrops(w.view, s, a, b, f);
  }

  lemma CheckDrops(v: View, s: State, a: Header, b: Header, f: Header)
    requires s == State([b], f, Undefined, Some([b]), Undefined) && OnView(v, a) && v.failing == {}
    requires a.blockHeight == 1 && b.blockHeight == f.blockHeight == 2
    requires f.parentHash != "" && b.blockHash != f.blockHash && b.blockHash != f.parentHash
    ensures HasForked(v, f, s.blocks) == Success(Some(f))
    ensures Process(v, s, None) == (s, Success(None))
  {
    AllAtOrBelow(s);
    assert ParentByHeight(v, 1) == Success(a);
    assert Search(v, [b][..0], a) == Success(None);
    assert Search(v, [b], f) == Success(None);
  }

  /** A block of an abandoned branch is delivered late: the parent check reports that
      block, and the target is the orphan it follows. */
  lemma {:induction false} LateBlockMisleads() returns (L: Ledger, w: World, late: Header, target: Header)
    ensures Reached(L, w) && Allowed(L, w, Deliver(Some(late)))
    ensures Step(w, Deliver(Some(late))).1 == Success(Some(target)) && !OnView(w.view, target)
  {
    var a, b, d := Block(1, 1, 0), Block(2, 2, 1), Block(4, 3, 3);
    target, late := Block(3, 2, 1), Block(5, 4, 3);
    var all := [a, b, target, d, late];
    TreeKnows(all);
    L := Tree(all);
    assert Known(L, all[0]) && Known(L, all[1]) && Known(L, all[2]) && Known(L, all[3]) && Known(L, all[4]);
    LinkedTwo(L, a, b);
    LinkedTwo(L, a, target);
    LinkedThree(L, a, target, d);
    TurnedIsReached(L, a, [target, d], [b]);
    w := Turned(a, [target, d], [b]);
    MisledAt(w, a, b, target, d, late);
    MisledStep(L, w, late, target);
  }

  lemma MisledStep(L: Ledger, w: World, late: Header, target: Header)
    requires ChainView(L, w.view) && Linked(L, w.s.blocks)
    requires Misleads(w.view, w.s, late) && Best(w.s) == [target]
    ensures Step(w, Deliver(Some(late))).1 == Success(Some(target)) && !OnView(w.view, target)
  {
    MisleadingIsReported(L, w.view, w.s, late);
    assert Search(w.view, [target], late) == Success(Some(target));
  }

  lemma MisledAt(w: World, a: Header, b: Header, c: Header, d: Header, late: Header)
    requires w == Turned(a, [c, d], [b]) && a.blockHeight == 1 && b.blockHeight == c.blockHeight == 2
    requires d.blockHeight == 3 && late.blockHeight == 4 && late.parentHash == c.blockHash && b != c
    ensures Best(w.s) == [c] && Misleads(w.view, w.s, late) && w.view.failing == {}
  {
    FiltersAt(w.s.blocks, 2, 1);
    assert Best(w.s) == w.s.blocks[..1] == [c];
    ChainOfExact([a] + [b]);
    assert b in [a] + [b] && OnView(w.view, b);
  }

  /** The chain produced three blocks after the common one where a single orphan is
      stored: the search passes the common block and the target is below it. */
  lemma {:induction false} LargerLagFallsBack() returns (L: Ledger, w: World, target: Header)
    ensures Reached(L, w) && Allowed(L, w, Deliver(None))
    ensures IsCommon(w.view, Best(w.s), 0) && target.blockHeight < Best(w.s)[0].blockHeight
    ensures Step(w, Deliver(None)).1 == Success(Some(target))
  {
    var a, b, c := Block(1, 1, 0), Block(2, 2, 1), Block(3, 3, 2);
    var d, e, x := Block(4, 4, 3), Block(5, 5, 4), Block(6, 5, 2);
    var all := [a, b, c, d, e, x];
    TreeKnows(all);
    L := Tree(all);
    assert Known(L, all[0]) && Known(L, all[1]) && Known(L, all[2]);
    assert Known(L, all[3]) && Known(L, all[4]) && Known(L, all[5]);
    LinkedTwo(L, a, b);
    LinkedThree(L, a, b, x);
    LinkedThree(L, a, b, c);
    LinkedFive(L, a, b, c, d, e);
    TurnedIsReached(L, a, [b, x], [b, c, d, e]);
    w, target := Turned(a, [b, x], [b, c, d, e]), a;
    OneOrphan(L, w, a, b, c, d, e, x);
  }

  lemma LinkedFive(L: Ledger, a: Header, b: Header, c: Header, d: Header, e: Header)
    requires Linked(L, [a] + [b, c]) && Known(L, d) && Known(L, e)
    requires c.blockHeight < d.blockHeight < e.blockHeight
    requires d.parentHash == c.blockHash && e.parentHash == d.blockHash
    ensures Linked(L, [a] + [b, c, d, e])
  {
    AppendLinked(L, [a] + [b, c], d);
    AppendLinked(L, [a] + [b, c] + [d], e);
    assert [a] + [b, c] + [d] + [e] == [a] + [b, c, d, e];
  }

  lemma OneOrphan(L: Ledger, w: World, a: Header, b: Header, c: Header, d: Header, e: Header, x: Header)
    requires w == Turned(a, [b, x], [b, c, d, e]) && Linked(L, [a] + [b, c, d, e]) && a.blockHeight > 0
    requires ChainView(L, w.view) && Tracked(L, w.view, w.s)
    requires x.blockHeight == e.blockHeight && x.blockHash != e.blockHash
    ensures IsCommon(w.view, Best(w.s), 0) && Best(w.s)[0] == b && a.blockHeight < b.blockHeight
    ensures Step(w, Deliver(None)).1 == Success(Some(a))
  {
    LagTwo(w.view, a, b, c, d, e, x);
    AllAtOrBelow(w.s);
    OrphanPassed(L, w.view, b, x, e);
    ForkAtEnd(w.view, w.s);
    CheckForks(w, e);
    assert ChainBlock(L, w.view, e.blockHeight);
    PassedAll(L, w.view, w.s, e);
    FallsBack(w.view, a);
  }

  lemma FallsBack(v: View, a: Header)
    requires OnView(v, a) && a.blockHeight > 0 && v.failing == {}
    ensures Fallback(v, At(a.blockHeight)) == Success(Some(a))
  {
  }

  lemma ForkAtEnd(v: View, s: State)
    requires |s.blocks| > 0 && Last(s.blocks).blockHeight == s.finalized.blockHeight
    requires Last(s.blocks).blockHash != s.finalized.blockHash
    ensures HasForked(v, s.finalized, s.blocks) == Success(Some(s.finalized))
  {
  }

  lemma PassedAll(L: Ledger, v: View, s: State, forked: Header)
    requires ChainView(L, v) && Linked(L, s.blocks) && Reportable(L, v, s, forked)
    requires PassesAllFrom(v, Best(s), forked)
    ensures LastCorrect(v, s, forked) == Fallback(v, s.lastChecked)
  {
    RewindOutcome(L, v, s, forked);
  }

  lemma OrphanPassed(L: Ledger, v: View, b: Header, x: Header, e: Header)
    requires ChainView(L, v) && v.failing == {} && OnView(v, e) && Rank(v, e.blockHeight) == 5
    requires IsCommon(v, [b, x], 0) && Lag(v, [b, x], 0, e) == 2
    ensures PassesAllFrom(v, [b, x], e)
  {
    OnlyCommon(v, [b, x], e, 0);
    RoomExact(L, v, e, 2);
  }

  lemma LagTwo(v: View, a: Header, b: Header, c: Header, d: Header, e: Header, x: Header)
    requires v == ChainOf([a] + [b, c, d, e]) && Increasing([a] + [b, c, d, e])
    requires x.blockHeight == e.blockHeight && x.blockHash != e.blockHash
    ensures v.failing == {} && OnView(v, a) && OnView(v, e) && a.blockHeight < b.blockHeight < e.blockHeight
    ensures IsCommon(v, [b, x], 0) && Lag(v, [b, x], 0, e) == 2 && Rank(v, e.blockHeight) == 5
  {
    var chain := [a] + [b, c, d, e];
    ChainOfExact(chain);
    assert chain[0] == a && chain[1] == b && chain[4] == e && a in chain && b in chain && e in chain;
    ChainBefore(chain, 1);
    ChainBefore(chain, 4);
  }

  /** Two orphans are stored after the common block where the chain produced a
      single one: the search passes the common block, runs off the chain and ends
      with an error, although no lookup fails and a last checked height is known. */
  lemma {:induction false} SmallerLagFails() returns (L: Ledger, w: World)
    ensures Reached(L, w) && Allowed(L, w, Deliver(None)) && w.view.failing == {} && w.s.lastChecked == At(1)
    ensures IsCommon(w.view, Best(w.s), 0)
    ensures Step(w, Deliver(None)).1 == Failure(RpcFailure)
  {
    var a, c, z := Block(1, 1, 0), Block(2, 2, 1), Block(3, 6, 2);
    var x, y := Block(4, 3, 2), Block(5, 6, 4);
    var all := [a, c, z, x, y];
    TreeKnows(all);
    L := Tree(all);
    assert Known(L, all[0]) && Known(L, all[1]) && Known(L, all[2]) && Known(L, all[3]) && Known(L, all[4]);
    LinkedTwo(L, a, c);
    LinkedThree(L, a, c, z);
    LinkedThree(L, a, c, x);
    AppendLinked(L, [a] + [c, x], y);
    assert [a] + [c, x] + [y] == [a] + [c, x, y];
    TurnedIsReached(L, a, [c, x, y], [c, z]);
    w := Turned(a, [c, x, y], [c, z]);
    TwoOrphans(L, w, a, c, z, x, y);
  }

  lemma TwoOrphans(L: Ledger, w: World, a: Header, c: Header, z: Header, x: Header, y: Header)
    requires w == Turned(a, [c, x, y], [c, z]) && Linked(L, [a] + [c, z])
    requires ChainView(L, w.view) && Tracked(L, w.view, w.s)
    requires c.blockHeight < x.blockHeight < z.blockHeight == y.blockHeight && y.blockHash != z.blockHash
    ensures IsCommon(w.view, Best(w.s), 0) && w.view.failing == {}
    ensures Step(w, Deliver(None)).1 == Failure(RpcFailure)
  {
    var best := [c, x, y];
    LagMinusOne(w.view, a, c, z, x, y);
    AllAtOrBelow(w.s);
    ForkAtEnd(w.view, w.s);
    CheckForks(w, z);
    OnlyCommon(w.view, best, z, 0);
    RoomExact(L, w.view, z, 3);
    RewindOutcome(L, w.view, w.s, z);
  }

  lemma LagMinusOne(v: View, a: Header, c: Header, z: Header, x: Header, y: Header)
    requires v == ChainOf([a] + [c, z]) && Increasing([a] + [c, z])
    requires c.blockHeight < x.blockHeight < z.blockHeight == y.blockHeight && y.blockHash != z.blockHash
    ensures v.failing == {} && OnView(v, z) && c.blockHeight < z.blockHeight
    ensures IsCommon(v, [c, x, y], 0) && Lag(v, [c, x, y], 0, z) == -1 && Rank(v, z.blockHeight) == 3
  {
    var chain := [a] + [c, z];
    ChainOfExact(chain);
    assert chain[1] == c && chain[2] == z && c in chain && z in chain;
    ChainBefore(chain, 1);
    ChainBefore(chain, 2);
    NoneBetween(chain, 2, x.blockHeight);
  }
}
