/** Whole runs: the tracker together with a chain that grows, reorganises above
    its finalized slot and finalizes, in any order of deliveries, finalizations,
    resets and restarts. */
module Runs {
  import opened Wrappers
  import opened Chain
  import opened Tracker
  import opened ForkCheck
  import opened Rewind
  import opened Registration

  datatype World = World(view: View, finalizedSlot: nat, up: bool, s: State)

  datatype Event =
    | Advance(view: View, finalizedSlot: nat)  // the chain moves on
    | Finalize(finalized: Header)              // registerFinalizedBlock
    | Deliver(header: Option<Header>)          // processUnfinalizedBlockHeader
    | DropBlocks                               // resetUnfinalizedBlocks
    | DropChecked                              // resetLastFinalizedVerifiedHeight
    | Restart                                  // a new process calls init

  ghost predicate ChainOk(L: Ledger, v: View, finalizedSlot: nat) {
    ChainView(L, v) && finalizedSlot in v.blocks
  }

  ghost predicate Agree(v: View, v': View, slot: nat) {
    forall h: Header :: h.blockHeight <= slot ==> (OnView(v, h) <==> OnView(v', h))
  }

  /** What may happen: reorgs stay above the finalized slot, finalized headers
      are the chain's, and delivered headers are known blocks, possibly of an
      abandoned branch. */
  ghost predicate Allowed(L: Ledger, w: World, e: Event) {
    match e
    case Advance(v', slot') =>
      ChainOk(L, v', slot') && w.finalizedSlot <= slot' && Agree(w.view, v', w.finalizedSlot)
    case Finalize(h) => w.up && OnView(w.view, h) && h.blockHeight <= w.finalizedSlot
    case Deliver(o) => w.up && (o.Some? ==> Known(L, o.value))
    case DropBlocks => w.up
    case DropChecked => w.up
    case Restart => true
  }

  function Step(w: World, e: Event): (World, Verdict) {
    match e
    case Advance(v', slot') => (w.(view := v', finalizedSlot := slot'), Success(None))
    case Finalize(h) => (w.(s := RegisterFinalized(w.s, h)), Success(None))
    case Deliver(o) =>
      var (s', r) := Process(w.view, w.s, o);
      (w.(s := s', up := r != Failure(NotSequential)), r)
    case DropBlocks => (w.(s := ResetBlocks(w.s)), Success(None))
    case DropChecked => (w.(s := ResetChecked(w.s)), Success(None))
    case Restart =>
      var (s', r) := Init(w.view, w.finalizedSlot, w.s);
      (w.(s := s', up := r.Success?), r)
  }

  /** The headers a step drops from the list as finalized. */
  function Removed(w: World, e: Event): seq<Header> {
    match e
    case Deliver(o) => Tracker.Pruned(w.view, w.s, o)
    case Restart =>
      var finalized := Direct(w.view, w.finalizedSlot);
      if finalized.Success? then Tracker.Pruned(w.view, Load(w.s).(finalized := finalized.value), None) else []
    case _ => []
  }

  ghost predicate Run(L: Ledger, ws: seq<World>, es: seq<Event>) {
    && |ws| == |es| + 1
    && ChainOk(L, ws[0].view, ws[0].finalizedSlot)
    && !ws[0].up && ws[0].s.savedBlocks == None && ws[0].s.savedChecked == Undefined
    && forall i {:trigger Happens(L, ws, es, i)} :: 0 <= i < |es| ==> Happens(L, ws, es, i)
  }

  /** Event i is allowed and leads from world i to the next. */
  ghost predicate Happens(L: Ledger, ws: seq<World>, es: seq<Event>, i: nat)
    requires i < |es| == |ws| - 1
  {
    Allowed(L, ws[i], es[i]) && ws[i + 1] == Step(ws[i], es[i]).0
  }

  // ----- the invariant -----

  function Saved(s: State): seq<Header> {
    if s.savedBlocks.Some? then s.savedBlocks.value else []
  }

  /** What the store holds is a linked list above a finalized height. */
  ghost predicate StoreOk(L: Ledger, v: View, slot: nat, s: State) {
    && Linked(L, Saved(s))
    && (s.savedChecked.At? ==>
        s.savedChecked.height <= slot && s.savedChecked.height in v.blocks
        && AllAbove(Saved(s), s.savedChecked.height))
  }

  /** Memory and store together while a process is running. */
  ghost predicate Kept(L: Ledger, v: View, slot: nat, s: State) {
    && Tracked(L, v, s)
    && s.finalized.blockHeight <= slot
    && Saved(s) <= s.blocks
    && (s.savedChecked.At? ==>
        s.savedChecked.height <= s.finalized.blockHeight && s.savedChecked.height in v.blocks
        && AllAbove(s.blocks, s.savedChecked.height))
  }

  ghost predicate MemoryOk(L: Ledger, v: View, slot: nat, s: State) {
    Kept(L, v, slot, s) && (!s.lastChecked.At? ==> s.blocks == [])
  }

  ghost predicate Inv(L: Ledger, w: World) {
    && ChainOk(L, w.view, w.finalizedSlot)
    && StoreOk(L, w.view, w.finalizedSlot, w.s)
    && (w.up ==> MemoryOk(L, w.view, w.finalizedSlot, w.s))
  }

  lemma KeptStore(L: Ledger, v: View, slot: nat, s: State)
    requires Kept(L, v, slot, s)
    ensures StoreOk(L, v, slot, s)
  {
    assert Saved(s) == s.blocks[..|Saved(s)|];
    LinkedPrefix(L, s.blocks, |Saved(s)|);
  }

  lemma {:induction false} DetectKeeps(L: Ledger, v: View, slot: nat, s: State, header: Option<Header>)
    requires ChainView(L, v) && Kept(L, v, slot, s) && (header.Some? ==> Known(L, header.value))
    ensures var s1 := Detect(v, s, header).0;
            && Kept(L, v, slot, s1)
            && s1 == s.(blocks := s1.blocks, savedBlocks := s1.savedBlocks)
            && (s.blocks == [] ==> AllAbove(s1.blocks, s.finalized.blockHeight))
  {
    if header.Some? {
      RegisterKeeps(L, v, s, header.value);
      var s1 := Detect(v, s, header).0;
      forall b | b in s1.blocks
        ensures s.lastChecked.At? ==> b.blockHeight > s.lastChecked.height
        ensures s.savedChecked.At? ==> b.blockHeight > s.savedChecked.height
        ensures s.blocks == [] ==> b.blockHeight > s.finalized.blockHeight
      {
        var i :| 0 <= i < |s1.blocks| && s1.blocks[i] == b;
        if i < |s.blocks| {
          assert s.blocks[i] == b;
        } else if |s.blocks| > 0 {
          assert Last(s.blocks) in s.blocks;
        }
      }
    }
  }

  lemma LinkedSuffix(L: Ledger, blocks: seq<Header>, n: nat)
    requires Linked(L, blocks) && n <= |blocks|
    ensures Linked(L, blocks[n..])
  {
    var part := blocks[n..];
    forall i | 0 < i < |part| ensures part[i].parentHash == part[i - 1].blockHash {
      assert blocks[n + i].parentHash == blocks[n + i - 1].blockHash;
    }
  }

  lemma {:induction false} PruneKeeps(L: Ledger, v: View, slot: nat, s: State)
    requires Kept(L, v, slot, s)
    ensures var above := Above(s.blocks, s.finalized.blockHeight);
            && Linked(L, above)
            && AllAbove(above, s.finalized.blockHeight)
            && Best(s) + above == s.blocks
  {
    var n := s.finalized.blockHeight;
    FiltersCut(s.blocks, n);
    var k := |AtMost(s.blocks, n)|;
    LinkedSuffix(L, s.blocks, k);
    assert s.blocks[..k] + s.blocks[k..] == s.blocks;
    SuffixAbove(s.blocks, k, n);
  }

  lemma SuffixAbove(blocks: seq<Header>, k: nat, height: nat)
    requires k <= |blocks| && forall i :: k <= i < |blocks| ==> blocks[i].blockHeight > height
    ensures AllAbove(blocks[k..], height)
  {
    forall b | b in blocks[k..] ensures b.blockHeight > height {
      var i :| k <= i < |blocks| && blocks[i] == b;
    }
  }

  /** Deleting keeps a suffix of the list, all of it above the finalized height,
      and a list that changes is saved. */
  lemma {:induction false} DeleteKeeps(L: Ledger, v: View, slot: nat, s: State)
    requires Kept(L, v, slot, s)
    requires !s.lastChecked.At? ==> AllAbove(s.blocks, s.finalized.blockHeight)
    ensures var after := DeleteFinalized(s);
            && MemoryOk(L, v, slot, after)
            && AllAbove(after.blocks, s.finalized.blockHeight)
            && after.lastChecked == At(s.finalized.blockHeight)
            && (if Prunes(s.lastChecked, s.finalized.blockHeight)
                then after.savedBlocks == Some(after.blocks) && Best(s) + after.blocks == s.blocks
                else after.blocks == s.blocks && after.savedBlocks == s.savedBlocks)
  {
    if Prunes(s.lastChecked, s.finalized.blockHeight) {
      PruneKeeps(L, v, slot, s);
    } else {
      NothingBelow(s);
    }
  }

  /** A height that needs no pruning is below the whole list. */
  lemma NothingBelow(s: State)
    requires !Prunes(s.lastChecked, s.finalized.blockHeight)
    requires if s.lastChecked.At? then AllAbove(s.blocks, s.lastChecked.height)
             else AllAbove(s.blocks, s.finalized.blockHeight)
    ensures AllAbove(s.blocks, s.finalized.blockHeight)
  {
  }

  /** From an empty list, nothing can fail and no fork is found. */
  lemma {:induction false} EmptyDetects(v: View, s: State, header: Option<Header>)
    requires s.blocks == []
    ensures Detect(v, s, header).1 == Success(None)
  {
    if header.Some? {
      assert Closest([header.value][..0], s.finalized.blockHeight) == None;
      assert [] + [header.value] == [header.value];
    }
  }

  /** The second half of a call, from the detected state and verdict. */
  function Settle(s1: State, r: Verdict): State {
    if r == Success(None) then DeleteFinalized(s1) else s1
  }

  lemma ProcessSettles(v: View, s: State, header: Option<Header>)
    ensures var (s1, r) := Detect(v, s, header);
            && Process(v, s, header).0 == Settle(s1, r)
            && Tracker.Pruned(v, s, header) ==
               if r == Success(None) && Prunes(s1.lastChecked, s1.finalized.blockHeight) then Best(s1) else []
  {
  }

  lemma {:induction false} SettleKeeps(L: Ledger, v: View, slot: nat, s: State, s1: State, r: Verdict)
    requires MemoryOk(L, v, slot, s) && Kept(L, v, slot, s1)
    requires s1 == s.(blocks := s1.blocks, savedBlocks := s1.savedBlocks)
    requires s.blocks == [] ==> r == Success(None) && AllAbove(s1.blocks, s.finalized.blockHeight)
    ensures MemoryOk(L, v, slot, Settle(s1, r))
  {
    if r == Success(None) {
      DeleteKeeps(L, v, slot, s1);
    }
  }

  /** Every call keeps the invariant. */
  lemma {:induction false} ProcessKeeps(L: Ledger, v: View, slot: nat, s: State, header: Option<Header>)
    requires ChainView(L, v) && MemoryOk(L, v, slot, s) && (header.Some? ==> Known(L, header.value))
    ensures MemoryOk(L, v, slot, Process(v, s, header).0)
  {
    DetectKeeps(L, v, slot, s, header);
    if s.blocks == [] {
      EmptyDetects(v, s, header);
    }
    ProcessSettles(v, s, header);
    var (s1, r) := Detect(v, s, header);
    SettleKeeps(L, v, slot, s, s1, r);
  }

  /** A call that finds no fork leaves every entry above the finalized height,
      which is then the last one checked; what it pruned is the rest of the list
      as it was after registering. */
  lemma {:induction false} NoForkLeaves(L: Ledger, v: View, slot: nat, s: State, header: Option<Header>)
    requires ChainView(L, v) && MemoryOk(L, v, slot, s) && (header.Some? ==> Known(L, header.value))
    ensures var (s1, r) := Detect(v, s, header);
            var after := Process(v, s, header).0;
            r == Success(None) ==>
              && AllAbove(after.blocks, s.finalized.blockHeight)
              && after.lastChecked == At(s.finalized.blockHeight)
              && s1.blocks == Tracker.Pruned(v, s, header) + after.blocks
              && (Prunes(s.lastChecked, s.finalized.blockHeight) ==>
                    after.savedBlocks == Some(after.blocks) && after.savedChecked == after.lastChecked)
              && (!Prunes(s.lastChecked, s.finalized.blockHeight) ==>
                    after.savedBlocks == s1.savedBlocks && after.blocks == s1.blocks)
  {
    DetectKeeps(L, v, slot, s, header);
    ProcessSettles(v, s, header);
    var (s1, r) := Detect(v, s, header);
    if r == Success(None) {
      DeletionLeaves(L, v, slot, s1);
    }
  }

  lemma DeletionLeaves(L: Ledger, v: View, slot: nat, s: State)
    requires Kept(L, v, slot, s)
    requires !s.lastChecked.At? ==> AllAbove(s.blocks, s.finalized.blockHeight)
    ensures var after := DeleteFinalized(s);
            && AllAbove(after.blocks, s.finalized.blockHeight)
            && after.lastChecked == At(s.finalized.blockHeight)
            && s.blocks == (if Prunes(s.lastChecked, s.finalized.blockHeight) then Best(s) else []) + after.blocks
            && (if Prunes(s.lastChecked, s.finalized.blockHeight)
                then after.savedBlocks == Some(after.blocks) && after.savedChecked == after.lastChecked
                else after.savedBlocks == s.savedBlocks && after.blocks == s.blocks)
  {
    if Prunes(s.lastChecked, s.finalized.blockHeight) {
      PruneKeeps(L, v, slot, s);
    } else {
      NothingBelow(s);
      assert [] + s.blocks == s.blocks;
    }
  }

  /** A header that a call registers is saved with the whole list, whatever the
      fork check then says. */
  lemma {:induction false} SavedAfterRegister(v: View, s: State, header: Header)
    requires Register(v, s, header).1 == Success(None) && Register(v, s, header).0.blocks != s.blocks
    ensures var after := Process(v, s, Some(header)).0; after.savedBlocks == Some(after.blocks)
  {
    ProcessSettles(v, s, Some(header));
  }

  /** When memory and store agree before a call, they differ after it exactly when
      backfilling appended something before the registration ended in a fork or an
      error. */
  lemma {:induction false} StoreAgrees(v: View, s: State, header: Option<Header>)
    requires Saved(s) == s.blocks
    ensures var after := Process(v, s, header).0;
            Saved(after) == after.blocks <==>
            header.Some? ==>
              Register(v, s, header.value).1 == Success(None) || Register(v, s, header.value).0.blocks == s.blocks
  {
    ProcessSettles(v, s, header);
    if header.Some? {
      RegisterStores(v, s, header.value);
    }
  }

  /** Registering saves exactly what it finishes. */
  lemma RegisterStores(v: View, s: State, header: Header)
    ensures var (s1, r) := Register(v, s, header);
            && s1 == s.(blocks := s1.blocks, savedBlocks := s1.savedBlocks)
            && (r == Success(None) && s1.blocks != s.blocks ==> s1.savedBlocks == Some(s1.blocks))
            && (r != Success(None) || s1.blocks == s.blocks ==>
                  s1.savedBlocks == s.savedBlocks || s1.savedBlocks == Some(s1.blocks))
            && (r != Success(None) ==> s1.savedBlocks == s.savedBlocks)
  {
  }

  /** Start-up either fails, leaving the store alone, or leaves a good memory;
      if there was a list to check, list and saved list are then empty. */
  lemma {:induction false} InitKeeps(L: Ledger, v: View, slot: nat, s: State)
    requires ChainOk(L, v, slot) && StoreOk(L, v, slot, s)
    ensures var (after, r) := Init(v, slot, s);
            && StoreOk(L, v, slot, after)
            && (r.Success? ==> MemoryOk(L, v, slot, after) && after.blocks == [] && Saved(after) == [])
            && (r.Success? && Saved(s) != [] ==> after.savedBlocks == Some([]) && after.savedChecked == Null)
  {
    var finalized := Direct(v, slot);
    if finalized.Success? {
      var s1 := Load(s).(finalized := finalized.value);
      assert s1.blocks == Saved(s);
      assert Process(v, s1, None).1.Failure? ==> Process(v, s1, None).0 == s1;
    }
  }

  lemma {:induction false} StepKeeps(L: Ledger, w: World, e: Event)
    requires Inv(L, w) && Allowed(L, w, e)
    ensures Inv(L, Step(w, e).0)
  {
    match e
    case Advance(v', slot') =>
      forall h: int | h in w.view.blocks && h <= w.finalizedSlot ensures h in v'.blocks {
        assert OnView(w.view, w.view.blocks[h]);
      }
    case Finalize(h) =>
    case Deliver(o) =>
      ProcessKeeps(L, w.view, w.finalizedSlot, w.s, o);
      KeptStore(L, w.view, w.finalizedSlot, Process(w.view, w.s, o).0);
    case DropBlocks =>
    case DropChecked =>
    case Restart =>
      InitKeeps(L, w.view, w.finalizedSlot, w.s);
  }

  /** In every reachable state the stored list is linked and above the last
      checked height, and the saved list is a prefix of it. */
  lemma {:induction false} InvHolds(L: Ledger, ws: seq<World>, es: seq<Event>, i: nat)
    requires Run(L, ws, es) && i < |ws|
    ensures Inv(L, ws[i])
  {
    if i > 0 {
      InvHolds(L, ws, es, i - 1);
      assert Happens(L, ws, es, i - 1);
      StepKeeps(L, ws[i - 1], es[i - 1]);
    }
  }

  lemma StepFinalized(w: World, e: Event)
    requires !e.Restart?
    ensures Step(w, e).0.s.finalized ==
            if e.Finalize? && e.finalized.blockHeight > w.s.finalized.blockHeight then e.finalized else w.s.finalized
  {
    if e.Deliver? && e.header.Some? {
      RegisterStores(w.view, w.s, e.header.value);
    }
  }

  /** The finalized header of ws[j] is that of ws[i] or one registered since, and
      none of these is higher. */
  ghost predicate Highest(ws: seq<World>, es: seq<Event>, i: nat, j: nat)
    requires i <= j < |ws| == |es| + 1
  {
    && ws[i].s.finalized.blockHeight <= ws[j].s.finalized.blockHeight
    && (forall k :: i <= k < j && es[k].Finalize? ==> es[k].finalized.blockHeight <= ws[j].s.finalized.blockHeight)
    && (ws[j].s.finalized == ws[i].s.finalized || Finalize(ws[j].s.finalized) in es[i..j])
  }

  lemma HighestStep(ws: seq<World>, es: seq<Event>, i: nat, j: nat)
    requires i < j < |ws| == |es| + 1 && Highest(ws, es, i, j - 1)
    requires !es[j - 1].Restart? && ws[j] == Step(ws[j - 1], es[j - 1]).0
    ensures Highest(ws, es, i, j)
  {
    StepFinalized(ws[j - 1], es[j - 1]);
    assert es[i..j] == es[i..j - 1] + [es[j - 1]];
  }

  /** Between two start-ups the finalized header never moves back and is the
      highest of those registered, in whatever order they came. */
  lemma {:induction false} FinalizedIsHighest(L: Ledger, ws: seq<World>, es: seq<Event>, i: nat, j: nat)
    requires Run(L, ws, es) && i <= j < |ws|
    requires forall k :: i <= k < j ==> !es[k].Restart?
    ensures Highest(ws, es, i, j)
    decreases j - i
  {
    if i < j {
      FinalizedIsHighest(L, ws, es, i, j - 1);
      assert Happens(L, ws, es, j - 1);
      HighestStep(ws, es, i, j);
    }
  }

  /** After both resets the next start-up knows nothing of what went before: it
      checks nothing, names no target, and memory and store hold an empty list and
      no height. */
  lemma {:induction false} ResetThenRestart(L: Ledger, ws: seq<World>, es: seq<Event>, i: nat)
    requires Run(L, ws, es) && i + 2 < |es|
    requires {es[i], es[i + 1]} == {DropBlocks, DropChecked} && es[i + 2].Restart?
    requires ws[i + 2].finalizedSlot !in ws[i + 2].view.failing
    ensures Step(ws[i + 2], es[i + 2]).1 == Success(None)
    ensures var w := ws[i + 2];
            ws[i + 3] == World(w.view, w.finalizedSlot, true,
                               State([], w.view.blocks[w.finalizedSlot], Null, Some([]), Null))
  {
    InvHolds(L, ws, es, i + 2);
    assert Happens(L, ws, es, i + 2);
    BothReset(L, ws, es, i);
  }

  lemma BothReset(L: Ledger, ws: seq<World>, es: seq<Event>, i: nat)
    requires Run(L, ws, es) && i + 1 < |es| && {es[i], es[i + 1]} == {DropBlocks, DropChecked}
    ensures ws[i + 2].s.savedBlocks == Some([]) && ws[i + 2].s.savedChecked == Null
  {
    assert Happens(L, ws, es, i) && Happens(L, ws, es, i + 1);
    if es[i] == DropBlocks {
      assert DropChecked in {es[i], es[i + 1]};
    } else {
      assert es[i] in {DropBlocks, DropChecked} && DropBlocks in {es[i], es[i + 1]};
    }
  }

  /** The world is the end of some run. */
  ghost predicate Reached(L: Ledger, w: World) {
    exists ws, es :: Run(L, ws, es) && ws[|es|] == w
  }

  lemma ReachedStart(L: Ledger, w: World)
    requires ChainOk(L, w.view, w.finalizedSlot)
    requires !w.up && w.s.savedBlocks == None && w.s.savedChecked == Undefined
    ensures Reached(L, w)
  {
    assert Run(L, [w], []);
  }

  lemma ReachedStep(L: Ledger, w: World, e: Event)
    requires Reached(L, w) && Allowed(L, w, e)
    ensures Reached(L, Step(w, e).0)
  {
    var ws, es :| Run(L, ws, es) && ws[|es|] == w;
    ExtendRun(L, ws, es, e);
  }

  lemma ExtendRun(L: Ledger, ws: seq<World>, es: seq<Event>, e: Event)
    requires Run(L, ws, es) && Allowed(L, ws[|es|], e)
    ensures Run(L, ws + [Step(ws[|es|], e).0], es + [e])
  {
    var ws', es' := ws + [Step(ws[|es|], e).0], es + [e];
    forall i | 0 <= i < |es'| ensures Happens(L, ws', es', i) {
      if i < |es| {
        assert Happens(L, ws, es, i);
      }
    }
  }

  // ----- what is dropped and where a fork leads -----

  lemma {:induction false} FinalStays(L: Ledger, ws: seq<World>, es: seq<Event>, i: nat, j: nat, h: Header)
    requires Run(L, ws, es) && i <= j < |ws|
    requires OnView(ws[i].view, h) && h.blockHeight <= ws[i].finalizedSlot
    ensures OnView(ws[j].view, h) && h.blockHeight <= ws[j].finalizedSlot
    decreases j - i
  {
    if i < j {
      FinalStays(L, ws, es, i, j - 1, h);
      assert Happens(L, ws, es, j - 1);
    }
  }

  lemma {:induction false} DetectFacts(L: Ledger, v: View, s: State, header: Option<Header>)
    requires ChainView(L, v) && Linked(L, s.blocks) && (header.Some? ==> Known(L, header.value))
    ensures var (s1, r) := Detect(v, s, header);
            && Linked(L, s1.blocks)
            && s1 == s.(blocks := s1.blocks, savedBlocks := s1.savedBlocks)
            && (r == Success(None) ==> HasForked(v, s.finalized, s1.blocks) == r)
  {
    if header.Some? {
      RegisterKeeps(L, v, s, header.value);
    }
  }

  lemma {:induction false} PrunedOnView(L: Ledger, v: View, s: State, header: Option<Header>)
    requires ChainView(L, v) && Linked(L, s.blocks) && OnView(v, s.finalized)
    requires header.Some? ==> Known(L, header.value)
    ensures forall b :: b in Tracker.Pruned(v, s, header) ==> OnView(v, b) && b.blockHeight <= s.finalized.blockHeight
  {
    DetectFacts(L, v, s, header);
    var (s1, r) := Detect(v, s, header);
    if r == Success(None) {
      NoForkMeansFinalized(L, v, s.finalized, s1.blocks);
      assert forall b :: b in Tracker.Pruned(v, s, header) ==> b in AtMost(s1.blocks, s.finalized.blockHeight);
    }
  }

  /** Every header ever dropped as finalized is the finalized chain's block at
      its slot, then and for the rest of the run. */
  lemma {:induction false} PrunedIsFinalForever(L: Ledger, ws: seq<World>, es: seq<Event>, i: nat, j: nat, b: Header)
    requires Run(L, ws, es) && i <= j < |ws| && i < |es|
    requires b in Removed(ws[i], es[i])
    ensures OnView(ws[j].view, b) && b.blockHeight <= ws[j].finalizedSlot
  {
    InvHolds(L, ws, es, i);
    assert Happens(L, ws, es, i);
    var w := ws[i];
    match es[i]
    case Deliver(o) =>
      PrunedOnView(L, w.view, w.s, o);
      FinalStays(L, ws, es, i, j, b);
    case Restart =>
      PrunedOnView(L, w.view, Load(w.s).(finalized := w.view.blocks[w.finalizedSlot]), None);
      FinalStays(L, ws, es, i, j, b);
    case _ =>
      assert false;
  }

  ghost predicate AllOnView(v: View, blocks: seq<Header>) {
    forall b :: b in blocks ==> OnView(v, b)
  }

  /** A later header may be registered as finalized after the check and before the
      deletion, which reads the finalized height again.  Then the entries dropped
      are on the finalized chain exactly when the last of them is; that is, when a
      check against the later header would find no fork; and always, when no entry
      lies between the two heights. */
  lemma {:induction false} LateFinalization(L: Ledger, v: View, v': View, s: State, later: Header)
    requires ChainView(L, v) && ChainView(L, v') && Linked(L, s.blocks)
    requires OnView(v, s.finalized) && HasForked(v, s.finalized, s.blocks) == Success(None)
    requires Agree(v, v', s.finalized.blockHeight)
    requires OnView(v', later) && s.finalized.blockHeight <= later.blockHeight
    requires Prunes(s.lastChecked, later.blockHeight)
    ensures var s1 := s.(finalized := later);
            && Best(s1) + DeleteFinalized(s1).blocks == s.blocks
            && (AllOnView(v', Best(s1)) <==> |Best(s1)| == 0 || OnView(v', Last(Best(s1))))
            && (HasForked(v', later, s.blocks).Success? ==>
                  (AllOnView(v', Best(s1)) <==> HasForked(v', later, s.blocks) == Success(None)))
            && (Best(s1) == Best(s) ==> AllOnView(v', Best(s1)))
  {
    var s1 := s.(finalized := later);
    FiltersCut(s.blocks, later.blockHeight);
    assert s.blocks[..|Best(s1)|] + s.blocks[|Best(s1)|..] == s.blocks;
    BestIsPrefix(L, s1);
    LastCovers(L, v', Best(s1));
    HasForkedExact(L, v', later, s.blocks);
    NoForkMeansFinalized(L, v, s.finalized, s.blocks);
  }

  lemma {:induction false} LastCovers(L: Ledger, v: View, blocks: seq<Header>)
    requires ChainView(L, v) && Linked(L, blocks)
    ensures AllOnView(v, blocks) <==> |blocks| == 0 || OnView(v, Last(blocks))
  {
    if |blocks| > 0 && OnView(v, Last(blocks)) {
      forall i | 0 <= i < |blocks| ensures OnView(v, blocks[i]) {
        OlderEntriesOnView(L, v, blocks, |blocks| - 1, i);
      }
    }
  }

  /** A fork found by the check or by backfilling is reported with a block of the
      view; only the parent check can report another one, the delivered header. */
  lemma {:induction false} ForkOnView(L: Ledger, v: View, s: State, header: Option<Header>)
    requires ChainView(L, v) && Linked(L, s.blocks) && OnView(v, s.finalized)
    requires header.Some? ==> Known(L, header.value)
    ensures var r := Detect(v, s, header).1;
            r.Success? && r.value.Some? ==> OnView(v, r.value.value) || header == r.value
  {
    var (s1, r) := if header.Some? then Register(v, s, header.value) else (s, Success(None));
    if header.Some? {
      RegisterKeeps(L, v, s, header.value);
    }
    if r == Success(None) {
      HasForkedExact(L, v, s1.finalized, s1.blocks);
    }
  }

  /** The header comes after the list, with no slot between them produced or
      failing, and follows an orphan: the last entry at or below the finalized
      height, which is not the last of the list. */
  ghost predicate Misleads(v: View, s: State, header: Header) {
    var best := Best(s);
    && s.finalized.blockHeight < header.blockHeight
    && 0 < |best| < |s.blocks|
    && Last(s.blocks).blockHeight < header.blockHeight
    && header.parentHash == Last(best).blockHash && !OnView(v, Last(best))
    && NoFailures(v, Last(s.blocks).blockHeight + 1, header.blockHeight)
    && forall slot :: Last(s.blocks).blockHeight < slot < header.blockHeight ==> slot !in v.blocks
  }

  /** Nothing was produced in the gap before such a header. */
  lemma EmptyGap(v: View, s: State, header: Header)
    requires |s.blocks| > 0
    ensures Gap(v, s, header) == [] <==>
            forall slot :: Last(s.blocks).blockHeight < slot < header.blockHeight ==> slot !in v.blocks
  {
    NothingProduced(v, Last(s.blocks).blockHeight + 1, header.blockHeight - 1);
  }

  lemma {:induction false} NothingProduced(v: View, lo: int, hi: int)
    ensures Produced(v, lo, hi) == [] <==> forall slot :: lo <= slot <= hi ==> slot !in v.blocks
    decreases hi - lo
  {
    if lo <= hi {
      NothingProduced(v, lo + 1, hi);
    }
  }

  /** The registration then reports the header itself and changes nothing. */
  lemma {:induction false} MisleadingIsReported(L: Ledger, v: View, s: State, header: Header)
    requires ChainView(L, v) && Linked(L, s.blocks) && Misleads(v, s, header)
    ensures Detect(v, s, Some(header)) == (s, Success(Some(header)))
    ensures MeetsOrphan(v, Best(s), header)
  {
    var low, last := Last(Best(s)), Last(s.blocks);
    assert low.blockHash != last.blockHash by { DistinctHashes(L, s); }
    EmptyGap(v, s, header);
    RegisterExact(L, v, s, header);
    assert s.blocks + [] == s.blocks && s.(blocks := s.blocks) == s;
    assert Register(v, s, header) == (s, Success(Some(header)));
  }

  lemma DistinctHashes(L: Ledger, s: State)
    requires Linked(L, s.blocks) && 0 < |Best(s)| < |s.blocks|
    ensures Last(Best(s)).blockHash != Last(s.blocks).blockHash
  {
    BestIsPrefix(L, s);
    var low, last := Last(Best(s)), Last(s.blocks);
    assert low in s.blocks && last in s.blocks;
    assert s.blocks[|Best(s)| - 1].blockHeight < s.blocks[|s.blocks| - 1].blockHeight;
  }

  /** Only such a header makes the search meet an orphan. */
  lemma {:induction false} OnlyMisleadingMeetsOrphan(L: Ledger, v: View, s: State, header: Option<Header>, f: Header)
    requires ChainView(L, v) && Linked(L, s.blocks) && OnView(v, s.finalized)
    requires header.Some? ==> Known(L, header.value)
    requires Detect(v, s, header).1 == Success(Some(f)) && MeetsOrphan(v, Best(Detect(v, s, header).0), f)
    ensures header.Some? && Misleads(v, s, header.value)
  {
    var s1 := Detect(v, s, header).0;
    DetectFacts(L, v, s, header);
    BestIsPrefix(L, s1);
    if OnView(v, f) {
      ChainMeetsNoOrphan(L, v, Best(s1), f);
      assert false;
    } else {
      ForkOnView(L, v, s, header);
      ReportedHeader(L, v, s, header.value);
    }
  }

  lemma {:induction false} ReportedHeader(L: Ledger, v: View, s: State, header: Header)
    requires ChainView(L, v) && Linked(L, s.blocks) && OnView(v, s.finalized) && Known(L, header) && !OnView(v, header)
    requires Detect(v, s, Some(header)).1 == Success(Some(header))
    requires MeetsOrphan(v, Best(Detect(v, s, Some(header)).0), header)
    ensures Misleads(v, s, header)
  {
    var s1 := Detect(v, s, Some(header)).0;
    DetectFacts(L, v, s, Some(header));
    RegisterReports(L, v, s, header);
    NoGapAboveOrphan(L, v, s, s1, header);
    EmptyGap(v, s, header);
    assert s1.blocks == s.blocks;
    assert Best(s) == Best(s1);
    assert Last(Best(s)).blockHash != header.blockHash by { HeaderIsNew(L, s, header); }
    BestIsPrefix(L, s);
    assert Best(s) != s.blocks;
  }

  /** Were a block of the view appended, every older entry would be on the view. */
  lemma {:induction false} NoGapAboveOrphan(L: Ledger, v: View, s: State, s1: State, header: Header)
    requires ChainView(L, v) && Linked(L, s1.blocks) && |s.blocks| > 0
    requires s1.blocks == s.blocks + Gap(v, s, header)
    requires |Best(s1)| > 0 && !OnView(v, Last(Best(s1)))
    ensures Gap(v, s, header) == []
  {
    var gap := Gap(v, s, header);
    if |gap| > 0 {
      ProducedExact(v, Last(s.blocks).blockHeight + 1, header.blockHeight - 1);
      assert Last(gap) in gap && Last(s1.blocks) == Last(gap);
      BestOnView(L, v, s1);
    }
  }

  lemma {:induction false} BestOnView(L: Ledger, v: View, s: State)
    requires ChainView(L, v) && Linked(L, s.blocks)
    requires |s.blocks| > 0 && |Best(s)| > 0 && OnView(v, Last(s.blocks))
    ensures OnView(v, Last(Best(s)))
  {
    BestIsPrefix(L, s);
    PrefixOnView(L, v, s.blocks, Best(s));
  }

  lemma PrefixOnView(L: Ledger, v: View, blocks: seq<Header>, part: seq<Header>)
    requires ChainView(L, v) && Linked(L, blocks) && part <= blocks
    requires |part| > 0 && OnView(v, Last(blocks))
    ensures OnView(v, Last(part))
  {
    OlderEntriesOnView(L, v, blocks, |blocks| - 1, |part| - 1);
  }

  lemma HeaderIsNew(L: Ledger, s: State, header: Header)
    requires Linked(L, s.blocks) && Known(L, header) && |Best(s)| > 0
    requires s.finalized.blockHeight < header.blockHeight
    ensures Last(Best(s)).blockHash != header.blockHash
  {
    BestIsPrefix(L, s);
    assert Last(Best(s)) in s.blocks && Last(Best(s)) in Best(s);
  }

  /** A header off the view that is reported was reported by the parent check,
      after the whole gap was appended. */
  lemma {:induction false} RegisterReports(L: Ledger, v: View, s: State, header: Header)
    requires ChainView(L, v) && Linked(L, s.blocks) && OnView(v, s.finalized) && Known(L, header) && !OnView(v, header)
    requires Detect(v, s, Some(header)).1 == Success(Some(header))
    ensures s.finalized.blockHeight < header.blockHeight
    ensures |s.blocks| > 0 && Last(s.blocks).blockHeight < header.blockHeight
    ensures NoFailures(v, Last(s.blocks).blockHeight + 1, header.blockHeight)
    ensures var s1 := Detect(v, s, Some(header)).0;
            s1.blocks == s.blocks + Gap(v, s, header) && header.parentHash != Last(s1.blocks).blockHash
  {
    var (s1, r) := Register(v, s, header);
    if r == Success(None) {
      RegisterKeeps(L, v, s, header);
      HasForkedExact(L, v, s1.finalized, s1.blocks);
    } else {
      BackfillExact(v, s.blocks, Last(s.blocks).blockHeight + 1, header.blockHeight - 1);
    }
  }

  /** The call's state as a start-up or a delivery sees it. */
  function CallState(w: World, e: Event): State {
    var finalized := Direct(w.view, w.finalizedSlot);
    if e.Restart? && finalized.Success? then Load(w.s).(finalized := finalized.value) else w.s
  }

  function Delivered(e: Event): Option<Header> {
    if e.Deliver? then e.header else None
  }

  /** Every rewind target lies between the last checked and the finalized height;
      it is on the finalized chain, then and for the rest of the run, unless the
      call is misled by a header of an abandoned branch, and then it is not. */
  lemma {:induction false} RewindTargetIsFinal(L: Ledger, ws: seq<World>, es: seq<Event>, i: nat, j: nat, t: Header)
    requires Run(L, ws, es) && i <= j < |ws| && i < |es|
    requires Step(ws[i], es[i]).1 == Success(Some(t))
    ensures var s := CallState(ws[i], es[i]);
            && t.blockHeight <= s.finalized.blockHeight <= ws[j].finalizedSlot
            && (s.lastChecked.At? ==> s.lastChecked.height <= t.blockHeight)
            && var misled := Delivered(es[i]).Some? && Misleads(ws[i].view, s, Delivered(es[i]).value);
            && (OnView(ws[i].view, t) <==> !misled)
            && (!misled ==> OnView(ws[j].view, t))
  {
    InvHolds(L, ws, es, i);
    assert Happens(L, ws, es, i);
    var w, s := ws[i], CallState(ws[i], es[i]);
    assert Kept(L, w.view, w.finalizedSlot, s) by {
      if es[i].Restart? {
        assert s.blocks == Saved(w.s);
      }
    }
    FinalStays(L, ws, es, i, j, s.finalized);
    TargetExact(L, w.view, w.finalizedSlot, s, Delivered(es[i]), t);
    if OnView(w.view, t) {
      FinalStays(L, ws, es, i, j, t);
    }
  }

  lemma {:induction false} TargetExact(L: Ledger, v: View, slot: nat, s: State, header: Option<Header>, t: Header)
    requires ChainView(L, v) && Kept(L, v, slot, s)
    requires header.Some? ==> Known(L, header.value)
    requires Process(v, s, header).1 == Success(Some(t))
    ensures t.blockHeight <= s.finalized.blockHeight
    ensures s.lastChecked.At? ==> s.lastChecked.height <= t.blockHeight
    ensures OnView(v, t) <==> !(header.Some? && Misleads(v, s, header.value))
  {
    DetectKeeps(L, v, slot, s, header);
    var (s1, r) := Detect(v, s, header);
    RewindSafe(L, v, s1, r.value.value, t);
    if MeetsOrphan(v, Best(s1), r.value.value) {
      OnlyMisleadingMeetsOrphan(L, v, s, header, r.value.value);
    }
    if header.Some? && Misleads(v, s, header.value) {
      MisleadingIsReported(L, v, s, header.value);
    }
  }

  /** A header of the endpoint's current view misleads no call. */
  lemma {:induction false} CurrentHeaderNeverMisleads(L: Ledger, v: View, s: State, header: Header)
    requires ChainView(L, v) && Linked(L, s.blocks) && OnView(v, header)
    ensures !Misleads(v, s, header)
  {
    BestIsPrefix(L, s);
    ChainMeetsNoOrphan(L, v, Best(s), header);
  }

  // ----- forks without a target -----

  /** What is reported as forked is a block of the chain or a delivered header above
      the finalized height. */
  lemma {:induction false} ReportedIsReportable(L: Ledger, v: View, s: State, header: Option<Header>, f: Header)
    requires ChainView(L, v) && Linked(L, s.blocks) && OnView(v, s.finalized)
    requires header.Some? ==> Known(L, header.value)
    requires Detect(v, s, header).1 == Success(Some(f))
    ensures Reportable(L, v, Detect(v, s, header).0, f)
  {
    ForkOnView(L, v, s, header);
    DetectFacts(L, v, s, header);
    if OnView(v, f) {
      assert ChainBlock(L, v, f.blockHeight);
    } else {
      RegisterReports(L, v, s, header.value);
    }
  }

  /** Start-up finds a fork and goes on without a rewind, dropping the list as if
      there were no fork, exactly when the search passes every entry and no usable
      height was saved. */
  lemma {:induction false} StartupForkDropped(L: Ledger, ws: seq<World>, es: seq<Event>, i: nat, f: Header)
    requires Run(L, ws, es) && i < |es| && es[i].Restart?
    requires Direct(ws[i].view, ws[i].finalizedSlot).Success?
    requires var s := CallState(ws[i], es[i]); HasForked(ws[i].view, s.finalized, s.blocks) == Success(Some(f))
    ensures var w, s := ws[i], CallState(ws[i], es[i]);
            OnView(w.view, f) &&
            (Step(w, es[i]).1 == Success(None) <==> Falsy(w.s.savedChecked) && PassesAll(w.view, Best(s), f))
    ensures Step(ws[i], es[i]).1 == Success(None) ==>
              ws[i + 1].up && ws[i + 1].s.blocks == [] && ws[i + 1].s.savedBlocks == Some([])
              && ws[i + 1].s.savedChecked == Null
  {
    InvHolds(L, ws, es, i);
    assert Happens(L, ws, es, i);
    var w, s := ws[i], CallState(ws[i], es[i]);
    assert s.blocks == Saved(w.s) && Linked(L, s.blocks);
    ForkedAtLast(L, w.view, s, f);
    assert ChainBlock(L, w.view, f.blockHeight);
    assert |s.blocks| > 0;
    assert Step(w, es[i]).1 == LastCorrect(w.view, s, f);
    ForkWithoutTarget(L, w.view, s, f);
  }

  /** While the process is running, a fork, whatever header it is reported with, is
      left without a target exactly when the last checked height is zero and the
      search passes every entry. */
  lemma {:induction false} DeliveredForkWithoutTarget(L: Ledger, v: View, slot: nat, s: State, header: Option<Header>,
                                                      f: Header)
    requires ChainView(L, v) && MemoryOk(L, v, slot, s) && (header.Some? ==> Known(L, header.value))
    requires Detect(v, s, header).1 == Success(Some(f))
    ensures Process(v, s, header).1 == Success(None) <==>
            s.lastChecked == At(0) && PassesAllFrom(v, Best(Detect(v, s, header).0), f)
  {
    if s.blocks == [] {
      EmptyDetects(v, s, header);
    }
    DetectKeeps(L, v, slot, s, header);
    var s1 := Detect(v, s, header).0;
    assert Process(v, s, header).1 == LastCorrect(v, s1, f);
    assert Falsy(s1.lastChecked) <==> s.lastChecked == At(0);
    ReportedIsReportable(L, v, s, header, f);
    ForkWithoutTarget(L, v, s1, f);
  }

  /** Over any run, the outcome of every delivery that finds a fork: the entry that
      the search comes to, the header at the last checked height if it passes all of
      them, or an error. */
  lemma {:induction false} DeliveredFork(L: Ledger, ws: seq<World>, es: seq<Event>, i: nat, f: Header)
    requires Run(L, ws, es) && i < |es| && es[i].Deliver?
    requires Detect(ws[i].view, ws[i].s, es[i].header).1 == Success(Some(f))
    ensures var v, s1 := ws[i].view, Detect(ws[i].view, ws[i].s, es[i].header).0;
            var best, r := Best(s1), Step(ws[i], es[i]).1;
            && (forall j :: FindsFrom(v, best, f, j) ==> r == Success(Some(best[j])))
            && (PassesAllFrom(v, best, f) ==> r == Fallback(v, ws[i].s.lastChecked))
            && ((forall j :: !FindsFrom(v, best, f, j)) && !PassesAllFrom(v, best, f) ==>
                  r == Failure(SearchError(v, f)))
  {
    InvHolds(L, ws, es, i);
    assert Happens(L, ws, es, i);
    var w, o := ws[i], es[i].header;
    DetectKeeps(L, w.view, w.finalizedSlot, w.s, o);
    ReportedIsReportable(L, w.view, w.s, o, f);
    RewindOutcome(L, w.view, Detect(w.view, w.s, o).0, f);
  }
}
