/** The service itself: fields, the metadata store, the endpoint it queries, and
    the loops, proved against the functions of module Tracker. */
module UnfinalizedBlocks {
  import opened Wrappers
  import opened Chain
  import opened Tracker
  import opened Seqs

  /** The endpoint.  `probes` records the slots asked for, in order. */
  class Endpoint {
    var view: View
    var finalizedSlot: nat
    ghost var probes: seq<int>

    constructor (view: View, finalizedSlot: nat)
      ensures this.view == view && this.finalizedSlot == finalizedSlot && probes == []
    {
      this.view, this.finalizedSlot, this.probes := view, finalizedSlot, [];
    }

    method GetHeaderForHeight(height: int) returns (r: Reply)
      modifies this`probes
      ensures r == Lookup(view, height)
      ensures probes == old(probes) + [height]
    {
      probes := probes + [height];
      r := Lookup(view, height);
    }

    method GetFinalizedHeader() returns (r: Result<Header, Error>)
      modifies this`probes
      ensures r == Direct(view, finalizedSlot)
    {
      var reply := GetHeaderForHeight(finalizedSlot);
      r := Thrown(reply);
    }
  }

  /** What an uncaught lookup yields. */
  function Thrown(reply: Reply): Result<Header, Error> {
    match reply
    case Found(h) => Success(h)
    case Unavailable => Failure(BlockUnavailable)
    case Failed => Failure(RpcFailure)
  }

  class Metadata {
    var unfinalizedBlocks: Option<seq<Header>>
    var lastFinalizedVerifiedHeight: Checked

    constructor ()
      ensures unfinalizedBlocks == None && lastFinalizedVerifiedHeight == Undefined
    {
      unfinalizedBlocks, lastFinalizedVerifiedHeight := None, Undefined;
    }
  }

  /** The slots a walk down to `target` asks for. */
  ghost function ParentProbes(v: View, slot: int): seq<int>
    decreases if slot < 0 then 0 else slot + 1
  {
    [slot] + if Lookup(v, slot).Unavailable? then ParentProbes(v, slot - 1) else []
  }

  ghost function WalkProbes(v: View, header: Header, target: nat): seq<int>
    decreases header.blockHeight
  {
    if header.blockHeight == target || header.parentHash == "" then []
    else
      ParentProbes(v, header.blockHeight - 1) +
      match ParentByHeight(v, header.blockHeight - 1)
      case Failure(_) => []
      case Success(p) => WalkProbes(v, p, target)
  }

  ghost function ForkProbes(v: View, finalized: Header, blocks: seq<Header>): seq<int> {
    match Closest(blocks, finalized.blockHeight)
    case None => []
    case Some(rec) =>
      if finalized.blockHeight - rec.blockHeight > UNFINALIZED_THRESHOLD then [rec.blockHeight]
      else WalkProbes(v, finalized, rec.blockHeight)
  }

  class UnfinalizedBlocksService {
    const store: Metadata
    const chain: Endpoint
    var unfinalizedBlocks: seq<Header>
    var finalizedHeader: Header
    var lastCheckedBlockHeight: Checked

    ghost function State(): Tracker.State
      reads this, store
    {
      Tracker.State(unfinalizedBlocks, finalizedHeader, lastCheckedBlockHeight,
                    store.unfinalizedBlocks, store.lastFinalizedVerifiedHeight)
    }

    constructor (store: Metadata, chain: Endpoint)
      ensures this.store == store && this.chain == chain
      ensures unfinalizedBlocks == [] && lastCheckedBlockHeight == Undefined
    {
      this.store, this.chain := store, chain;
      unfinalizedBlocks, lastCheckedBlockHeight := [], Undefined;
      finalizedHeader := Header(0, "", "");
    }

    method Init() returns (r: Verdict)
      modifies this, store, chain`probes
      ensures (State(), r) == Tracker.Init(chain.view, chain.finalizedSlot, old(State()))
    {
      unfinalizedBlocks := if store.unfinalizedBlocks.Some? then store.unfinalizedBlocks.value else [];
      lastCheckedBlockHeight := store.lastFinalizedVerifiedHeight;
      var finalized := chain.GetFinalizedHeader();
      if finalized.Failure? {
        return Failure(finalized.error);
      }
      finalizedHeader := finalized.value;
      if |unfinalizedBlocks| == 0 {
        return Success(None);
      }
      r := ProcessUnfinalizedBlockHeader(None);
      if r.Failure? {
        return;
      }
      if r.value.Some? {
        Reindex(r.value.value);
      } else {
        ResetUnfinalizedBlocks();
        ResetLastFinalizedVerifiedHeight();
      }
    }

    /** The callback passed to `init`, as far as this service sees it. */
    method Reindex(target: Header)
      modifies this, store
      ensures State() == ResetChecked(ResetBlocks(old(State())))
    {
      ResetUnfinalizedBlocks();
      ResetLastFinalizedVerifiedHeight();
    }

    method ProcessUnfinalizedBlockHeader(header: Option<Header>) returns (r: Verdict)
      modifies this, store, chain`probes
      ensures (State(), r) == Process(chain.view, old(State()), header)
    {
      var forked: Verdict := Success(None);
      if header.Some? {
        forked := RegisterUnfinalizedBlock(header.value);
      }
      if forked == Success(None) {
        forked := HasForkedNow();
      }
      match forked
      case Failure(e) =>
        return Failure(e);
      case Success(None) =>
        DeleteFinalizedBlock();
        return Success(None);
      case Success(Some(f)) =>
        r := GetLastCorrectFinalizedBlock(f);
    }

    method RegisterFinalizedBlock(header: Header)
      modifies this`finalizedHeader
      ensures State() == RegisterFinalized(old(State()), header)
      ensures finalizedHeader == old(finalizedHeader) || finalizedHeader == header
      ensures finalizedHeader.blockHeight >= old(finalizedHeader).blockHeight
      ensures finalizedHeader.blockHeight >= header.blockHeight
    {
      if finalizedHeader.blockHeight >= header.blockHeight {
        return;
      }
      finalizedHeader := header;
    }

    method RegisterUnfinalizedBlock(header: Header) returns (r: Verdict)
      modifies this`unfinalizedBlocks, store`unfinalizedBlocks, chain`probes
      ensures (State(), r) == Register(chain.view, old(State()), header)
    {
      if header.blockHeight <= finalizedHeader.blockHeight {
        return Success(None);
      }
      if |unfinalizedBlocks| == 0 {
        unfinalizedBlocks := unfinalizedBlocks + [header];
        SaveUnfinalizedBlocks();
        return Success(None);
      }
      var lastProducedHeight := Last(unfinalizedBlocks).blockHeight;
      if lastProducedHeight >= header.blockHeight {
        return Failure(NotSequential);
      }
      if lastProducedHeight + 1 != header.blockHeight {
        var forked := BackfillSkippedSlots(lastProducedHeight + 1, header.blockHeight - 1);
        if forked != Success(None) {
          return forked;
        }
      }
      if |unfinalizedBlocks| > 0 && header.parentHash != Last(unfinalizedBlocks).blockHash {
        return Success(Some(header));
      }
      unfinalizedBlocks := unfinalizedBlocks + [header];
      SaveUnfinalizedBlocks();
      return Success(None);
    }

    method BackfillSkippedSlots(startHeight: int, endHeight: int) returns (r: Verdict)
      requires startHeight <= endHeight + 1
      modifies this`unfinalizedBlocks, chain`probes
      ensures (unfinalizedBlocks, r) == Backfill(chain.view, old(unfinalizedBlocks), startHeight, endHeight)
    {
      for height := startHeight to endHeight + 1
        invariant Backfill(chain.view, unfinalizedBlocks, height, endHeight)
               == Backfill(chain.view, old(unfinalizedBlocks), startHeight, endHeight)
      {
        var reply := chain.GetHeaderForHeight(height);
        if reply.Failed? {
          return Failure(RpcFailure);
        }
        if reply.Found? {
          var header := reply.header;
          if |unfinalizedBlocks| > 0 && header.parentHash != Last(unfinalizedBlocks).blockHash {
            return Success(Some(header));
          }
          unfinalizedBlocks := unfinalizedBlocks + [header];
        }
      }
      return Success(None);
    }

    method DeleteFinalizedBlock()
      modifies this, store
      ensures State() == DeleteFinalized(old(State()))
    {
      var height := finalizedHeader.blockHeight;
      if Prunes(lastCheckedBlockHeight, height) {
        unfinalizedBlocks := Above(unfinalizedBlocks, height);
        store.lastFinalizedVerifiedHeight := At(height);
        SaveUnfinalizedBlocks();
      }
      lastCheckedBlockHeight := At(height);
    }

    /** Also says which slots are asked for on the way. */
    method HasForkedNow() returns (r: Verdict)
      modifies chain`probes
      ensures r == HasForked(chain.view, finalizedHeader, unfinalizedBlocks)
      ensures chain.probes == old(chain.probes) + ForkProbes(chain.view, finalizedHeader, unfinalizedBlocks)
    {
      var closest := Closest(unfinalizedBlocks, finalizedHeader.blockHeight);
      if closest.None? {
        return Success(None);
      }
      var rec := closest.value;
      if rec.blockHeight == finalizedHeader.blockHeight {
        return Success(if rec.blockHash != finalizedHeader.blockHash then Some(finalizedHeader) else None);
      }
      var header: Result<Header, Error>;
      if finalizedHeader.blockHeight - rec.blockHeight > UNFINALIZED_THRESHOLD {
        var reply := chain.GetHeaderForHeight(rec.blockHeight);
        header := Thrown(reply);
      } else {
        header := WalkBack(rec.blockHeight);
      }
      if header.Failure? {
        return Failure(header.error);
      }
      return Success(if header.value.blockHash != rec.blockHash then Some(header.value) else None);
    }

    /** The loop of `hasForked` over parent blocks. */
    method WalkBack(target: nat) returns (r: Result<Header, Error>)
      modifies chain`probes
      ensures r == Walk(chain.view, finalizedHeader, target)
      ensures chain.probes == old(chain.probes) + WalkProbes(chain.view, finalizedHeader, target)
    {
      var header := finalizedHeader;
      while target != header.blockHeight
        invariant Walk(chain.view, header, target) == Walk(chain.view, finalizedHeader, target)
        invariant chain.probes + WalkProbes(chain.view, header, target)
               == old(chain.probes) + WalkProbes(chain.view, finalizedHeader, target)
        decreases header.blockHeight
      {
        if header.parentHash == "" {
          return Failure(MissingParentHash);
        }
        ghost var before := chain.probes;
        var parent := GetParentHeaderByHeight(header.blockHeight - 1);
        if parent.Failure? {
          return Failure(parent.error);
        }
        Associative(before, ParentProbes(chain.view, header.blockHeight - 1),
                    WalkProbes(chain.view, parent.value, target));
        header := parent.value;
      }
      return Success(header);
    }

    method GetLastCorrectFinalizedBlock(forked: Header) returns (r: Verdict)
      modifies chain`probes
      ensures r == LastCorrect(chain.view, State(), forked)
    {
      var best := AtMost(unfinalizedBlocks, finalizedHeader.blockHeight);
      var checking := forked;
      var n := |best|;
      assert best[..n] == best;
      while n > 0
        invariant 0 <= n <= |best|
        invariant Search(chain.view, best[..n], checking) == Search(chain.view, best, forked)
      {
        var bestHeader := best[n - 1];
        assert best[..n][..n - 1] == best[..n - 1];
        if bestHeader.blockHash == checking.blockHash || bestHeader.blockHash == checking.parentHash {
          return Success(Some(bestHeader));
        }
        if checking.parentHash == "" {
          return Failure(MissingParentHash);
        }
        var parent := GetParentHeaderByHeight(checking.blockHeight - 1);
        if parent.Failure? {
          return Failure(parent.error);
        }
        checking := parent.value;
        n := n - 1;
      }
      if Falsy(lastCheckedBlockHeight) {
        return Success(None);
      }
      var reply := chain.GetHeaderForHeight(lastCheckedBlockHeight.height);
      var found := Thrown(reply);
      return if found.Failure? then Failure(found.error) else Success(Some(found.value));
    }

    method GetParentHeaderByHeight(height: int) returns (r: Result<Header, Error>)
      modifies chain`probes
      ensures r == ParentByHeight(chain.view, height)
      ensures chain.probes == old(chain.probes) + ParentProbes(chain.view, height)
      decreases if height < 0 then 0 else height + 1
    {
      var reply := chain.GetHeaderForHeight(height);
      match reply
      case Found(h) => return Success(h);
      case Failed => return Failure(RpcFailure);
      case Unavailable => r := GetParentHeaderByHeight(height - 1);
    }

    method SaveUnfinalizedBlocks()
      modifies store`unfinalizedBlocks
      ensures store.unfinalizedBlocks == Some(unfinalizedBlocks)
    {
      store.unfinalizedBlocks := Some(unfinalizedBlocks);
    }

    method ResetUnfinalizedBlocks()
      modifies this`unfinalizedBlocks, store`unfinalizedBlocks
      ensures State() == ResetBlocks(old(State()))
    {
      store.unfinalizedBlocks := Some([]);
      unfinalizedBlocks := [];
    }

    method ResetLastFinalizedVerifiedHeight()
      modifies store`lastFinalizedVerifiedHeight
      ensures State() == ResetChecked(old(State()))
    {
      store.lastFinalizedVerifiedHeight := Null;
    }
  }
}
