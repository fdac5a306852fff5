/** What the endpoint shows: headers by slot, with skipped slots, and what it
    means for such a view to be one chain of the block tree. */
module Chain {
  import opened Wrappers

  datatype Header = Header(blockHeight: nat, blockHash: string, parentHash: string)

  /** Everything a call on the tracker can throw. */
  datatype Error =
    | BlockUnavailable   // the slot was skipped
    | RpcFailure         // any other error of the endpoint
    | MissingParentHash  // one of the asserts on parentHash
    | NotSequential      // exitWithError, which ends the process

  datatype Reply = Found(header: Header) | Unavailable | Failed

  datatype RawView = RawView(blocks: map<int, Header>, failing: set<int>)

  /** A header is always returned under the slot that was asked for. */
  type View = v: RawView | forall s :: s in v.blocks ==> v.blocks[s].blockHeight == s
    witness RawView(map[], {})

  /** `getHeaderForHeight`: a header, "no block in that slot", or another error.
      There is no slot below zero, so asking for one is an error. */
  function Lookup(v: View, slot: int): Reply {
    if slot < 0 || slot in v.failing then Failed
    else if slot in v.blocks then Found(v.blocks[slot])
    else Unavailable
  }

  /** A single lookup whose errors are not caught. */
  function Direct(v: View, slot: int): Result<Header, Error> {
    match Lookup(v, slot)
    case Found(h) => Success(h)
    case Unavailable => Failure(BlockUnavailable)
    case Failed => Failure(RpcFailure)
  }

  predicate OnView(v: View, h: Header) {
    h.blockHeight in v.blocks && v.blocks[h.blockHeight] == h
  }

  /** The last block produced at or before a slot. */
  function GreatestAtOrBelow(v: View, slot: int): (r: Option<Header>)
    ensures match r
            case None => forall s :: s in v.blocks ==> s > slot
            case Some(h) => h.blockHeight <= slot && OnView(v, h) &&
                            forall s :: s in v.blocks ==> s <= h.blockHeight || s > slot
    decreases if slot < 0 then 0 else slot + 1
  {
    if slot < 0 then None
    else if slot in v.blocks then Some(v.blocks[slot])
    else GreatestAtOrBelow(v, slot - 1)
  }

  /** `getParentHeaderByHeight`: step back over skipped slots. */
  function ParentByHeight(v: View, slot: int): (r: Result<Header, Error>)
    ensures if r.Success? then r.value.blockHeight <= slot else r.error == RpcFailure
    decreases if slot < 0 then 0 else slot + 1
  {
    match Lookup(v, slot)
    case Found(h) => Success(h)
    case Failed => Failure(RpcFailure)
    case Unavailable => ParentByHeight(v, slot - 1)
  }

  /** The lookup succeeds exactly when no slot it has to pass fails, and then it
      is the greatest produced slot at or below its argument. */
  lemma {:induction false} ParentByHeightExact(v: View, slot: int, h: Header)
    ensures ParentByHeight(v, slot) == Success(h) <==>
            && OnView(v, h) && h.blockHeight <= slot
            && (forall s :: h.blockHeight < s <= slot ==> s !in v.blocks)
            && (forall s :: h.blockHeight <= s <= slot ==> s !in v.failing)
    decreases if slot < 0 then 0 else slot + 1
  {
    if Lookup(v, slot).Unavailable? {
      ParentByHeightExact(v, slot - 1, h);
    }
  }

  lemma {:induction false} ParentIsGreatest(v: View, slot: int)
    requires ParentByHeight(v, slot).Success?
    ensures GreatestAtOrBelow(v, slot) == Some(ParentByHeight(v, slot).value)
    decreases if slot < 0 then 0 else slot + 1
  {
    if Lookup(v, slot).Unavailable? {
      ParentIsGreatest(v, slot - 1);
    }
  }

  /** Number of produced slots at or below `slot`. */
  function Rank(v: View, slot: int): nat
    decreases if slot < 0 then 0 else slot + 1
  {
    if slot < 0 then 0
    else Rank(v, slot - 1) + if slot in v.blocks then 1 else 0
  }

  lemma {:induction false} RankMonotone(v: View, a: int, b: int)
    requires a <= b
    ensures Rank(v, a) <= Rank(v, b)
    ensures a < b && b in v.blocks ==> Rank(v, a) < Rank(v, b)
    ensures (forall s :: a < s <= b ==> s !in v.blocks) ==> Rank(v, a) == Rank(v, b)
    decreases b - a
  {
    if a < b {
      RankMonotone(v, a, b - 1);
    }
  }

  /** Going to the previous produced slot lowers the rank by one. */
  lemma {:induction false} ParentRank(v: View, slot: nat)
    requires slot in v.blocks
    ensures match GreatestAtOrBelow(v, slot - 1)
            case None => Rank(v, slot) == 1
            case Some(p) => Rank(v, slot) == Rank(v, p.blockHeight) + 1
  {
    match GreatestAtOrBelow(v, slot - 1)
    case None => RankMonotone(v, -1, slot - 1);
    case Some(p) => RankMonotone(v, p.blockHeight, slot - 1);
  }

  /** Two blocks of one view with the same rank are the same block. */
  lemma {:induction false} RankInjective(v: View, a: Header, b: Header)
    requires OnView(v, a) && OnView(v, b) && Rank(v, a.blockHeight) == Rank(v, b.blockHeight)
    ensures a == b
  {
    if a.blockHeight < b.blockHeight {
      RankMonotone(v, a.blockHeight, b.blockHeight);
    } else {
      RankMonotone(v, b.blockHeight, a.blockHeight);
    }
  }

  /** Every block of every branch, by its hash.  That this is a map is the
      hypothesis "a block hash identifies its header". */
  type Ledger = imap<string, Header>

  ghost predicate Known(L: Ledger, h: Header) {
    h.blockHash in L && L[h.blockHash] == h
  }

  /** The block at `slot` names the block of the previous produced slot as its
      parent; the first block of a view names no known block. */
  ghost predicate ChainBlock(L: Ledger, v: View, slot: int)
    requires slot in v.blocks
  {
    var h := v.blocks[slot];
    && Known(L, h)
    && h.parentHash != ""
    && match GreatestAtOrBelow(v, slot - 1)
       case None => h.parentHash !in L
       case Some(p) => h.parentHash == p.blockHash
  }

  /** The view is one branch of the block tree. */
  ghost predicate ChainView(L: Ledger, v: View) {
    forall s {:trigger ChainBlock(L, v, s)} :: s in v.blocks ==> ChainBlock(L, v, s)
  }

  /** A known block named as parent by a block of the view is the view's own
      previous block. */
  lemma {:induction false} ParentIsPrevious(L: Ledger, v: View, child: Header, parent: Header)
    requires ChainView(L, v) && OnView(v, child) && Known(L, parent)
    requires child.parentHash == parent.blockHash
    ensures OnView(v, parent)
    ensures GreatestAtOrBelow(v, child.blockHeight - 1) == Some(parent)
  {
    assert ChainBlock(L, v, child.blockHeight);
    var p := GreatestAtOrBelow(v, child.blockHeight - 1);
    assert p.Some?;
    assert ChainBlock(L, v, p.value.blockHeight);
  }

  lemma {:induction false} SameHashSameBlock(L: Ledger, v: View, a: Header, b: Header)
    requires ChainView(L, v) && OnView(v, a) && Known(L, b) && a.blockHash == b.blockHash
    ensures a == b
  {
    assert ChainBlock(L, v, a.blockHeight);
  }
}
