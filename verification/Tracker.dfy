/** The unfinalized-block tracker as functions from one state to the next.
    The class in UnfinalizedBlocks.dfy is proved against these functions, and
    the theorems of the other modules are about them. */
module Tracker {
  import opened Wrappers
  import opened Chain

  /** `undefined`, `null` (what a reset leaves in the store) or a height. */
  datatype Checked = Undefined | Null | At(height: nat)

  datatype State = State(
    blocks: seq<Header>,
    finalized: Header,
    lastChecked: Checked,
    savedBlocks: Option<seq<Header>>,
    savedChecked: Checked)

  /** What a call gives: a header, `undefined`, or a thrown error. */
  type Verdict = Result<Option<Header>, Error>

  const UNFINALIZED_THRESHOLD := 200

  function Last(blocks: seq<Header>): Header
    requires |blocks| > 0
  {
    blocks[|blocks| - 1]
  }

  function Closest(blocks: seq<Header>, height: nat): Option<Header> {
    if |blocks| == 0 then None
    else if Last(blocks).blockHeight <= height then Some(Last(blocks))
    else Closest(blocks[..|blocks| - 1], height)
  }

  function AtMost(blocks: seq<Header>, height: nat): seq<Header> {
    if |blocks| == 0 then []
    else AtMost(blocks[..|blocks| - 1], height) + if Last(blocks).blockHeight <= height then [Last(blocks)] else []
  }

  function Above(blocks: seq<Header>, height: nat): seq<Header> {
    if |blocks| == 0 then []
    else Above(blocks[..|blocks| - 1], height) + if Last(blocks).blockHeight > height then [Last(blocks)] else []
  }

  // ----- registering a header -----

  /** Read the slots lo..hi one by one and append the blocks found, until one
      does not name the last entry as its parent. */
  function Backfill(v: View, blocks: seq<Header>, lo: int, hi: int): (seq<Header>, Verdict)
    decreases hi - lo
  {
    if lo > hi then (blocks, Success(None))
    else
      match Lookup(v, lo)
      case Failed => (blocks, Failure(RpcFailure))
      case Unavailable => Backfill(v, blocks, lo + 1, hi)
      case Found(h) =>
        if |blocks| > 0 && h.parentHash != Last(blocks).blockHash then (blocks, Success(Some(h)))
        else Backfill(v, blocks + [h], lo + 1, hi)
  }

  function PushAndSave(s: State, header: Header): State {
    s.(blocks := s.blocks + [header], savedBlocks := Some(s.blocks + [header]))
  }

  function Register(v: View, s: State, header: Header): (State, Verdict) {
    if header.blockHeight <= s.finalized.blockHeight then (s, Success(None))
    else if |s.blocks| == 0 then (PushAndSave(s, header), Success(None))
    else if Last(s.blocks).blockHeight >= header.blockHeight then (s, Failure(NotSequential))
    else
      var (blocks, r) := Backfill(v, s.blocks, Last(s.blocks).blockHeight + 1, header.blockHeight - 1);
      var s1 := s.(blocks := blocks);
      if r != Success(None) then (s1, r)
      else if |blocks| > 0 && header.parentHash != Last(blocks).blockHash then (s1, Success(Some(header)))
      else (PushAndSave(s1, header), Success(None))
  }

  // ----- looking for a fork -----

  /** Follow the chain back from `header`, one produced block at a time, until
      the height is `target`. */
  function Walk(v: View, header: Header, target: nat): Result<Header, Error>
    decreases header.blockHeight
  {
    if header.blockHeight == target then Success(header)
    else if header.parentHash == "" then Failure(MissingParentHash)
    else
      match ParentByHeight(v, header.blockHeight - 1)
      case Failure(e) => Failure(e)
      case Success(p) => Walk(v, p, target)
  }

  /** The header of the finalized chain at `target`, by one lookup for a large
      gap and by walking back otherwise. */
  function ChainHeader(v: View, finalized: Header, target: nat): Result<Header, Error> {
    if finalized.blockHeight - target > UNFINALIZED_THRESHOLD then Direct(v, target)
    else Walk(v, finalized, target)
  }

  function HasForked(v: View, finalized: Header, blocks: seq<Header>): Verdict {
    match Closest(blocks, finalized.blockHeight)
    case None => Success(None)
    case Some(rec) =>
      if rec.blockHeight == finalized.blockHeight then
        Success(if rec.blockHash != finalized.blockHash then Some(finalized) else None)
      else
        match ChainHeader(v, finalized, rec.blockHeight)
        case Failure(e) => Failure(e)
        case Success(h) => Success(if h.blockHash != rec.blockHash then Some(h) else None)
  }

  // ----- after the check -----

  /** `lastChecked !== undefined && lastChecked < n`; null compares as zero. */
  predicate Prunes(c: Checked, n: nat) {
    match c
    case Undefined => false
    case Null => 0 < n
    case At(h) => h < n
  }

  function DeleteFinalized(s: State): State {
    var n := s.finalized.blockHeight;
    var s1 := if Prunes(s.lastChecked, n)
              then s.(blocks := Above(s.blocks, n), savedChecked := At(n), savedBlocks := Some(Above(s.blocks, n)))
              else s;
    s1.(lastChecked := At(n))
  }

  /** Step down the stored entries and the chain together until an entry is the
      chain's block or its parent. */
  function Search(v: View, best: seq<Header>, checking: Header): Verdict {
    if |best| == 0 then Success(None)
    else if Last(best).blockHash == checking.blockHash || Last(best).blockHash == checking.parentHash then
      Success(Some(Last(best)))
    else if checking.parentHash == "" then Failure(MissingParentHash)
    else
      match ParentByHeight(v, checking.blockHeight - 1)
      case Failure(e) => Failure(e)
      case Success(p) => Search(v, best[..|best| - 1], p)
  }

  /** `!lastChecked` also holds of null and of height zero. */
  predicate Falsy(c: Checked) {
    !c.At? || c.height == 0
  }

  /** The header at the last checked height, if there is a usable one. */
  function Fallback(v: View, checked: Checked): Verdict {
    if Falsy(checked) then Success(None)
    else
      match Direct(v, checked.height)
      case Failure(e) => Failure(e)
      case Success(h) => Success(Some(h))
  }

  function LastCorrect(v: View, s: State, forked: Header): Verdict {
    var found := Search(v, AtMost(s.blocks, s.finalized.blockHeight), forked);
    if found == Success(None) then Fallback(v, s.lastChecked) else found
  }

  // ----- the operations -----

  /** The state after registering, and the forked header if one is found. */
  function Detect(v: View, s: State, header: Option<Header>): (State, Verdict) {
    var (s1, r) := if header.Some? then Register(v, s, header.value) else (s, Success(None));
    if r == Success(None) then (s1, HasForked(v, s1.finalized, s1.blocks)) else (s1, r)
  }

  function Process(v: View, s: State, header: Option<Header>): (State, Verdict) {
    var (s1, r) := Detect(v, s, header);
    match r
    case Failure(e) => (s1, Failure(e))
    case Success(None) => (DeleteFinalized(s1), Success(None))
    case Success(Some(f)) => (s1, LastCorrect(v, s1, f))
  }

  /** The headers a call drops from the list because they are finalized. */
  function Pruned(v: View, s: State, header: Option<Header>): seq<Header> {
    var (s1, r) := Detect(v, s, header);
    if r == Success(None) && Prunes(s1.lastChecked, s1.finalized.blockHeight)
    then AtMost(s1.blocks, s1.finalized.blockHeight)
    else []
  }

  function RegisterFinalized(s: State, header: Header): State {
    if s.finalized.blockHeight >= header.blockHeight then s else s.(finalized := header)
  }

  function ResetBlocks(s: State): State {
    s.(blocks := [], savedBlocks := Some([]))
  }

  function ResetChecked(s: State): State {
    s.(savedChecked := Null)
  }

  function Load(s: State): State {
    s.(blocks := if s.savedBlocks.Some? then s.savedBlocks.value else [], lastChecked := s.savedChecked)
  }

  /** Start-up: load the saved list and height, then check the list against the
      chain.  A reindex resets the list, like the branch without a rewind. */
  function Init(v: View, finalizedSlot: nat, s: State): (State, Verdict) {
    var s0 := Load(s);
    match Direct(v, finalizedSlot)
    case Failure(e) => (s0, Failure(e))
    case Success(h) =>
      var s1 := s0.(finalized := h);
      if |s1.blocks| == 0 then (s1, Success(None))
      else
        var (s2, r) := Process(v, s1, None);
        if r.Failure? then (s2, r) else (ResetChecked(ResetBlocks(s2)), r)
  }
}
