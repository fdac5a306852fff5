/** Looking for the last proof-of-index row that still agrees with the chain,
    page by page. */
module PoiSearch {
  import opened Wrappers
  import opened Chain
  import opened UnfinalizedBlocks

  datatype ProofOfIndex = ProofOfIndex(id: nat, chainBlockHash: seq<bv8>)

  datatype PoiError = NotEnabled | NoneMatching | Lookup(error: Error)

  ghost predicate Descending(rows: seq<ProofOfIndex>) {
    forall i, j :: 0 <= i < j < |rows| ==> rows[i].id > rows[j].id
  }

  function UpTo(rows: seq<ProofOfIndex>, height: int): seq<ProofOfIndex> {
    if |rows| == 0 then []
    else if rows[0].id <= height then rows
    else UpTo(rows[1..], height)
  }

  /** The first k rows are those above the height. */
  ghost predicate CutAt(rows: seq<ProofOfIndex>, height: int, k: int) {
    0 <= k <= |rows| && forall i :: 0 <= i < |rows| ==> (i < k <==> rows[i].id > height)
  }

  lemma {:induction false} UpToCut(rows: seq<ProofOfIndex>, height: int, k: nat)
    requires CutAt(rows, height, k)
    ensures UpTo(rows, height) == rows[k..]
  {
    if k > 0 {
      assert rows[1..][k - 1..] == rows[k..];
      UpToCut(rows[1..], height, k - 1);
    }
  }

  /** On descending rows this is the filter `id <= height`. */
  lemma {:induction false} UpToExact(rows: seq<ProofOfIndex>, height: int) returns (k: nat)
    requires Descending(rows)
    ensures CutAt(rows, height, k) && UpTo(rows, height) == rows[k..]
  {
    k := 0;
    while k < |rows| && rows[k].id > height
      invariant k <= |rows|
      invariant forall i :: 0 <= i < k ==> rows[i].id > height
    {
      k := k + 1;
    }
    UpToCut(rows, height, k);
  }

  /** The rows, newest first, and the page size of the store. */
  class PoiModel {
    const rows: seq<ProofOfIndex>
    const pageSize: nat

    constructor (rows: seq<ProofOfIndex>, pageSize: nat)
      ensures this.rows == rows && this.pageSize == pageSize
    {
      this.rows, this.pageSize := rows, pageSize;
    }

    method GetPoiBlocksBefore(height: int) returns (page: seq<ProofOfIndex>)
      ensures var all := UpTo(rows, height);
              page == all[..if |all| < pageSize then |all| else pageSize]
    {
      var all := UpTo(rows, height);
      page := all[..if |all| < pageSize then |all| else pageSize];
    }
  }

  /** The search without pages: the first row, newest first, whose hash is that
      of the chain's block at its height. */
  function Scan(v: View, encode: string -> seq<bv8>, rows: seq<ProofOfIndex>): Result<Option<Header>, Error> {
    if |rows| == 0 then Success(None)
    else
      match Direct(v, rows[0].id)
      case Failure(e) => Failure(e)
      case Success(h) =>
        if encode(h.blockHash) == rows[0].chainBlockHash then Success(Some(h))
        else Scan(v, encode, rows[1..])
  }

  predicate Matches(v: View, encode: string -> seq<bv8>, row: ProofOfIndex) {
    Direct(v, row.id).Success? && encode(Direct(v, row.id).value.blockHash) == row.chainBlockHash
  }

  /** Row i matches, and all newer rows can be looked up and do not. */
  ghost predicate FirstMatch(v: View, encode: string -> seq<bv8>, rows: seq<ProofOfIndex>, i: int) {
    && 0 <= i < |rows|
    && Matches(v, encode, rows[i])
    && NoneMatch(v, encode, rows[..i])
  }

  ghost predicate NoneMatch(v: View, encode: string -> seq<bv8>, rows: seq<ProofOfIndex>) {
    forall k :: 0 <= k < |rows| ==> Direct(v, rows[k].id).Success? && !Matches(v, encode, rows[k])
  }

  /** A header is found exactly when some row matches and no newer row matches or
      cannot be looked up; it is the chain's header at that row's height.  Nothing
      is found exactly when every row can be looked up and none matches. */
  lemma {:induction false} ScanExact(v: View, encode: string -> seq<bv8>, rows: seq<ProofOfIndex>, h: Header)
    ensures Scan(v, encode, rows) == Success(Some(h)) <==>
            exists i :: FirstMatch(v, encode, rows, i) && Direct(v, rows[i].id) == Success(h)
    ensures Scan(v, encode, rows) == Success(None) <==> NoneMatch(v, encode, rows)
  {
    if |rows| > 0 {
      var rest := rows[1..];
      if Direct(v, rows[0].id).Success? && !Matches(v, encode, rows[0]) {
        ScanExact(v, encode, rest, h);
        LaterMatches(v, encode, rows, h);
      } else if Matches(v, encode, rows[0]) {
        assert FirstMatch(v, encode, rows, 0);
        OnlyFirst(v, encode, rows);
      } else {
        OnlyFirst(v, encode, rows);
      }
    }
  }

  lemma OnlyFirst(v: View, encode: string -> seq<bv8>, rows: seq<ProofOfIndex>)
    requires |rows| > 0 && (Direct(v, rows[0].id).Failure? || Matches(v, encode, rows[0]))
    ensures forall i :: FirstMatch(v, encode, rows, i) ==> i == 0
    ensures !NoneMatch(v, encode, rows)
  {
    forall i | 0 < i < |rows| ensures !FirstMatch(v, encode, rows, i) {
      assert rows[..i][0] == rows[0];
    }
  }

  lemma LaterMatches(v: View, encode: string -> seq<bv8>, rows: seq<ProofOfIndex>, h: Header)
    requires |rows| > 0 && Direct(v, rows[0].id).Success? && !Matches(v, encode, rows[0])
    ensures (exists i :: FirstMatch(v, encode, rows, i) && Direct(v, rows[i].id) == Success(h)) <==>
            exists i :: FirstMatch(v, encode, rows[1..], i) && Direct(v, rows[1..][i].id) == Success(h)
    ensures NoneMatch(v, encode, rows) <==> NoneMatch(v, encode, rows[1..])
  {
    var rest := rows[1..];
    assert rows == [rows[0]] + rest;
    NoneMatchCons(v, encode, rows[0], rest);
    forall i | 0 <= i < |rest|
      ensures FirstMatch(v, encode, rows, i + 1) <==> FirstMatch(v, encode, rest, i)
      ensures rows[i + 1] == rest[i]
    {
      assert rows[..i + 1] == [rows[0]] + rest[..i];
      NoneMatchCons(v, encode, rows[0], rest[..i]);
    }
    if i :| FirstMatch(v, encode, rows, i) && Direct(v, rows[i].id) == Success(h) {
      assert FirstMatch(v, encode, rest, i - 1);
    }
    if i :| FirstMatch(v, encode, rest, i) && Direct(v, rest[i].id) == Success(h) {
      assert FirstMatch(v, encode, rows, i + 1);
    }
  }

  lemma NoneMatchCons(v: View, encode: string -> seq<bv8>, row: ProofOfIndex, rest: seq<ProofOfIndex>)
    requires Direct(v, row.id).Success? && !Matches(v, encode, row)
    ensures NoneMatch(v, encode, [row] + rest) <==> NoneMatch(v, encode, rest)
  {
    assert forall k :: 0 <= k < |rest| ==> ([row] + rest)[k + 1] == rest[k];
  }

  lemma {:induction false} ScanAppend(v: View, encode: string -> seq<bv8>, a: seq<ProofOfIndex>, b: seq<ProofOfIndex>)
    ensures Scan(v, encode, a + b) ==
            if Scan(v, encode, a) == Success(None) then Scan(v, encode, b) else Scan(v, encode, a)
  {
    if |a| == 0 {
      assert a + b == b;
    } else {
      assert (a + b)[1..] == a[1..] + b;
      ScanAppend(v, encode, a[1..], b);
    }
  }

  /** What is left after a page is what lies below its last row. */
  lemma {:induction false} PageSplits(rows: seq<ProofOfIndex>, height: int, n: nat)
    requires Descending(rows) && 0 < n <= |UpTo(rows, height)|
    ensures var all := UpTo(rows, height);
            all[n - 1].id <= height && all == all[..n] + UpTo(rows, all[n - 1].id - 1)
  {
    var all := UpTo(rows, height);
    var k := UpToExact(rows, height);
    assert all[n - 1] == rows[k + n - 1];
    UpToCut(rows, all[n - 1].id as int - 1, k + n);
    assert all[n..] == rows[k + n..];
  }

  /** The loop over one page. */
  method SearchPage(chain: Endpoint, encode: string -> seq<bv8>, page: seq<ProofOfIndex>)
    returns (r: Result<Option<Header>, Error>)
    modifies chain`probes
    ensures r == Scan(chain.view, encode, page)
  {
    for i := 0 to |page|
      invariant Scan(chain.view, encode, page[i..]) == Scan(chain.view, encode, page)
    {
      assert page[i..][1..] == page[i + 1..];
      var reply := chain.GetHeaderForHeight(page[i].id);
      var chainHeader := Thrown(reply);
      if chainHeader.Failure? {
        return Failure(chainHeader.error);
      }
      if encode(chainHeader.value.blockHash) == page[i].chainBlockHash {
        return Success(Some(chainHeader.value));
      }
    }
    return Success(None);
  }

  /** For every table and page size the paged search gives what the scan of all
      rows at or below the given height gives. */
  method FindFinalizedUsingPoi(poiModel: PoiModel?, chain: Endpoint, encode: string -> seq<bv8>, header: Header)
    returns (r: Result<Header, PoiError>)
    requires poiModel != null ==> Descending(poiModel.rows) && poiModel.pageSize > 0
    modifies chain`probes
    ensures poiModel == null ==> r == Failure(NotEnabled)
    ensures poiModel != null ==>
              r == match Scan(chain.view, encode, UpTo(poiModel.rows, header.blockHeight))
                   case Failure(e) => Failure(PoiError.Lookup(e))
                   case Success(None) => Failure(NoneMatching)
                   case Success(Some(h)) => Success(h)
  {
    if poiModel == null {
      return Failure(NotEnabled);
    }
    var lastHeight: int := header.blockHeight;
    while true
      invariant -1 <= lastHeight
      invariant Scan(chain.view, encode, UpTo(poiModel.rows, lastHeight))
             == Scan(chain.view, encode, UpTo(poiModel.rows, header.blockHeight))
      decreases lastHeight
    {
      var indexedBlocks := poiModel.GetPoiBlocksBefore(lastHeight);
      if |indexedBlocks| == 0 {
        break;
      }
      ghost var rest := UpTo(poiModel.rows, indexedBlocks[|indexedBlocks| - 1].id - 1);
      PageSplits(poiModel.rows, lastHeight, |indexedBlocks|);
      ScanAppend(chain.view, encode, indexedBlocks, rest);
      var found := SearchPage(chain, encode, indexedBlocks);
      match found {
        case Failure(e) => return Failure(PoiError.Lookup(e));
        case Success(Some(h)) => return Success(h);
        case Success(None) =>
      }
      lastHeight := indexedBlocks[|indexedBlocks| - 1].id - 1;
    }
    return Failure(NoneMatching);
  }
}
