/** The handler filters as the indexer applies them locally. */
module Filters {
  import opened Wrappers
  import opened Bytes

  datatype Meta = Meta(failed: bool, writable: seq<string>, readonly: seq<string>)

  /** Signature i belongs to account key i, so only their number matters. */
  datatype Transaction = Transaction(accountKeys: seq<string>, signatures: nat, meta: Option<Meta>)

  datatype Instruction = Instruction(programIdIndex: nat, accounts: seq<nat>, data: seq<Byte>, tx: Transaction)

  datatype LogMessage = LogMessage(programId: Option<string>)

  datatype TransactionFilter = TransactionFilter(signerAccountKey: Option<string>)

  datatype InstructionFilter = InstructionFilter(
    programId: Option<string>,
    discriminator: Option<string>,
    accounts: Option<seq<Option<seq<string>>>>,
    includeFailed: Option<bool>)

  datatype LogFilter = LogFilter(programId: Option<string>)

  /** `parseDiscriminator`: the bytes of a hex, base58 or instruction name, for a
      program; it may throw. */
  type Parser = (string, Option<string>) -> Result<seq<Byte>, string>

  /** A defined, non-empty string. */
  predicate Truthy(s: Option<string>) {
    s.Some? && s.value != ""
  }

  /** Reading past the end of an array gives undefined. */
  function At<T>(xs: seq<T>, i: nat): Option<T> {
    if i < |xs| then Some(xs[i]) else None
  }

  function AllAccounts(tx: Transaction): seq<string> {
    tx.accountKeys + if tx.meta.Some? then tx.meta.value.writable + tx.meta.value.readonly else []
  }

  function ProgramId(inst: Instruction): Option<string> {
    At(AllAccounts(inst.tx), inst.programIdIndex)
  }

  predicate Failed(tx: Transaction) {
    tx.meta.Some? && tx.meta.value.failed
  }

  function Signers(tx: Transaction): seq<string> {
    tx.accountKeys[..if tx.signatures < |tx.accountKeys| then tx.signatures else |tx.accountKeys|]
  }

  predicate TransactionAccepted(tx: Transaction, filter: Option<TransactionFilter>) {
    filter.Some? && Truthy(filter.value.signerAccountKey) ==>
      exists i :: 0 <= i < tx.signatures && At(tx.accountKeys, i) == filter.value.signerAccountKey
  }

  predicate LogAccepted(log: LogMessage, filter: Option<LogFilter>) {
    filter.Some? && Truthy(filter.value.programId) ==> filter.value.programId == log.programId
  }

  /** Position i of the filter accepts the account there; accounts are looked up
      in the message's own keys only. */
  predicate AccountAccepted(inst: Instruction, wanted: seq<Option<seq<string>>>, i: nat)
    requires i < |wanted|
  {
    wanted[i].None? ||
    (i < |inst.accounts| && inst.accounts[i] < |inst.tx.accountKeys| &&
     inst.tx.accountKeys[inst.accounts[i]] in wanted[i].value)
  }

  /** The answer of the instruction filter, or the error of the parser. */
  function InstructionVerdict(inst: Instruction, parse: Parser, filter: Option<InstructionFilter>): Result<bool, string> {
    if filter.None? then Success(true)
    else
      var f := filter.value;
      if !(f.includeFailed == Some(true)) && Failed(inst.tx) then Success(false)
      else if Truthy(f.programId) && f.programId != ProgramId(inst) then Success(false)
      else if f.accounts.Some? && exists i :: 0 <= i < |f.accounts.value| && !AccountAccepted(inst, f.accounts.value, i)
      then Success(false)
      else if Truthy(f.discriminator) then
        match parse(f.discriminator.value, ProgramId(inst))
        case Failure(e) => Failure(e)
        case Success(d) => Success(d <= inst.data)
      else Success(true)
  }

  method FilterInstructionsProcessor(inst: Instruction, parse: Parser, filter: Option<InstructionFilter>)
    returns (r: Result<bool, string>)
    ensures r == InstructionVerdict(inst, parse, filter)
  {
    if filter.None? {
      return Success(true);
    }
    var f := filter.value;
    if f.includeFailed != Some(true) {
      if Failed(inst.tx) {
        return Success(false);
      }
    }
    var programId := ProgramId(inst);
    if Truthy(f.programId) {
      if f.programId != programId {
        return Success(false);
      }
    }
    if f.accounts.Some? {
      var wanted := f.accounts.value;
      for i := 0 to |wanted|
        invariant forall k :: 0 <= k < i ==> AccountAccepted(inst, wanted, k)
      {
        if wanted[i].Some? {
          var account := if i < |inst.accounts| then At(inst.tx.accountKeys, inst.accounts[i]) else None;
          if account.None? || account.value !in wanted[i].value {
            assert !AccountAccepted(inst, wanted, i);
            return Success(false);
          }
        }
      }
    }
    if Truthy(f.discriminator) {
      var discriminator := parse(f.discriminator.value, programId);
      if discriminator.Failure? {
        return Failure(discriminator.error);
      }
      if !(discriminator.value <= inst.data) {
        return Success(false);
      }
    }
    return Success(true);
  }
}
