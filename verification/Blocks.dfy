/** Blocks as handlers see them: instructions numbered by their path in the
    transaction, logs attributed to programs. */
module Blocks {
  import opened Wrappers
  import opened ProgramLogs

  datatype RawInner<T> = RawInner(index: nat, instructions: seq<T>)

  datatype RawMeta<T> = RawMeta(
    innerInstructions: Option<seq<RawInner<T>>>,
    logMessages: Option<seq<string>>,
    dictionaryLogs: Option<seq<Message>>)

  datatype RawTransaction<T> = RawTransaction(instructions: seq<T>, meta: Option<RawMeta<T>>)

  datatype Instruction<T> = Instruction(index: seq<nat>, raw: T)

  datatype Inner<T> = Inner(index: nat, instructions: seq<Instruction<T>>)

  datatype Meta<T> = Meta(innerInstructions: seq<Inner<T>>, logs: Option<seq<Message>>)

  datatype Transaction<T> = Transaction(instructions: seq<Instruction<T>>, meta: Option<Meta<T>>)

  function WrapInner<T>(raw: RawInner<T>): (r: Inner<T>)
    ensures |r.instructions| == |raw.instructions|
    ensures forall k :: 0 <= k < |r.instructions| ==> r.instructions[k].index == [raw.index, k]
  {
    Inner(raw.index, seq(|raw.instructions|, k requires 0 <= k < |raw.instructions| =>
                         Instruction([raw.index, k], raw.instructions[k])))
  }

  function WrapAllInner<T>(raws: seq<RawInner<T>>): seq<Inner<T>> {
    seq(|raws|, i requires 0 <= i < |raws| => WrapInner(raws[i]))
  }

  function WrapOuter<T>(raws: seq<T>): seq<Instruction<T>> {
    seq(|raws|, i requires 0 <= i < |raws| => Instruction([i], raws[i]))
  }

  /** Logs of a dictionary block are attributed already. */
  function LogsOf<T>(meta: RawMeta<T>): Result<Option<seq<Message>>, LogError> {
    if meta.dictionaryLogs.Some? then Success(meta.dictionaryLogs)
    else if meta.logMessages.None? then Success(None)
    else
      match Scan(meta.logMessages.value, 0, START)
      case Failure(e) => Failure(e)
      case Success(m) => Success(Some(m.out))
  }

  function TransformTransaction<T>(raw: RawTransaction<T>): Result<Transaction<T>, LogError> {
    var instructions := WrapOuter(raw.instructions);
    match raw.meta
    case None => Success(Transaction(instructions, None))
    case Some(meta) =>
      match LogsOf(meta)
      case Failure(e) => Failure(e)
      case Success(logs) =>
        var inner := if meta.innerInstructions.Some? then meta.innerInstructions.value else [];
        Success(Transaction(instructions, Some(Meta(WrapAllInner(inner), logs))))
  }

  function TransformBlock<T>(raws: seq<RawTransaction<T>>): Result<seq<Transaction<T>>, LogError> {
    if |raws| == 0 then Success([])
    else
      match TransformTransaction(raws[0])
      case Failure(e) => Failure(e)
      case Success(tx) =>
        match TransformBlock(raws[1..])
        case Failure(e) => Failure(e)
        case Success(rest) => Success([tx] + rest)
  }

  function InnerOf<T>(tx: Transaction<T>): seq<Inner<T>> {
    if tx.meta.Some? then tx.meta.value.innerInstructions else []
  }

  function Logs<T>(tx: Transaction<T>): seq<Message> {
    if tx.meta.Some? && tx.meta.value.logs.Some? then tx.meta.value.logs.value else []
  }
}
