/** Compiling handler filters into one dictionary query, and what the query is
    worth compared with the filters themselves. */
module DictionaryBuilder {
  import opened Wrappers
  import opened Bytes
  import opened Filters
  import opened DictionaryQuery
  import opened Seqs

  datatype BlockFilter = BlockFilter(modulo: Option<int>)

  datatype Handler =
    | BlockHandler(blockFilter: Option<BlockFilter>)
    | TransactionHandler(txFilter: Option<TransactionFilter>)
    | InstructionHandler(instFilter: Option<InstructionFilter>)
    | LogHandler(logFilter: Option<LogFilter>)
    | CustomHandler(hasFilter: bool)

  /** The handler cannot be served by a query: no filter, or every block. */
  predicate NeedsEverything(h: Handler) {
    match h
    case BlockHandler(f) => f.None? || f.value.modulo.None?
    case TransactionHandler(f) => f.None?
    case InstructionHandler(f) => f.None?
    case LogHandler(f) => f.None?
    case CustomHandler(has) => !has
  }

  predicate HasField(h: Handler) {
    match h
    case TransactionHandler(Some(f)) => f.signerAccountKey.Some?
    case InstructionHandler(Some(f)) =>
      f.programId.Some? || f.discriminator.Some? || f.accounts.Some? || f.includeFailed.Some?
    case LogHandler(Some(f)) => f.programId.Some?
    case _ => false
  }

  /** Some handler cannot be served by a query, or none asks for anything. */
  predicate AsksForEverything(hs: seq<Handler>) {
    (exists h :: h in hs && NeedsEverything(h)) || forall h :: h in hs ==> !HasField(h)
  }

  function TxConditionOf(f: TransactionFilter): TxCondition {
    TxCondition(if Truthy(f.signerAccountKey) then Some([f.signerAccountKey.value]) else None)
  }

  function LogConditionOf(f: LogFilter): LogCondition {
    LogCondition(if Truthy(f.programId) then Some([f.programId.value]) else None)
  }

  function InstructionConditionOf(parse: Parser, f: InstructionFilter): Result<InstructionCondition, string> {
    var programIds := if Truthy(f.programId) then Some([f.programId.value]) else None;
    var isCommitted := if f.includeFailed == Some(true) then None else Some(true);
    if Truthy(f.discriminator) then
      if !Truthy(f.programId) then Failure("programId is required to be set when a discriminator is provided")
      else
        match parse(f.discriminator.value, f.programId)
        case Failure(e) => Failure(e)
        case Success(d) => Success(InstructionCondition(programIds, f.accounts, Some(["0x" + Hex(d)]), isCommitted))
    else Success(InstructionCondition(programIds, f.accounts, None, isCommitted))
  }

  // ----- building -----

  /** The entries of a section; a missing section has none. */
  function Entries<T>(section: Option<seq<T>>): seq<T> {
    if section.Some? then section.value else []
  }

  function Clean<T>(section: Option<seq<T>>, key: T -> string): Option<seq<T>> {
    if |Entries(section)| == 0 then None else Some(UniqBy(section.value, key))
  }

  function Sanitised(q: Query): Query {
    Query(Clean(q.logs, LogKey), Clean(q.instructions, InstructionKey), Clean(q.transactions, TxKey))
  }

  function Extend(parse: Parser, q: Query, h: Handler): Result<Query, string> {
    if !HasField(h) then Success(q)
    else
      match h
      case TransactionHandler(Some(f)) =>
        Success(q.(transactions := Some(Entries(q.transactions) + [TxConditionOf(f)])))
      case LogHandler(Some(f)) =>
        Success(q.(logs := Some(Entries(q.logs) + [LogConditionOf(f)])))
      case InstructionHandler(Some(f)) =>
        (match InstructionConditionOf(parse, f)
         case Failure(e) => Failure(e)
         case Success(c) => Success(q.(instructions := Some(Entries(q.instructions) + [c]))))
      case _ => Success(q)
  }

  function BuildFrom(parse: Parser, hs: seq<Handler>, q: Query): Result<Query, string> {
    if |hs| == 0 then Success(Sanitised(q))
    else if NeedsEverything(hs[0]) then Success(EVERYTHING)
    else
      match Extend(parse, q, hs[0])
      case Failure(e) => Failure(e)
      case Success(q') => BuildFrom(parse, hs[1..], q')
  }

  const START := Query(Some([]), None, Some([]))

  /** The handlers of all datasources, in order. */
  function Flatten(dss: seq<seq<Handler>>): seq<Handler> {
    if |dss| == 0 then [] else dss[0] + Flatten(dss[1..])
  }

  method SanitiseDictionaryConditions(q: Query) returns (r: Query)
    ensures r == Sanitised(q)
  {
    r := q;
    r := r.(logs := if |Entries(r.logs)| == 0 then None else Some(UniqBy(r.logs.value, LogKey)));
    r := r.(instructions := if |Entries(r.instructions)| == 0 then None
                            else Some(UniqBy(r.instructions.value, InstructionKey)));
    r := r.(transactions := if |Entries(r.transactions)| == 0 then None
                            else Some(UniqBy(r.transactions.value, TxKey)));
  }

  method AddCondition(parse: Parser, q: Query, handler: Handler) returns (r: Result<Query, string>)
    ensures r == Extend(parse, q, handler)
  {
    if !HasField(handler) {
      return Success(q);
    }
    match handler {
      case TransactionHandler(Some(f)) =>
        return Success(q.(transactions := Some(Entries(q.transactions) + [TxConditionOf(f)])));
      case InstructionHandler(Some(f)) =>
        var c := InstructionConditionOf(parse, f);
        if c.Failure? {
          return Failure(c.error);
        }
        return Success(q.(instructions := Some(Entries(q.instructions) + [c.value])));
      case LogHandler(Some(f)) =>
        return Success(q.(logs := Some(Entries(q.logs) + [LogConditionOf(f)])));
      case _ =>
        return Success(q);
    }
  }

  method BuildDictionaryV2QueryEntry(parse: Parser, dataSources: seq<seq<Handler>>)
    returns (r: Result<Query, string>)
    ensures r == BuildFrom(parse, Flatten(dataSources), START)
  {
    var conditions := START;
    ghost var all := Flatten(dataSources);
    assert dataSources[0..] == dataSources;
    for i := 0 to |dataSources|
      invariant BuildFrom(parse, Flatten(dataSources[i..]), conditions) == BuildFrom(parse, all, START)
    {
      var handlers := dataSources[i];
      ghost var rest := Flatten(dataSources[i + 1..]);
      FlattenStep(dataSources, i);
      for k := 0 to |handlers|
        invariant BuildFrom(parse, handlers[k..] + rest, conditions) == BuildFrom(parse, all, START)
      {
        var handler := handlers[k];
        assert (handlers[k..] + rest)[0] == handler;
        assert (handlers[k..] + rest)[1..] == handlers[k + 1..] + rest;
        if NeedsEverything(handler) {
          return Success(EVERYTHING);
        }
        var extended := AddCondition(parse, conditions, handler);
        if extended.Failure? {
          return Failure(extended.error);
        }
        conditions := extended.value;
      }
      assert handlers[|handlers|..] + rest == rest;
    }
    assert Flatten(dataSources[|dataSources|..]) == [];
    var sanitised := SanitiseDictionaryConditions(conditions);
    return Success(sanitised);
  }

  lemma FlattenStep(dss: seq<seq<Handler>>, i: nat)
    requires i < |dss|
    ensures Flatten(dss[i..]) == dss[i][0..] + Flatten(dss[i + 1..])
  {
    assert dss[i..][1..] == dss[i + 1..] && dss[i][0..] == dss[i];
  }

  // ----- one condition against its filter -----

  lemma {:induction false} TxConditionExact(f: TransactionFilter, tx: Transaction)
    ensures TxMatches(TxConditionOf(f), tx) <==> TransactionAccepted(tx, Some(f))
  {
    if Truthy(f.signerAccountKey) {
      var key := f.signerAccountKey.value;
      if i :| 0 <= i < tx.signatures && At(tx.accountKeys, i) == Some(key) {
        assert Signers(tx)[i] == key && key in [key];
      }
      if TxMatches(TxConditionOf(f), tx) {
        var i :| 0 <= i < |Signers(tx)| && Signers(tx)[i] == key;
        assert At(tx.accountKeys, i) == Some(key);
      }
    }
  }

  lemma LogConditionExact(f: LogFilter, log: LogMessage)
    ensures LogMatches(LogConditionOf(f), log) <==> LogAccepted(log, Some(f))
  {
  }

  /** Every account position the filter constrains refers to the message's own
      keys and not to one loaded from a lookup table. */
  predicate StaticAccounts(f: InstructionFilter, inst: Instruction) {
    f.accounts.Some? ==>
      forall i :: 0 <= i < |f.accounts.value| && f.accounts.value[i].Some? && i < |inst.accounts| ==>
        inst.accounts[i] < |inst.tx.accountKeys|
  }

  lemma {:induction false} AccountsExact(f: InstructionFilter, inst: Instruction, i: nat)
    requires f.accounts.Some? && i < |f.accounts.value|
    ensures AccountAccepted(inst, f.accounts.value, i) ==> AnyOf(f.accounts.value[i], AccountAt(inst, i))
    ensures AnyOf(f.accounts.value[i], AccountAt(inst, i)) ==>
              (AccountAccepted(inst, f.accounts.value, i) <==>
               f.accounts.value[i].Some? ==> inst.accounts[i] < |inst.tx.accountKeys|)
  {
    if i < |inst.accounts| && inst.accounts[i] < |inst.tx.accountKeys| {
      assert AllAccounts(inst.tx)[inst.accounts[i]] == inst.tx.accountKeys[inst.accounts[i]];
    }
  }

  /** A condition matches every instruction its filter accepts; of those it
      matches, the filter accepts exactly the ones whose constrained accounts are
      not loaded from a lookup table. */
  lemma {:induction false} InstructionConditionExact(parse: Parser, f: InstructionFilter, c: InstructionCondition,
                                                     inst: Instruction)
    requires InstructionConditionOf(parse, f) == Success(c)
    ensures InstructionVerdict(inst, parse, Some(f)) == Success(true) ==> InstructionMatches(c, inst)
    ensures InstructionMatches(c, inst) ==>
              (InstructionVerdict(inst, parse, Some(f)) == Success(true) <==> StaticAccounts(f, inst))
  {
    if f.accounts.Some? {
      forall i | 0 <= i < |f.accounts.value|
        ensures AccountAccepted(inst, f.accounts.value, i) ==> AnyOf(f.accounts.value[i], AccountAt(inst, i))
        ensures AnyOf(f.accounts.value[i], AccountAt(inst, i)) ==>
                  (AccountAccepted(inst, f.accounts.value, i) <==>
                   f.accounts.value[i].Some? ==> inst.accounts[i] < |inst.tx.accountKeys|)
      {
        AccountsExact(f, inst, i);
      }
    }
    if Truthy(f.discriminator) {
      var d := parse(f.discriminator.value, f.programId).value;
      DiscriminatorText(d, inst);
      assert c.discriminators.value == ["0x" + Hex(d)];
      assert ("0x" + Hex(d)) in c.discriminators.value;
    }
  }

  lemma DiscriminatorText(d: seq<Byte>, inst: Instruction)
    ensures "0x" + Hex(d) <= DataText(inst) <==> d <= inst.data
  {
    HexPrefix(d, inst.data);
    var s, t := "0x" + Hex(d), DataText(inst);
    assert s[2..] == Hex(d) && t[2..] == Hex(inst.data);
    assert s[..2] == "0x" == t[..2];
    if Hex(d) <= Hex(inst.data) {
      assert t[..|s|] == s;
    }
  }

  // ----- the whole query -----

  function TxOf(h: Handler): seq<TxCondition> {
    match h
    case TransactionHandler(Some(f)) => if HasField(h) then [TxConditionOf(f)] else []
    case _ => []
  }

  function LogOf(h: Handler): seq<LogCondition> {
    match h
    case LogHandler(Some(f)) => if HasField(h) then [LogConditionOf(f)] else []
    case _ => []
  }

  function InstructionOf(parse: Parser, h: Handler): seq<InstructionCondition> {
    match h
    case InstructionHandler(Some(f)) =>
      var c := InstructionConditionOf(parse, f);
      if HasField(h) && c.Success? then [c.value] else []
    case _ => []
  }

  function TxConditions(hs: seq<Handler>): seq<TxCondition> {
    if |hs| == 0 then [] else TxOf(hs[0]) + TxConditions(hs[1..])
  }

  function LogConditions(hs: seq<Handler>): seq<LogCondition> {
    if |hs| == 0 then [] else LogOf(hs[0]) + LogConditions(hs[1..])
  }

  function InstructionConditions(parse: Parser, hs: seq<Handler>): seq<InstructionCondition> {
    if |hs| == 0 then [] else InstructionOf(parse, hs[0]) + InstructionConditions(parse, hs[1..])
  }

  lemma {:induction false} TxConditionsExact(hs: seq<Handler>)
    ensures forall c :: c in TxConditions(hs) <==>
              exists f :: TransactionHandler(Some(f)) in hs && f.signerAccountKey.Some? && c == TxConditionOf(f)
  {
    if |hs| > 0 {
      TxConditionsExact(hs[1..]);
      assert hs == [hs[0]] + hs[1..];
    }
  }

  lemma {:induction false} LogConditionsExact(hs: seq<Handler>)
    ensures forall c :: c in LogConditions(hs) <==>
              exists f :: LogHandler(Some(f)) in hs && f.programId.Some? && c == LogConditionOf(f)
  {
    if |hs| > 0 {
      LogConditionsExact(hs[1..]);
      assert hs == [hs[0]] + hs[1..];
    }
  }

  lemma {:induction false} InstructionConditionsExact(parse: Parser, hs: seq<Handler>)
    ensures forall c :: c in InstructionConditions(parse, hs) <==>
              exists f :: InstructionHandler(Some(f)) in hs && HasField(InstructionHandler(Some(f)))
                          && InstructionConditionOf(parse, f) == Success(c)
  {
    if |hs| > 0 {
      InstructionConditionsExact(parse, hs[1..]);
      assert hs == [hs[0]] + hs[1..];
    }
  }

  lemma {:induction false} EarlyExit(parse: Parser, hs: seq<Handler>, q: Query, h: Handler)
    requires BuildFrom(parse, hs, q).Success? && h in hs && NeedsEverything(h)
    ensures BuildFrom(parse, hs, q) == Success(EVERYTHING)
  {
    if h != hs[0] && !NeedsEverything(hs[0]) {
      EarlyExit(parse, hs[1..], Extend(parse, q, hs[0]).value, h);
    }
  }

  /** Before cleaning, the sections hold the conditions of the handlers with a
      field, in order, after those that were there. */
  lemma {:induction false} BuildTotal(parse: Parser, hs: seq<Handler>, q: Query) returns (total: Query)
    requires BuildFrom(parse, hs, q).Success? && forall h :: h in hs ==> !NeedsEverything(h)
    ensures BuildFrom(parse, hs, q) == Success(Sanitised(total))
    ensures Entries(total.transactions) == Entries(q.transactions) + TxConditions(hs)
    ensures Entries(total.logs) == Entries(q.logs) + LogConditions(hs)
    ensures Entries(total.instructions) == Entries(q.instructions) + InstructionConditions(parse, hs)
  {
    if |hs| == 0 {
      total := q;
    } else {
      var rest := hs[1..];
      total := BuildTotal(parse, rest, Extend(parse, q, hs[0]).value);
      ExtendEntries(parse, q, hs[0]);
      Associative(Entries(q.transactions), TxOf(hs[0]), TxConditions(rest));
      Associative(Entries(q.logs), LogOf(hs[0]), LogConditions(rest));
      Associative(Entries(q.instructions), InstructionOf(parse, hs[0]), InstructionConditions(parse, rest));
    }
  }

  lemma ExtendEntries(parse: Parser, q: Query, h: Handler)
    requires Extend(parse, q, h).Success?
    ensures var r := Extend(parse, q, h).value;
            && Entries(r.transactions) == Entries(q.transactions) + TxOf(h)
            && Entries(r.logs) == Entries(q.logs) + LogOf(h)
            && Entries(r.instructions) == Entries(q.instructions) + InstructionOf(parse, h)
    ensures HasField(h) <==> TxOf(h) != [] || LogOf(h) != [] || InstructionOf(parse, h) != []
  {
  }

  lemma EmptyParts(parse: Parser, hs: seq<Handler>)
    requires |hs| > 0
    ensures TxConditions(hs) == [] <==> TxOf(hs[0]) == [] && TxConditions(hs[1..]) == []
    ensures LogConditions(hs) == [] <==> LogOf(hs[0]) == [] && LogConditions(hs[1..]) == []
    ensures InstructionConditions(parse, hs) == [] <==>
            InstructionOf(parse, hs[0]) == [] && InstructionConditions(parse, hs[1..]) == []
  {
  }

  lemma {:induction false} NoConditions(parse: Parser, hs: seq<Handler>, q: Query)
    requires BuildFrom(parse, hs, q).Success? && forall h :: h in hs ==> !NeedsEverything(h)
    ensures TxConditions(hs) == [] && LogConditions(hs) == [] && InstructionConditions(parse, hs) == [] <==>
            forall h :: h in hs ==> !HasField(h)
  {
    if |hs| > 0 {
      ExtendEntries(parse, q, hs[0]);
      NoConditions(parse, hs[1..], Extend(parse, q, hs[0]).value);
      EmptyParts(parse, hs);
      assert hs == [hs[0]] + hs[1..];
    }
  }

  /** A built query asks for everything exactly when the handlers do; otherwise its
      sections hold exactly the conditions of the handlers with a field. */
  lemma {:induction false} BuildExact(parse: Parser, hs: seq<Handler>, r: Query)
    requires BuildFrom(parse, hs, START) == Success(r)
    ensures r == EVERYTHING <==> AsksForEverything(hs)
    ensures !AsksForEverything(hs) ==>
              && (forall c :: c in Entries(r.transactions) <==> c in TxConditions(hs))
              && (forall c :: c in Entries(r.logs) <==> c in LogConditions(hs))
              && (forall c :: c in Entries(r.instructions) <==> c in InstructionConditions(parse, hs))
  {
    if h :| h in hs && NeedsEverything(h) {
      EarlyExit(parse, hs, START, h);
    } else {
      var total := BuildTotal(parse, hs, START);
      SanitisedEntries(total);
      CleanedSections(total);
      NoConditions(parse, hs, START);
      assert START.transactions == Some([]) && START.logs == Some([]);
    }
  }

  ghost predicate NoRepeats<T>(xs: seq<T>) {
    forall i, j :: 0 <= i < j < |xs| ==> xs[i] != xs[j]
  }

  /** Cleaning keeps exactly the conditions that are there, each once, and no
      section is left empty. */
  lemma {:induction false} SanitisedEntries(q: Query)
    ensures forall c :: c in Entries(Sanitised(q).transactions) <==> c in Entries(q.transactions)
    ensures forall c :: c in Entries(Sanitised(q).logs) <==> c in Entries(q.logs)
    ensures forall c :: c in Entries(Sanitised(q).instructions) <==> c in Entries(q.instructions)
    ensures NoRepeats(Entries(Sanitised(q).transactions)) && Sanitised(q).transactions != Some([])
    ensures NoRepeats(Entries(Sanitised(q).logs)) && Sanitised(q).logs != Some([])
    ensures NoRepeats(Entries(Sanitised(q).instructions)) && Sanitised(q).instructions != Some([])
  {
    forall a, b | TxKey(a) == TxKey(b) ensures a == b { TxKeyInjective(a, b); }
    forall a, b | LogKey(a) == LogKey(b) ensures a == b { LogKeyInjective(a, b); }
    forall a, b | InstructionKey(a) == InstructionKey(b) ensures a == b { InstructionKeyInjective(a, b); }
    UniqByExact(Entries(q.transactions), TxKey);
    UniqByExact(Entries(q.logs), LogKey);
    UniqByExact(Entries(q.instructions), InstructionKey);
  }

  lemma CleanedSections(q: Query)
    ensures Sanitised(q) == EVERYTHING <==>
            |Entries(q.transactions)| == 0 && |Entries(q.logs)| == 0 && |Entries(q.instructions)| == 0
  {
  }

  /** The query selects exactly the transactions that some handler with a field
      accepts, unless it asks for every block. */
  lemma {:induction false} TransactionsExact(parse: Parser, dss: seq<seq<Handler>>, q: Query, tx: Transaction)
    requires BuildFrom(parse, Flatten(dss), START) == Success(q) && !AsksForEverything(Flatten(dss))
    ensures TxSelected(q, tx) <==>
            exists f :: TransactionHandler(Some(f)) in Flatten(dss) && f.signerAccountKey.Some?
                        && TransactionAccepted(tx, Some(f))
  {
    BuildExact(parse, Flatten(dss), q);
    TxConditionsExact(Flatten(dss));
    if TxSelected(q, tx) {
      var c :| c in q.transactions.value && TxMatches(c, tx);
      assert c in Entries(q.transactions);
      var f :| TransactionHandler(Some(f)) in Flatten(dss) && f.signerAccountKey.Some? && c == TxConditionOf(f);
      TxConditionExact(f, tx);
    }
    if f :| TransactionHandler(Some(f)) in Flatten(dss) && f.signerAccountKey.Some? && TransactionAccepted(tx, Some(f)) {
      TxConditionExact(f, tx);
      assert TxConditionOf(f) in Entries(q.transactions);
    }
  }

  lemma {:induction false} LogsExact(parse: Parser, dss: seq<seq<Handler>>, q: Query, log: LogMessage)
    requires BuildFrom(parse, Flatten(dss), START) == Success(q) && !AsksForEverything(Flatten(dss))
    ensures LogSelected(q, log) <==>
            exists f :: LogHandler(Some(f)) in Flatten(dss) && f.programId.Some? && LogAccepted(log, Some(f))
  {
    BuildExact(parse, Flatten(dss), q);
    LogConditionsExact(Flatten(dss));
    if LogSelected(q, log) {
      var c :| c in q.logs.value && LogMatches(c, log);
      assert c in Entries(q.logs);
      var f :| LogHandler(Some(f)) in Flatten(dss) && f.programId.Some? && c == LogConditionOf(f);
      LogConditionExact(f, log);
    }
    if f :| LogHandler(Some(f)) in Flatten(dss) && f.programId.Some? && LogAccepted(log, Some(f)) {
      LogConditionExact(f, log);
      assert LogConditionOf(f) in Entries(q.logs);
    }
  }

  /** Nothing that a handler accepts is missed by the query, for handlers without
      a filter and for filters with at least one field. */
  lemma {:induction false} NothingLost(parse: Parser, dss: seq<seq<Handler>>, q: Query, h: Handler)
    requires BuildFrom(parse, Flatten(dss), START) == Success(q)
    requires h in Flatten(dss) && (NeedsEverything(h) || HasField(h))
    ensures NeedsEverything(h) ==> q == EVERYTHING
    ensures h.TransactionHandler? ==> forall tx :: TransactionAccepted(tx, h.txFilter) ==> TxSelected(q, tx)
    ensures h.LogHandler? ==> forall log :: LogAccepted(log, h.logFilter) ==> LogSelected(q, log)
    ensures h.InstructionHandler? ==>
              forall inst :: InstructionVerdict(inst, parse, h.instFilter) == Success(true) ==> InstructionSelected(q, inst)
  {
    BuildExact(parse, Flatten(dss), q);
    if q != EVERYTHING {
      match h
      case TransactionHandler(Some(f)) =>
        forall tx | TransactionAccepted(tx, Some(f)) ensures TxSelected(q, tx) {
          TransactionsExact(parse, dss, q, tx);
        }
      case LogHandler(Some(f)) =>
        forall log | LogAccepted(log, Some(f)) ensures LogSelected(q, log) {
          LogsExact(parse, dss, q, log);
        }
      case InstructionHandler(Some(f)) =>
        forall inst | InstructionVerdict(inst, parse, Some(f)) == Success(true) ensures InstructionSelected(q, inst) {
          var c := HandlerCondition(parse, Flatten(dss), START, f);
          InstructionConditionExact(parse, f, c, inst);
          assert c in Entries(q.instructions);
        }
    }
  }

  /** A query that was built has a condition for every instruction handler. */
  lemma {:induction false} HandlerCondition(parse: Parser, hs: seq<Handler>, q: Query, f: InstructionFilter)
    returns (c: InstructionCondition)
    requires BuildFrom(parse, hs, q).Success? && forall h :: h in hs ==> !NeedsEverything(h)
    requires InstructionHandler(Some(f)) in hs && HasField(InstructionHandler(Some(f)))
    ensures InstructionConditionOf(parse, f) == Success(c) && c in InstructionConditions(parse, hs)
  {
    if hs[0] == InstructionHandler(Some(f)) {
      c := InstructionConditionOf(parse, f).value;
    } else {
      c := HandlerCondition(parse, hs[1..], Extend(parse, q, hs[0]).value, f);
    }
  }

  // ----- what the provisos exclude -----

  /** As the chain has it: some signers, each with an account key. */
  ghost predicate Signed(tx: Transaction) {
    0 < tx.signatures <= |tx.accountKeys|
  }

  /** The program and the accounts are among those that the transaction loads. */
  ghost predicate WellFormed(inst: Instruction) {
    && Signed(inst.tx)
    && inst.programIdIndex < |AllAccounts(inst.tx)|
    && forall i :: 0 <= i < |inst.accounts| ==> inst.accounts[i] < |AllAccounts(inst.tx)|
  }

  /** The signer or program that a handler asks for. */
  function KeyOf(h: Handler): seq<string> {
    match h
    case TransactionHandler(Some(f)) => if f.signerAccountKey.Some? then [f.signerAccountKey.value] else []
    case InstructionHandler(Some(f)) => if f.programId.Some? then [f.programId.value] else []
    case LogHandler(Some(f)) => if f.programId.Some? then [f.programId.value] else []
    case _ => []
  }

  /** There is always a key that no handler asks for. */
  lemma {:induction false} OtherKey(hs: seq<Handler>) returns (key: string)
    ensures forall h :: h in hs ==> key !in KeyOf(h)
    ensures forall h, k :: h in hs && k in KeyOf(h) ==> |k| < |key|
  {
    if |hs| == 0 {
      key := "";
    } else {
      var other := OtherKey(hs[1..]);
      key := if KeyOf(hs[0]) == [] || |KeyOf(hs[0])[0]| < |other| then other
             else seq(|KeyOf(hs[0])[0]| + 1, _ => 'x');
      assert hs == [hs[0]] + hs[1..];
    }
  }

  /** A transaction filter without a field accepts every transaction.  The query
      selects all those that the chain can have exactly when the handlers ask for
      everything or one of them has an empty signer; and then it selects any. */
  lemma {:induction false} FieldlessTransactions(parse: Parser, dss: seq<seq<Handler>>, q: Query)
    requires BuildFrom(parse, Flatten(dss), START) == Success(q)
    ensures forall tx :: TransactionAccepted(tx, Some(TransactionFilter(None)))
    ensures var anything := AsksForEverything(Flatten(dss))
                            || TransactionHandler(Some(TransactionFilter(Some("")))) in Flatten(dss);
            && ((forall tx :: Signed(tx) ==> TxSelected(q, tx)) <==> anything)
            && (anything ==> forall tx :: TxSelected(q, tx))
  {
    var hs, f := Flatten(dss), TransactionFilter(Some(""));
    BuildExact(parse, hs, q);
    if !AsksForEverything(hs) {
      var key := OtherKey(hs);
      var tx := Transaction([key], 1, None);
      assert Signed(tx);
      if TxSelected(q, tx) {
        TransactionsExact(parse, dss, q, tx);
        var g :| TransactionHandler(Some(g)) in hs && g.signerAccountKey.Some? && TransactionAccepted(tx, Some(g));
        OnlyEmptySigner(key, g);
      }
      if TransactionHandler(Some(f)) in hs {
        forall tx ensures TxSelected(q, tx) {
          TransactionsExact(parse, dss, q, tx);
          assert TransactionAccepted(tx, Some(f));
        }
      }
    }
  }

  lemma OnlyEmptySigner(key: string, f: TransactionFilter)
    requires f.signerAccountKey.Some? && TransactionAccepted(Transaction([key], 1, None), Some(f))
    requires key !in KeyOf(TransactionHandler(Some(f)))
    ensures f == TransactionFilter(Some(""))
  {
    assert f.signerAccountKey.value in KeyOf(TransactionHandler(Some(f)));
  }

  /** Likewise for logs, also when each belongs to a program. */
  lemma {:induction false} FieldlessLogs(parse: Parser, dss: seq<seq<Handler>>, q: Query)
    requires BuildFrom(parse, Flatten(dss), START) == Success(q)
    ensures forall log :: LogAccepted(log, Some(LogFilter(None)))
    ensures var anything := AsksForEverything(Flatten(dss)) || LogHandler(Some(LogFilter(Some("")))) in Flatten(dss);
            && ((forall log: LogMessage :: log.programId.Some? ==> LogSelected(q, log)) <==> anything)
            && (anything ==> forall log :: LogSelected(q, log))
  {
    var hs, f := Flatten(dss), LogFilter(Some(""));
    BuildExact(parse, hs, q);
    if !AsksForEverything(hs) {
      var key := OtherKey(hs);
      var log := LogMessage(Some(key));
      if LogSelected(q, log) {
        LogsExact(parse, dss, q, log);
        var g :| LogHandler(Some(g)) in hs && g.programId.Some? && LogAccepted(log, Some(g));
        assert g.programId.value in KeyOf(LogHandler(Some(g)));
        assert g == f;
      }
      if LogHandler(Some(f)) in hs {
        forall log ensures LogSelected(q, log) {
          LogsExact(parse, dss, q, log);
          assert LogAccepted(log, Some(f));
        }
      }
    }
  }

  const NO_FIELD := InstructionFilter(None, None, None, None)

  /** A filter with a field that constrains neither program nor accounts. */
  predicate Lax(f: InstructionFilter) {
    && HasField(InstructionHandler(Some(f)))
    && !Truthy(f.programId)
    && (f.accounts.Some? ==> forall i :: 0 <= i < |f.accounts.value| ==> f.accounts.value[i].None?)
  }

  /** What an instruction filter without a field accepts: the instructions of
      successful transactions.  The query selects all those that the chain can have
      exactly when the handlers ask for everything or one has a lax filter. */
  lemma {:induction false} FieldlessInstructions(parse: Parser, dss: seq<seq<Handler>>, q: Query)
    requires BuildFrom(parse, Flatten(dss), START) == Success(q)
    ensures forall inst :: InstructionVerdict(inst, parse, Some(NO_FIELD)) == Success(!Failed(inst.tx))
    ensures var anything := AsksForEverything(Flatten(dss))
                            || exists f :: InstructionHandler(Some(f)) in Flatten(dss) && Lax(f);
            && ((forall inst: Instruction :: WellFormed(inst) && !Failed(inst.tx) ==> InstructionSelected(q, inst)) <==> anything)
            && (anything ==> forall inst: Instruction :: !Failed(inst.tx) ==> InstructionSelected(q, inst))
  {
    var hs := Flatten(dss);
    BuildExact(parse, hs, q);
    if !AsksForEverything(hs) {
      var key := OtherKey(hs);
      var inst := Bare(key);
      assert WellFormed(inst) && !Failed(inst.tx);
      if InstructionSelected(q, inst) {
        var f := SelectedByLax(parse, hs, q, key);
      }
      if f :| InstructionHandler(Some(f)) in hs && Lax(f) {
        var c := HandlerCondition(parse, hs, START, f);
        LaxMatches(parse, f, c);
        assert c in Entries(q.instructions);
      }
    }
  }

  /** An instruction of a program without accounts or data. */
  function Bare(program: string): Instruction {
    Instruction(0, [], [], Transaction([program], 1, None))
  }

  lemma {:induction false} SelectedByLax(parse: Parser, hs: seq<Handler>, q: Query, key: string)
    returns (f: InstructionFilter)
    requires BuildFrom(parse, hs, START) == Success(q) && !AsksForEverything(hs)
    requires InstructionSelected(q, Bare(key)) && forall h :: h in hs ==> key !in KeyOf(h)
    ensures InstructionHandler(Some(f)) in hs && Lax(f)
  {
    BuildExact(parse, hs, q);
    InstructionConditionsExact(parse, hs);
    var c :| c in q.instructions.value && InstructionMatches(c, Bare(key));
    assert c in Entries(q.instructions);
    f :| InstructionHandler(Some(f)) in hs && HasField(InstructionHandler(Some(f)))
         && InstructionConditionOf(parse, f) == Success(c);
    OnlyLax(parse, f, c, key);
  }

  lemma {:induction false} OnlyLax(parse: Parser, f: InstructionFilter, c: InstructionCondition, key: string)
    requires HasField(InstructionHandler(Some(f))) && InstructionConditionOf(parse, f) == Success(c)
    requires key !in KeyOf(InstructionHandler(Some(f))) && InstructionMatches(c, Bare(key))
    ensures Lax(f)
  {
    BareFacts(key);
    assert AnyOf(c.programIds, Some(key));
    assert f.programId.Some? ==> f.programId.value in KeyOf(InstructionHandler(Some(f)));
    if f.accounts.Some? {
      forall i | 0 <= i < |f.accounts.value| ensures f.accounts.value[i].None? {
        assert AnyOf(c.accounts.value[i], AccountAt(Bare(key), i));
      }
    }
  }

  lemma BareFacts(key: string)
    ensures ProgramId(Bare(key)) == Some(key)
    ensures forall i: nat :: AccountAt(Bare(key), i) == None
  {
  }

  lemma {:induction false} LaxMatches(parse: Parser, f: InstructionFilter, c: InstructionCondition)
    requires Lax(f) && InstructionConditionOf(parse, f) == Success(c)
    ensures forall inst: Instruction :: !Failed(inst.tx) ==> InstructionMatches(c, inst)
  {
  }

  /** Next to a log handler for a program, a transaction handler with an empty filter
      accepts every transaction, and not one is selected. */
  lemma {:induction false} FieldlessHandlerIsLost(parse: Parser, program: string) returns (hs: seq<Handler>, q: Query)
    ensures hs == [TransactionHandler(Some(TransactionFilter(None))), LogHandler(Some(LogFilter(Some(program))))]
    ensures BuildFrom(parse, Flatten([hs]), START) == Success(q)
    ensures forall tx :: TransactionAccepted(tx, hs[0].txFilter) && !TxSelected(q, tx)
  {
    hs := [TransactionHandler(Some(TransactionFilter(None))), LogHandler(Some(LogFilter(Some(program))))];
    var total := START.(logs := Some([] + [LogConditionOf(LogFilter(Some(program)))]));
    assert Flatten([hs]) == hs + Flatten([hs][1..]) == hs;
    assert Extend(parse, START, hs[0]) == Success(START);
    assert Extend(parse, START, hs[1]) == Success(total);
    assert BuildFrom(parse, hs, START) == BuildFrom(parse, hs[1..], START);
    assert BuildFrom(parse, hs[1..], START) == BuildFrom(parse, hs[1..][1..], total);
    q := Sanitised(total);
    forall tx ensures !TxSelected(q, tx) {
      if TxSelected(q, tx) {
        TransactionsExact(parse, [hs], q, tx);
      }
    }
  }
}
