/** The dictionary's query conditions: what they match, their JSON text, and the
    removal of duplicates. */
module DictionaryQuery {
  import opened Wrappers
  import opened Bytes
  import opened Filters
  import opened Json

  datatype LogCondition = LogCondition(programIds: Option<seq<string>>)

  datatype TxCondition = TxCondition(signerAccountKeys: Option<seq<string>>)

  datatype InstructionCondition = InstructionCondition(
    programIds: Option<seq<string>>,
    accounts: Option<seq<Option<seq<string>>>>,
    discriminators: Option<seq<string>>,
    isCommitted: Option<bool>)

  datatype Query = Query(
    logs: Option<seq<LogCondition>>,
    instructions: Option<seq<InstructionCondition>>,
    transactions: Option<seq<TxCondition>>)

  /** `{}`, which asks for every block. */
  const EVERYTHING := Query(None, None, None)

  // ----- what the dictionary answers -----
  // An assumption about the remote service, whose code is elsewhere: a missing
  // field does not constrain; the fields of a condition are and-ed; the entries
  // of a field, the conditions and the sections are or-ed; accounts are looked up
  // among all those the transaction loads, lookup tables included; and a
  // discriminator is a prefix of the text of the data.

  predicate AnyOf(values: Option<seq<string>>, value: Option<string>) {
    values.Some? ==> value.Some? && value.value in values.value
  }

  predicate TxMatches(c: TxCondition, tx: Transaction) {
    c.signerAccountKeys.Some? ==> exists k :: k in Signers(tx) && k in c.signerAccountKeys.value
  }

  predicate LogMatches(c: LogCondition, log: LogMessage) {
    AnyOf(c.programIds, log.programId)
  }

  function DataText(inst: Instruction): string {
    "0x" + Hex(inst.data)
  }

  /** The account at a position of an instruction, among all those loaded. */
  function AccountAt(inst: Instruction, i: nat): Option<string> {
    if i < |inst.accounts| then At(AllAccounts(inst.tx), inst.accounts[i]) else None
  }

  predicate InstructionMatches(c: InstructionCondition, inst: Instruction) {
    && AnyOf(c.programIds, ProgramId(inst))
    && (c.accounts.Some? ==> forall i :: 0 <= i < |c.accounts.value| ==> AnyOf(c.accounts.value[i], AccountAt(inst, i)))
    && (c.discriminators.Some? ==> exists d :: d in c.discriminators.value && d <= DataText(inst))
    && (c.isCommitted.Some? ==> c.isCommitted.value == !Failed(inst.tx))
  }

  predicate TxSelected(q: Query, tx: Transaction) {
    q == EVERYTHING || (q.transactions.Some? && exists c :: c in q.transactions.value && TxMatches(c, tx))
  }

  predicate LogSelected(q: Query, log: LogMessage) {
    q == EVERYTHING || (q.logs.Some? && exists c :: c in q.logs.value && LogMatches(c, log))
  }

  predicate InstructionSelected(q: Query, inst: Instruction) {
    q == EVERYTHING || (q.instructions.Some? && exists c :: c in q.instructions.value && InstructionMatches(c, inst))
  }

  // ----- the keys for uniqBy -----

  function Strings(xs: seq<string>): Value {
    Arr(seq(|xs|, i requires 0 <= i < |xs| => Str(xs[i])))
  }

  function Groups(xs: seq<Option<seq<string>>>): Value {
    Arr(seq(|xs|, i requires 0 <= i < |xs| => if xs[i].Some? then Strings(xs[i].value) else Null))
  }

  function Field(name: string, value: Option<Value>): seq<Member> {
    if value.Some? then [Member(name, value.value)] else []
  }

  function StringsField(name: string, xs: Option<seq<string>>): seq<Member> {
    Field(name, OptionalStrings(xs))
  }

  function LogKey(c: LogCondition): string {
    Text(Obj(StringsField("programIds", c.programIds)))
  }

  function TxKey(c: TxCondition): string {
    Text(Obj(StringsField("signerAccountKeys", c.signerAccountKeys)))
  }

  function InstructionMembers(c: InstructionCondition): seq<Member> {
    Field("accounts", if c.accounts.Some? then Some(Groups(c.accounts.value)) else None)
    + StringsField("programIds", c.programIds)
    + StringsField("discriminators", c.discriminators)
    + Field("isCommitted", if c.isCommitted.Some? then Some(Bool(c.isCommitted.value)) else None)
  }

  function InstructionKey(c: InstructionCondition): string {
    Text(Obj(InstructionMembers(c)))
  }

  lemma StringsInjective(a: seq<string>, b: seq<string>)
    requires Strings(a) == Strings(b)
    ensures a == b
  {
    assert |a| == |Strings(a).elements| == |b|;
    forall i | 0 <= i < |a| ensures a[i] == b[i] {
      assert Strings(a).elements[i] == Strings(b).elements[i];
    }
  }

  lemma GroupsInjective(a: seq<Option<seq<string>>>, b: seq<Option<seq<string>>>)
    requires Groups(a) == Groups(b)
    ensures a == b
  {
    assert |a| == |Groups(a).elements| == |b|;
    forall i | 0 <= i < |a| ensures a[i] == b[i] {
      assert Groups(a).elements[i] == Groups(b).elements[i];
      if a[i].Some? { StringsInjective(a[i].value, b[i].value); }
    }
  }

  lemma StringsFieldInjective(name: string, a: Option<seq<string>>, b: Option<seq<string>>)
    requires StringsField(name, a) == StringsField(name, b)
    ensures a == b
  {
    if a.Some? && b.Some? {
      assert StringsField(name, a)[0] == StringsField(name, b)[0];
      StringsInjective(a.value, b.value);
    }
  }

  /** The value under a name, if it is there. */
  function Get(ms: seq<Member>, name: string): Option<Value> {
    if |ms| == 0 then None else if ms[0].name == name then Some(ms[0].value) else Get(ms[1..], name)
  }

  lemma GetField(name: string, value: Option<Value>, rest: seq<Member>, wanted: string)
    ensures Get(Field(name, value) + rest, wanted) ==
            if wanted == name && value.Some? then value else Get(rest, wanted)
  {
    if value.Some? {
      assert (Field(name, value) + rest)[1..] == rest;
    } else {
      assert Field(name, value) + rest == rest;
    }
  }

  function OptionalStrings(xs: Option<seq<string>>): Option<Value> {
    if xs.Some? then Some(Strings(xs.value)) else None
  }

  lemma InstructionFields(c: InstructionCondition)
    ensures var ms := InstructionMembers(c);
            && Get(ms, "accounts") == (if c.accounts.Some? then Some(Groups(c.accounts.value)) else None)
            && Get(ms, "programIds") == OptionalStrings(c.programIds)
            && Get(ms, "discriminators") == OptionalStrings(c.discriminators)
            && Get(ms, "isCommitted") == (if c.isCommitted.Some? then Some(Bool(c.isCommitted.value)) else None)
  {
    assert "accounts"[0] == 'a' && "programIds"[0] == 'p' && "discriminators"[0] == 'd' && "isCommitted"[0] == 'i';
    FourFields("accounts", if c.accounts.Some? then Some(Groups(c.accounts.value)) else None,
               "programIds", OptionalStrings(c.programIds),
               "discriminators", OptionalStrings(c.discriminators),
               "isCommitted", if c.isCommitted.Some? then Some(Bool(c.isCommitted.value)) else None);
  }

  lemma FourFields(n1: string, v1: Option<Value>, n2: string, v2: Option<Value>,
                   n3: string, v3: Option<Value>, n4: string, v4: Option<Value>)
    requires n1 != n2 && n1 != n3 && n1 != n4 && n2 != n3 && n2 != n4 && n3 != n4
    ensures var ms := Field(n1, v1) + Field(n2, v2) + Field(n3, v3) + Field(n4, v4);
            Get(ms, n1) == v1 && Get(ms, n2) == v2 && Get(ms, n3) == v3 && Get(ms, n4) == v4
  {
    GetOfFour(n1, v1, n2, v2, n3, v3, n4, v4, n1);
    GetOfFour(n1, v1, n2, v2, n3, v3, n4, v4, n2);
    GetOfFour(n1, v1, n2, v2, n3, v3, n4, v4, n3);
    GetOfFour(n1, v1, n2, v2, n3, v3, n4, v4, n4);
  }

  lemma GetOfFour(n1: string, v1: Option<Value>, n2: string, v2: Option<Value>,
                  n3: string, v3: Option<Value>, n4: string, v4: Option<Value>, n: string)
    ensures Get(Field(n1, v1) + Field(n2, v2) + Field(n3, v3) + Field(n4, v4), n) ==
            if n == n1 && v1.Some? then v1 else if n == n2 && v2.Some? then v2
            else if n == n3 && v3.Some? then v3 else if n == n4 then v4 else None
  {
    var f1, f2, f3, f4 := Field(n1, v1), Field(n2, v2), Field(n3, v3), Field(n4, v4);
    assert f1 + f2 + f3 + f4 == f1 + (f2 + (f3 + (f4 + [])));
    GetField(n1, v1, f2 + (f3 + (f4 + [])), n);
    GetField(n2, v2, f3 + (f4 + []), n);
    GetField(n3, v3, f4 + [], n);
    GetField(n4, v4, [], n);
  }

  lemma InstructionKeyInjective(a: InstructionCondition, b: InstructionCondition)
    requires InstructionKey(a) == InstructionKey(b)
    ensures a == b
  {
    TextInjective(Obj(InstructionMembers(a)), Obj(InstructionMembers(b)));
    InstructionFields(a);
    InstructionFields(b);
    if a.accounts.Some? { GroupsInjective(a.accounts.value, b.accounts.value); }
    if a.programIds.Some? { StringsInjective(a.programIds.value, b.programIds.value); }
    if a.discriminators.Some? { StringsInjective(a.discriminators.value, b.discriminators.value); }
  }

  lemma LogKeyInjective(a: LogCondition, b: LogCondition)
    requires LogKey(a) == LogKey(b)
    ensures a == b
  {
    TextInjective(Obj(StringsField("programIds", a.programIds)), Obj(StringsField("programIds", b.programIds)));
    StringsFieldInjective("programIds", a.programIds, b.programIds);
  }

  lemma TxKeyInjective(a: TxCondition, b: TxCondition)
    requires TxKey(a) == TxKey(b)
    ensures a == b
  {
    TextInjective(Obj(StringsField("signerAccountKeys", a.signerAccountKeys)),
                  Obj(StringsField("signerAccountKeys", b.signerAccountKeys)));
    StringsFieldInjective("signerAccountKeys", a.signerAccountKeys, b.signerAccountKeys);
  }

  /** lodash's uniqBy: keep the first element of each key. */
  function UniqBy<T>(xs: seq<T>, key: T -> string): (r: seq<T>)
    ensures |xs| > 0 ==> |r| > 0
  {
    if |xs| == 0 then []
    else
      var front, x := xs[..|xs| - 1], xs[|xs| - 1];
      var kept := UniqBy(front, key);
      if |kept| > 0 && exists k :: 0 <= k < |kept| && key(kept[k]) == key(x) then kept else kept + [x]
  }

  /** With keys that tell elements apart, no element is lost and none is kept
      twice. */
  lemma {:induction false} UniqByExact<T(!new)>(xs: seq<T>, key: T -> string)
    requires forall a, b :: key(a) == key(b) ==> a == b
    ensures forall x :: x in UniqBy(xs, key) <==> x in xs
    ensures forall i, j :: 0 <= i < j < |UniqBy(xs, key)| ==> UniqBy(xs, key)[i] != UniqBy(xs, key)[j]
  {
    if |xs| > 0 {
      var n := |xs| - 1;
      UniqByExact(xs[..n], key);
      assert xs == xs[..n] + [xs[n]];
      var kept := UniqBy(xs[..n], key);
      if !(exists k :: 0 <= k < |kept| && key(kept[k]) == key(xs[n])) {
        forall k | 0 <= k < |kept| ensures kept[k] != xs[n] {
          assert key(kept[k]) != key(xs[n]);
        }
      }
    }
  }
}
