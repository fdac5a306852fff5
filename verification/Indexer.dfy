/** The order in which the indexer hands the parts of a block to the handlers. */
module Indexer {
  import opened Wrappers
  import opened ProgramLogs
  import opened Blocks
  import opened Seqs

  datatype Item<T> =
    | BlockItem
    | TransactionItem(tx: nat)
    | InstructionItem(tx: nat, instruction: Instruction<T>)
    | LogItem(tx: nat, log: Message)

  // ----- the traversal -----

  /** `groupBy(inner, index)[i] ?? []`. */
  function GroupsAt<T>(inner: seq<Inner<T>>, i: nat): seq<Inner<T>> {
    if |inner| == 0 then []
    else (if inner[0].index == i then [inner[0]] else []) + GroupsAt(inner[1..], i)
  }

  function Joined<T>(groups: seq<Inner<T>>): seq<Instruction<T>> {
    if |groups| == 0 then [] else groups[0].instructions + Joined(groups[1..])
  }

  /** Each top-level instruction from lo on, followed by those called by it. */
  function Instructions<T>(tx: Transaction<T>, lo: nat): seq<Instruction<T>>
    requires lo <= |tx.instructions|
    decreases |tx.instructions| - lo
  {
    if lo == |tx.instructions| then []
    else [tx.instructions[lo]] + Joined(GroupsAt(InnerOf(tx), lo)) + Instructions(tx, lo + 1)
  }

  function InstructionItems<T>(t: nat, instructions: seq<Instruction<T>>): seq<Item<T>> {
    seq(|instructions|, k requires 0 <= k < |instructions| => InstructionItem(t, instructions[k]))
  }

  function LogItems<T>(t: nat, logs: seq<Message>): seq<Item<T>> {
    seq(|logs|, k requires 0 <= k < |logs| => LogItem(t, logs[k]))
  }

  function TransactionItems<T>(t: nat, tx: Transaction<T>): seq<Item<T>> {
    [TransactionItem(t)] + InstructionItems(t, Instructions(tx, 0)) + LogItems(t, Logs(tx))
  }

  function ItemsFrom<T>(txs: seq<Transaction<T>>, lo: nat): seq<Item<T>>
    requires lo <= |txs|
    decreases |txs| - lo
  {
    if lo == |txs| then [] else TransactionItems(lo, txs[lo]) + ItemsFrom(txs, lo + 1)
  }

  function BlockItems<T>(txs: seq<Transaction<T>>): seq<Item<T>> {
    [BlockItem] + ItemsFrom(txs, 0)
  }

  /** An item for each of n datasources in turn. */
  function ForEach<T>(item: Item<T>, n: nat): seq<(Item<T>, nat)> {
    seq(n, d => (item, d))
  }

  function Spread<T>(items: seq<Item<T>>, n: nat): seq<(Item<T>, nat)> {
    if |items| == 0 then [] else ForEach(items[0], n) + Spread(items[1..], n)
  }

  lemma {:induction false} SpreadAppend<T>(a: seq<Item<T>>, b: seq<Item<T>>, n: nat)
    ensures Spread(a + b, n) == Spread(a, n) + Spread(b, n)
  {
    if |a| == 0 {
      assert a + b == b;
    } else {
      assert (a + b)[1..] == a[1..] + b;
      SpreadAppend(a[1..], b, n);
      assert ForEach(a[0], n) + (Spread(a[1..], n) + Spread(b, n)) == Spread(a, n) + Spread(b, n);
    }
  }

  lemma NextTransaction<T>(calls: seq<(Item<T>, nat)>, done: seq<Item<T>>, txs: seq<Transaction<T>>, t: nat, n: nat)
    requires t < |txs|
    ensures var added := TransactionItems(t, txs[t]);
            && (calls + Spread(done, n)) + Spread(added, n) == calls + Spread(done + added, n)
            && (done + added) + ItemsFrom(txs, t + 1) == done + ItemsFrom(txs, t)
  {
    var added := TransactionItems(t, txs[t]);
    SpreadAppend(done, added, n);
    Associative(calls, Spread(done, n), Spread(added, n));
    Associative(done, added, ItemsFrom(txs, t + 1));
  }

  lemma SpreadOne<T>(items: seq<Item<T>>, item: Item<T>, n: nat)
    ensures Spread(items + [item], n) == Spread(items, n) + ForEach(item, n)
  {
    SpreadAppend(items, [item], n);
    assert [item][1..] == [] && Spread<T>([], n) == [];
    assert Spread([item], n) == ForEach(item, n);
  }

  /** The handler calls made so far, in order. */
  class IndexerManager<T> {
    var calls: seq<(Item<T>, nat)>

    constructor ()
      ensures calls == []
    {
      calls := [];
    }

    /** One of the index* methods: the item goes to every datasource. */
    method IndexItem(item: Item<T>, dataSources: nat)
      modifies this
      ensures calls == old(calls) + ForEach(item, dataSources)
    {
      for d := 0 to dataSources
        invariant calls == old(calls) + ForEach(item, d)
      {
        calls := calls + [(item, d)];
      }
    }

    method IndexTransactionItems(t: nat, tx: Transaction<T>, dataSources: nat)
      modifies this
      ensures calls == old(calls) + Spread(TransactionItems(t, tx), dataSources)
    {
      var first: seq<Item<T>> := [TransactionItem(t)];
      ghost var instructions, logs := InstructionItems(t, Instructions(tx, 0)), LogItems<T>(t, Logs(tx));
      SpreadOne<T>([], TransactionItem(t), dataSources);
      assert [] + first == first;
      SpreadAppend(first, instructions, dataSources);
      SpreadAppend(first + instructions, logs, dataSources);
      IndexItem(TransactionItem(t), dataSources);
      IndexInstructions(t, tx, dataSources);
      IndexLogs(t, Logs(tx), dataSources);
    }

    /** The loop over the top-level instructions of a transaction. */
    method IndexInstructions(t: nat, tx: Transaction<T>, dataSources: nat)
      modifies this
      ensures calls == old(calls) + Spread(InstructionItems(t, Instructions(tx, 0)), dataSources)
    {
      ghost var before := calls;
      ghost var done: seq<Instruction<T>> := [];
      assert InstructionItems(t, done) == [];
      for i := 0 to |tx.instructions|
        invariant calls == before + Spread(InstructionItems(t, done), dataSources)
        invariant done + Instructions(tx, i) == Instructions(tx, 0)
      {
        var x, groups := tx.instructions[i], GroupsAt(InnerOf(tx), i);
        ghost var now := calls;
        IndexItem(InstructionItem(t, x), dataSources);
        IndexGroups(t, groups, dataSources);
        SpreadInstruction(t, done, x, Joined(groups), dataSources);
        Associative(now, ForEach(InstructionItem(t, x), dataSources),
                    Spread(InstructionItems(t, Joined(groups)), dataSources));
        Associative(before, Spread(InstructionItems(t, done), dataSources),
                    ForEach(InstructionItem(t, x), dataSources)
                    + Spread(InstructionItems(t, Joined(groups)), dataSources));
        Associative(done, [x] + Joined(groups), Instructions(tx, i + 1));
        done := done + ([x] + Joined(groups));
      }
      assert done == Instructions(tx, 0);
    }

    method IndexLogs(t: nat, logs: seq<Message>, dataSources: nat)
      modifies this
      ensures calls == old(calls) + Spread(LogItems(t, logs), dataSources)
    {
      ghost var before := calls;
      for k := 0 to |logs|
        invariant calls == before + Spread(LogItems(t, logs[..k]), dataSources)
      {
        SpreadOne<T>(LogItems(t, logs[..k]), LogItem(t, logs[k]), dataSources);
        IndexItem(LogItem(t, logs[k]), dataSources);
        assert LogItems(t, logs[..k]) + [LogItem(t, logs[k])] == LogItems<T>(t, logs[..k + 1]);
      }
      assert logs[..|logs|] == logs;
    }

    /** The two inner loops, over the groups of one top-level instruction. */
    method IndexGroups(t: nat, groups: seq<Inner<T>>, dataSources: nat)
      modifies this
      ensures calls == old(calls) + Spread(InstructionItems(t, Joined(groups)), dataSources)
    {
      ghost var before := calls;
      assert InstructionItems(t, Joined(groups[..0])) == [];
      for g := 0 to |groups|
        invariant calls == before + Spread(InstructionItems(t, Joined(groups[..g])), dataSources)
      {
        ghost var done := Joined(groups[..g]);
        IndexGroup(t, groups[g].instructions, dataSources);
        JoinedLast(groups, g);
        ItemsAppend(t, done, groups[g].instructions);
        SpreadAppend(InstructionItems(t, done), InstructionItems(t, groups[g].instructions), dataSources);
      }
      assert groups[..|groups|] == groups;
    }

    method IndexGroup(t: nat, instructions: seq<Instruction<T>>, dataSources: nat)
      modifies this
      ensures calls == old(calls) + Spread(InstructionItems(t, instructions), dataSources)
    {
      ghost var before := calls;
      for k := 0 to |instructions|
        invariant calls == before + Spread(InstructionItems(t, instructions[..k]), dataSources)
      {
        SpreadOne(InstructionItems(t, instructions[..k]), InstructionItem(t, instructions[k]), dataSources);
        IndexItem(InstructionItem(t, instructions[k]), dataSources);
        assert InstructionItems(t, instructions[..k]) + [InstructionItem(t, instructions[k])]
            == InstructionItems(t, instructions[..k + 1]);
      }
      assert instructions[..|instructions|] == instructions;
    }

    method IndexBlockData(txs: seq<Transaction<T>>, dataSources: nat)
      modifies this
      ensures calls == old(calls) + Spread(BlockItems(txs), dataSources)
    {
      ghost var before := calls;
      ghost var done: seq<Item<T>> := [BlockItem];
      SpreadOne<T>([], BlockItem, dataSources);
      assert [] + [BlockItem] == done;
      IndexItem(BlockItem, dataSources);
      for t := 0 to |txs|
        invariant calls == before + Spread(done, dataSources)
        invariant done + ItemsFrom(txs, t) == BlockItems(txs)
      {
        IndexTransactionItems(t, txs[t], dataSources);
        NextTransaction(before, done, txs, t, dataSources);
        done := done + TransactionItems(t, txs[t]);
      }
      assert done == BlockItems(txs);
    }
  }

  lemma ItemsAppend<T>(t: nat, a: seq<Instruction<T>>, b: seq<Instruction<T>>)
    ensures InstructionItems(t, a + b) == InstructionItems(t, a) + InstructionItems(t, b)
  {
  }

  lemma SpreadInstruction<T>(t: nat, done: seq<Instruction<T>>, x: Instruction<T>, called: seq<Instruction<T>>, n: nat)
    ensures Spread(InstructionItems(t, done + ([x] + called)), n) ==
            Spread(InstructionItems(t, done), n) + (ForEach(InstructionItem(t, x), n) + Spread(InstructionItems(t, called), n))
  {
    var one: seq<Item<T>> := [InstructionItem(t, x)];
    ItemsAppend(t, done, [x] + called);
    ItemsAppend(t, [x], called);
    assert InstructionItems(t, [x]) == one;
    SpreadAppend(InstructionItems(t, done), one + InstructionItems(t, called), n);
    SpreadAppend(one, InstructionItems(t, called), n);
    SpreadOne<T>([], InstructionItem(t, x), n);
    assert [] + one == one;
  }

  lemma {:induction false} JoinedLast<T>(groups: seq<Inner<T>>, g: nat)
    requires g < |groups|
    ensures Joined(groups[..g + 1]) == Joined(groups[..g]) + groups[g].instructions
  {
    if g == 0 {
      assert groups[..1] == [groups[0]] && groups[..0] == [];
      assert [groups[0]][1..] == [];
    } else {
      assert groups[..g + 1][1..] == groups[1..][..g] && groups[..g][1..] == groups[1..][..g - 1];
      JoinedLast(groups[1..], g - 1);
    }
  }

  // ----- once for each datasource -----

  function OnlyFor<T>(calls: seq<(Item<T>, nat)>, d: nat): seq<Item<T>> {
    if |calls| == 0 then []
    else (if calls[0].1 == d then [calls[0].0] else []) + OnlyFor(calls[1..], d)
  }

  lemma {:induction false} OnlyForAppend<T>(a: seq<(Item<T>, nat)>, b: seq<(Item<T>, nat)>, d: nat)
    ensures OnlyFor(a + b, d) == OnlyFor(a, d) + OnlyFor(b, d)
  {
    if |a| == 0 {
      assert a + b == b;
    } else {
      assert (a + b)[1..] == a[1..] + b;
      OnlyForAppend(a[1..], b, d);
      Associative(if a[0].1 == d then [a[0].0] else [], OnlyFor(a[1..], d), OnlyFor(b, d));
    }
  }

  lemma {:induction false} OnlyForEach<T>(item: Item<T>, n: nat, d: nat)
    ensures OnlyFor(ForEach(item, n), d) == if d < n then [item] else []
  {
    if n > 0 {
      assert ForEach(item, n) == ForEach(item, n - 1) + [(item, n - 1)];
      OnlyForAppend(ForEach(item, n - 1), [(item, n - 1)], d);
      OnlyForEach(item, n - 1, d);
      assert [(item, n - 1)][1..] == [];
      assert OnlyFor([(item, n - 1)], d) == if n - 1 == d then [item] else [];
    }
  }

  /** Every datasource is given every item once, in the same order. */
  lemma {:induction false} EachDatasource<T>(items: seq<Item<T>>, n: nat, d: nat)
    requires d < n
    ensures OnlyFor(Spread(items, n), d) == items
  {
    if |items| > 0 {
      EachDatasource(items[1..], n, d);
      OnlyForEach(items[0], n, d);
      OnlyForAppend(ForEach(items[0], n), Spread(items[1..], n), d);
    }
  }

  // ----- nothing lost -----

  /** The groups that belong to no top-level instruction. */
  function Orphans<T>(inner: seq<Inner<T>>, n: nat): seq<Inner<T>> {
    if |inner| == 0 then []
    else (if inner[0].index >= n then [inner[0]] else []) + Orphans(inner[1..], n)
  }

  lemma {:induction false} JoinedAppend<T>(a: seq<Inner<T>>, b: seq<Inner<T>>)
    ensures Joined(a + b) == Joined(a) + Joined(b)
  {
    if |a| == 0 {
      assert a + b == b;
    } else {
      assert (a + b)[1..] == a[1..] + b;
      JoinedAppend(a[1..], b);
    }
  }

  lemma {:induction false} OrphansStep<T>(inner: seq<Inner<T>>, n: nat)
    ensures multiset(Joined(Orphans(inner, n))) ==
            multiset(Joined(GroupsAt(inner, n))) + multiset(Joined(Orphans(inner, n + 1)))
  {
    if |inner| > 0 {
      OrphansStep(inner[1..], n);
      var g := inner[0];
      JoinedAppend(if g.index >= n then [g] else [], Orphans(inner[1..], n));
      JoinedAppend(if g.index == n then [g] else [], GroupsAt(inner[1..], n));
      JoinedAppend(if g.index >= n + 1 then [g] else [], Orphans(inner[1..], n + 1));
    }
  }

  ghost function Lost<T>(tx: Transaction<T>, lo: nat): multiset<Instruction<T>> {
    multiset(Joined(Orphans(InnerOf(tx), lo)))
  }

  lemma {:induction false} Conserved<T>(tx: Transaction<T>, lo: nat)
    requires lo <= |tx.instructions|
    ensures multiset(Instructions(tx, lo)) + Lost(tx, |tx.instructions|) ==
            multiset(tx.instructions[lo..]) + Lost(tx, lo)
    decreases |tx.instructions| - lo
  {
    if lo < |tx.instructions| {
      Conserved(tx, lo + 1);
      var called := Joined(GroupsAt(InnerOf(tx), lo));
      ConservedStep(tx, lo);
      Rearrange(multiset{tx.instructions[lo]}, multiset(called), multiset(Instructions(tx, lo + 1)),
                multiset(tx.instructions[lo + 1..]), Lost(tx, |tx.instructions|), Lost(tx, lo + 1));
    }
  }

  lemma Rearrange<T>(x: multiset<T>, called: multiset<T>, later: multiset<T>, rest: multiset<T>,
                     dropped: multiset<T>, beyond: multiset<T>)
    requires later + dropped == rest + beyond
    ensures (x + called + later) + dropped == (x + rest) + (called + beyond)
  {
    assert (x + called + later) + dropped == (x + called) + (later + dropped);
  }

  lemma ConservedStep<T>(tx: Transaction<T>, lo: nat)
    requires lo < |tx.instructions|
    ensures var x, called := tx.instructions[lo], Joined(GroupsAt(InnerOf(tx), lo));
            && multiset(Instructions(tx, lo)) == multiset{x} + multiset(called) + multiset(Instructions(tx, lo + 1))
            && multiset(tx.instructions[lo..]) == multiset{x} + multiset(tx.instructions[lo + 1..])
            && Lost(tx, lo) == multiset(called) + Lost(tx, lo + 1)
  {
    OrphansStep(InnerOf(tx), lo);
    ThreeParts(tx.instructions[lo], Joined(GroupsAt(InnerOf(tx), lo)), Instructions(tx, lo + 1));
    FirstPart(tx.instructions, lo);
  }

  lemma ThreeParts<T>(x: T, called: seq<T>, later: seq<T>)
    ensures multiset([x] + called + later) == multiset{x} + multiset(called) + multiset(later)
  {
    MultisetConcat([x] + called, later);
    MultisetConcat([x], called);
  }

  lemma FirstPart<T>(xs: seq<T>, lo: nat)
    requires lo < |xs|
    ensures multiset(xs[lo..]) == multiset{xs[lo]} + multiset(xs[lo + 1..])
  {
    MultisetConcat([xs[lo]], xs[lo + 1..]);
    assert xs[lo..] == [xs[lo]] + xs[lo + 1..];
  }

  lemma MultisetConcat<T>(a: seq<T>, b: seq<T>)
    ensures multiset(a + b) == multiset(a) + multiset(b)
  {
  }

  lemma NothingAdded<T>(a: multiset<T>, d: multiset<T>, b: multiset<T>)
    requires a + d == b
    ensures a == b <==> |d| == 0
  {
    assert |a| + |d| == |b|;
    if |d| == 0 {
      assert d == multiset{};
    }
  }

  lemma {:induction false} OrphansAll<T>(inner: seq<Inner<T>>)
    ensures Orphans(inner, 0) == inner
  {
    if |inner| > 0 {
      OrphansAll(inner[1..]);
    }
  }

  lemma {:induction false} NoOrphans<T>(inner: seq<Inner<T>>, n: nat)
    ensures |Joined(Orphans(inner, n))| == 0 <==>
            forall g :: g in inner && g.index >= n ==> |g.instructions| == 0
  {
    if |inner| > 0 {
      NoOrphans(inner[1..], n);
      assert inner == [inner[0]] + inner[1..];
      JoinedAppend(if inner[0].index >= n then [inner[0]] else [], Orphans(inner[1..], n));
      assert inner[0].index >= n ==> Joined([inner[0]]) == inner[0].instructions by {
        assert [inner[0]][1..] == [];
        assert inner[0].instructions + [] == inner[0].instructions;
      }
    }
  }

  /** Every instruction of the transaction is handed out, as often as it occurs
      and no other, exactly when no non-empty inner group has an index beyond the
      top-level instructions. */
  lemma {:induction false} InstructionsConserved<T>(tx: Transaction<T>)
    ensures multiset(Instructions(tx, 0)) == multiset(tx.instructions) + multiset(Joined(InnerOf(tx))) <==>
            forall g :: g in InnerOf(tx) && g.index >= |tx.instructions| ==> |g.instructions| == 0
  {
    Conserved(tx, 0);
    OrphansAll(InnerOf(tx));
    NoOrphans(InnerOf(tx), |tx.instructions|);
    assert tx.instructions[0..] == tx.instructions;
    NothingAdded(multiset(Instructions(tx, 0)), multiset(Joined(Orphans(InnerOf(tx), |tx.instructions|))),
                 multiset(tx.instructions) + multiset(Joined(InnerOf(tx))));
  }

  // ----- in order -----

  /** Lexicographic order; a path comes before its extensions. */
  predicate Before(a: seq<nat>, b: seq<nat>) {
    |b| > 0 && (|a| == 0 || a[0] < b[0] || (a[0] == b[0] && Before(a[1..], b[1..])))
  }

  ghost predicate PathsIncrease<T>(instructions: seq<Instruction<T>>) {
    forall p, q :: 0 <= p < q < |instructions| ==> Before(instructions[p].index, instructions[q].index)
  }

  ghost predicate Numbered<T>(inner: seq<Inner<T>>) {
    forall p, k :: 0 <= p < |inner| && 0 <= k < |inner[p].instructions| ==>
      inner[p].instructions[k].index == [inner[p].index, k]
  }

  ghost predicate OuterNumbered<T>(tx: Transaction<T>) {
    forall i :: 0 <= i < |tx.instructions| ==> tx.instructions[i].index == [i]
  }

  lemma PairsBefore(i: nat, a: nat, b: nat)
    ensures Before([i, a], [i, b]) <==> a < b
    ensures Before([i], [i, a])
  {
    assert [i, a][1..] == [a] && [i, b][1..] == [b] && [i][1..] == [];
    assert Before([a], [b]) <==> a < b by {
      assert [a][1..] == [] && [b][1..] == [];
    }
    assert Before([], [a]);
  }

  lemma JoinedFirst<T>(inner: seq<Inner<T>>, i: nat)
    requires |inner| > 0
    ensures Joined(GroupsAt(inner, i)) ==
            (if inner[0].index == i then inner[0].instructions else []) + Joined(GroupsAt(inner[1..], i))
  {
    var here := if inner[0].index == i then [inner[0]] else [];
    JoinedAppend(here, GroupsAt(inner[1..], i));
    if inner[0].index == i {
      assert [inner[0]][1..] == [];
      assert Joined([inner[0]]) == inner[0].instructions + [] == inner[0].instructions;
    }
  }

  ghost predicate SomeGroupAt<T>(inner: seq<Inner<T>>, i: nat) {
    exists p :: 0 <= p < |inner| && inner[p].index == i && |inner[p].instructions| > 0
  }

  lemma SomeGroupStep<T>(inner: seq<Inner<T>>, i: nat)
    requires |inner| > 0
    ensures SomeGroupAt(inner, i) <==>
            (inner[0].index == i && |inner[0].instructions| > 0) || SomeGroupAt(inner[1..], i)
  {
    var rest := inner[1..];
    assert forall p :: 0 <= p < |rest| ==> rest[p] == inner[p + 1];
    assert forall p :: 0 < p < |inner| ==> inner[p] == rest[p - 1];
  }

  lemma NumberedRest<T>(inner: seq<Inner<T>>)
    requires Numbered(inner) && |inner| > 0
    ensures Numbered(inner[1..])
  {
    assert forall p :: 0 <= p < |inner[1..]| ==> inner[1..][p] == inner[p + 1];
  }

  ghost predicate PairsFrom<T>(instructions: seq<Instruction<T>>, i: nat) {
    forall x :: x in instructions ==> |x.index| == 2 && x.index[0] == i
  }

  /** What is called by instruction i is numbered [i, k], from [i, 0] if there is
      anything. */
  lemma {:induction false} CalledPaths<T>(inner: seq<Inner<T>>, i: nat)
    requires Numbered(inner)
    ensures PairsFrom(Joined(GroupsAt(inner, i)), i)
    ensures SomeGroupAt(inner, i) ==> exists x :: x in Joined(GroupsAt(inner, i)) && x.index == [i, 0]
    ensures !SomeGroupAt(inner, i) ==> Joined(GroupsAt(inner, i)) == []
  {
    if |inner| > 0 {
      NumberedRest(inner);
      CalledPaths(inner[1..], i);
      JoinedFirst(inner, i);
      SomeGroupStep(inner, i);
      var first := if inner[0].index == i then inner[0].instructions else [];
      if |first| > 0 {
        assert first[0] in first && first[0].index == [i, 0];
      }
    }
  }

  /** Two groups of one index repeat the path [i, 0]. */
  lemma RepeatedPath<T>(first: seq<Instruction<T>>, later: seq<Instruction<T>>, i: nat)
    requires |first| > 0 && first[0].index == [i, 0]
    requires exists x :: x in later && x.index == [i, 0]
    ensures !PathsIncrease(first + later)
  {
    var x :| x in later && x.index == [i, 0];
    var k :| 0 <= k < |later| && later[k] == x;
    assert (first + later)[|first| + k] == x && (first + later)[0] == first[0];
    PairsBefore(i, 0, 0);
  }

  ghost predicate OneGroupAt<T>(inner: seq<Inner<T>>, i: nat) {
    forall p, q :: 0 <= p < q < |inner| && inner[p].index == inner[q].index == i ==>
      |inner[p].instructions| == 0 || |inner[q].instructions| == 0
  }

  lemma OneGroupStep<T>(inner: seq<Inner<T>>, i: nat)
    requires |inner| > 0
    ensures OneGroupAt(inner, i) <==>
            OneGroupAt(inner[1..], i)
            && !(inner[0].index == i && |inner[0].instructions| > 0 && SomeGroupAt(inner[1..], i))
  {
    var rest := inner[1..];
    assert forall p :: 0 < p < |inner| ==> inner[p] == rest[p - 1];
    assert forall p :: 0 <= p < |rest| ==> rest[p] == inner[p + 1];
  }

  lemma {:induction false} CalledIncrease<T>(inner: seq<Inner<T>>, i: nat)
    requires Numbered(inner)
    ensures PathsIncrease(Joined(GroupsAt(inner, i))) <==> OneGroupAt(inner, i)
  {
    if |inner| > 0 {
      var rest := inner[1..];
      NumberedRest(inner);
      CalledIncrease(rest, i);
      CalledPaths(rest, i);
      JoinedFirst(inner, i);
      OneGroupStep(inner, i);
      var first := if inner[0].index == i then inner[0].instructions else [];
      var later := Joined(GroupsAt(rest, i));
      forall p, q | 0 <= p < q < |first| ensures Before(first[p].index, first[q].index) {
        PairsBefore(i, p, q);
      }
      if |first| > 0 && SomeGroupAt(rest, i) {
        RepeatedPath(first, later, i);
      } else if |first| == 0 {
        assert first + later == later;
      } else {
        assert first + later == first;
      }
    }
  }

  ghost predicate PathsFrom<T>(instructions: seq<Instruction<T>>, lo: nat) {
    forall x :: x in instructions ==> |x.index| > 0 && x.index[0] >= lo
  }

  lemma {:induction false} LaterPaths<T>(tx: Transaction<T>, lo: nat)
    requires lo <= |tx.instructions| && Numbered(InnerOf(tx))
    requires OuterNumbered(tx)
    ensures PathsFrom(Instructions(tx, lo), lo)
    decreases |tx.instructions| - lo
  {
    if lo < |tx.instructions| {
      LaterPaths(tx, lo + 1);
      CalledPaths(InnerOf(tx), lo);
    }
  }

  /** No two non-empty groups share an index from lo on. */
  ghost predicate OneGroupEach<T>(inner: seq<Inner<T>>, lo: nat, n: nat) {
    forall i :: lo <= i < n ==> OneGroupAt(inner, i)
  }

  lemma OneGroupMore<T>(inner: seq<Inner<T>>, lo: nat, n: nat)
    requires lo < n
    ensures OneGroupEach(inner, lo, n) <==> OneGroupAt(inner, lo) && OneGroupEach(inner, lo + 1, n)
  {
  }

  /** The paths of the instructions from lo on increase strictly. */
  ghost predicate Ordered<T>(tx: Transaction<T>, lo: nat)
    requires lo <= |tx.instructions|
  {
    PathsIncrease(Instructions(tx, lo))
  }

  lemma PathsStep<T>(tx: Transaction<T>, lo: nat)
    requires lo < |tx.instructions| && Numbered(InnerOf(tx))
    requires OuterNumbered(tx)
    ensures Ordered(tx, lo) <==> OneGroupAt(InnerOf(tx), lo) && Ordered(tx, lo + 1)
  {
    LaterPaths(tx, lo + 1);
    CalledPaths(InnerOf(tx), lo);
    CalledIncrease(InnerOf(tx), lo);
    ConcatIncrease(tx.instructions[lo], Joined(GroupsAt(InnerOf(tx), lo)), Instructions(tx, lo + 1), lo);
  }

  /** The paths handed out increase strictly exactly when no two non-empty inner
      groups share an index. */
  lemma {:induction false} PathsExact<T>(tx: Transaction<T>, lo: nat)
    requires lo <= |tx.instructions| && Numbered(InnerOf(tx))
    requires OuterNumbered(tx)
    ensures Ordered(tx, lo) <==> OneGroupEach(InnerOf(tx), lo, |tx.instructions|)
    decreases |tx.instructions| - lo
  {
    if lo < |tx.instructions| {
      PathsExact(tx, lo + 1);
      PathsStep(tx, lo);
      OneGroupMore(InnerOf(tx), lo, |tx.instructions|);
    }
  }

  lemma ConcatIncrease<T>(here: Instruction<T>, called: seq<Instruction<T>>, later: seq<Instruction<T>>, i: nat)
    requires here.index == [i]
    requires PairsFrom(called, i) && PathsFrom(later, i + 1)
    ensures PathsIncrease([here] + called + later) <==> PathsIncrease(called) && PathsIncrease(later)
  {
    var front := [here] + called;
    forall k | 0 <= k < |called| ensures Before([i], called[k].index) {
      assert called[k] in called && called[k].index == [i, called[k].index[1]];
      PairsBefore(i, called[k].index[1], 0);
    }
    TwoParts([here], called);
    forall p, k | 0 <= p < |front| && 0 <= k < |later| ensures Before(front[p].index, later[k].index) {
      assert later[k] in later;
      assert p > 0 ==> front[p] == called[p - 1] && called[p - 1] in called;
    }
    TwoParts(front, later);
  }

  /** When everything in one part comes before everything in the next, the paths
      increase exactly when they do in each part. */
  lemma TwoParts<T>(a: seq<Instruction<T>>, b: seq<Instruction<T>>)
    requires forall p, k :: 0 <= p < |a| && 0 <= k < |b| ==> Before(a[p].index, b[k].index)
    ensures PathsIncrease(a + b) <==> PathsIncrease(a) && PathsIncrease(b)
  {
    var all := a + b;
    if PathsIncrease(all) {
      forall p, q | 0 <= p < q < |a| ensures Before(a[p].index, a[q].index) {
        assert Before(all[p].index, all[q].index);
      }
      forall p, q | 0 <= p < q < |b| ensures Before(b[p].index, b[q].index) {
        assert Before(all[p + |a|].index, all[q + |a|].index);
      }
    }
  }

  // ----- the order of a whole block -----

  function ItemKey<T>(item: Item<T>): seq<nat> {
    match item
    case BlockItem => []
    case TransactionItem(t) => [t]
    case InstructionItem(t, x) => [t, 0] + x.index
    case LogItem(t, m) => [t, 1, m.logIndex]
  }

  ghost predicate ItemsIncrease<T>(items: seq<Item<T>>) {
    forall p, q :: 0 <= p < q < |items| ==> Before(ItemKey(items[p]), ItemKey(items[q]))
  }

  ghost predicate LogsIncrease(logs: seq<Message>) {
    forall p, q :: 0 <= p < q < |logs| ==> logs[p].logIndex < logs[q].logIndex
  }

  lemma {:induction false} CommonPrefix(p: seq<nat>, a: seq<nat>, b: seq<nat>)
    ensures Before(p + a, p + b) <==> Before(a, b)
  {
    if |p| == 0 {
      assert p + a == a && p + b == b;
    } else {
      assert (p + a)[1..] == p[1..] + a && (p + b)[1..] == p[1..] + b;
      CommonPrefix(p[1..], a, b);
    }
  }

  lemma ItemParts<T>(a: seq<Item<T>>, b: seq<Item<T>>)
    requires forall p, k :: 0 <= p < |a| && 0 <= k < |b| ==> Before(ItemKey(a[p]), ItemKey(b[k]))
    ensures ItemsIncrease(a + b) <==> ItemsIncrease(a) && ItemsIncrease(b)
  {
    var all := a + b;
    if ItemsIncrease(all) {
      forall p, q | 0 <= p < q < |a| ensures Before(ItemKey(a[p]), ItemKey(a[q])) {
        assert Before(ItemKey(all[p]), ItemKey(all[q]));
      }
      forall p, q | 0 <= p < q < |b| ensures Before(ItemKey(b[p]), ItemKey(b[q])) {
        assert Before(ItemKey(all[p + |a|]), ItemKey(all[q + |a|]));
      }
    }
  }

  lemma {:induction false} InstructionOrder<T>(t: nat, instructions: seq<Instruction<T>>)
    ensures ItemsIncrease(InstructionItems(t, instructions)) <==> PathsIncrease(instructions)
  {
    var items := InstructionItems(t, instructions);
    forall p, q | 0 <= p < q < |items|
      ensures Before(ItemKey(items[p]), ItemKey(items[q])) <==> Before(instructions[p].index, instructions[q].index)
    {
      CommonPrefix([t, 0], instructions[p].index, instructions[q].index);
    }
    if ItemsIncrease(items) {
      forall p, q | 0 <= p < q < |instructions| ensures Before(instructions[p].index, instructions[q].index) {
        assert Before(ItemKey(items[p]), ItemKey(items[q]));
      }
    }
  }

  lemma {:induction false} LogOrder<T>(t: nat, logs: seq<Message>)
    ensures ItemsIncrease<T>(LogItems(t, logs)) <==> LogsIncrease(logs)
  {
    var items: seq<Item<T>> := LogItems(t, logs);
    forall p, q | 0 <= p < q < |items|
      ensures Before(ItemKey(items[p]), ItemKey(items[q])) <==> logs[p].logIndex < logs[q].logIndex
    {
      var a, b := logs[p].logIndex, logs[q].logIndex;
      CommonPrefix([t, 1], [a], [b]);
      assert [t, 1] + [a] == [t, 1, a] && [t, 1] + [b] == [t, 1, b];
      assert [a][1..] == [] && [b][1..] == [];
    }
    if ItemsIncrease(items) {
      forall p, q | 0 <= p < q < |logs| ensures logs[p].logIndex < logs[q].logIndex {
        assert Before(ItemKey(items[p]), ItemKey(items[q]));
      }
    }
  }

  /** All keys start with t. */
  ghost predicate StartWith<T>(items: seq<Item<T>>, t: nat) {
    forall k :: 0 <= k < |items| ==> |ItemKey(items[k])| > 0 && ItemKey(items[k])[0] == t
  }

  ghost predicate StartFrom<T>(items: seq<Item<T>>, lo: nat) {
    forall k :: 0 <= k < |items| ==> |ItemKey(items[k])| > 0 && ItemKey(items[k])[0] >= lo
  }

  lemma TransactionFirst<T>(t: nat, x: Instruction<T>)
    ensures Before([t], [t, 0] + x.index)
  {
    assert ([t, 0] + x.index)[1..] == [0] + x.index && [t][1..] == [];
  }

  lemma LogsLast(t: nat, path: seq<nat>, m: nat)
    ensures Before([t], [t, 1, m]) && Before([t, 0] + path, [t, 1, m])
  {
    assert [t, 1, m][1..] == [1, m] && [t][1..] == [];
    assert ([t, 0] + path)[1..] == [0] + path;
  }

  lemma FrontOrder<T>(t: nat, instructions: seq<Instruction<T>>)
    ensures ItemsIncrease([TransactionItem(t)] + InstructionItems(t, instructions)) <==> PathsIncrease(instructions)
  {
    var first: seq<Item<T>> := [TransactionItem(t)];
    var middle := InstructionItems(t, instructions);
    forall p, k | 0 <= p < |first| && 0 <= k < |middle| ensures Before(ItemKey(first[p]), ItemKey(middle[k])) {
      TransactionFirst(t, instructions[k]);
    }
    ItemParts(first, middle);
    InstructionOrder(t, instructions);
    assert ItemsIncrease(first);
  }

  lemma TransactionOrder<T>(t: nat, tx: Transaction<T>)
    ensures StartWith(TransactionItems(t, tx), t)
    ensures ItemsIncrease(TransactionItems(t, tx)) <==> PathsIncrease(Instructions(tx, 0)) && LogsIncrease(Logs(tx))
  {
    var instructions, logs := Instructions(tx, 0), Logs(tx);
    ItemsStart(t, instructions, logs);
    LogsAfter(t, instructions, logs);
    ItemParts([TransactionItem(t)] + InstructionItems(t, instructions), LogItems(t, logs));
    FrontOrder(t, instructions);
    LogOrder<T>(t, logs);
  }

  lemma ItemsStart<T>(t: nat, instructions: seq<Instruction<T>>, logs: seq<Message>)
    ensures StartWith([TransactionItem(t)] + InstructionItems(t, instructions) + LogItems(t, logs), t)
  {
  }

  lemma LogsAfter<T>(t: nat, instructions: seq<Instruction<T>>, logs: seq<Message>)
    ensures var front, last := [TransactionItem(t)] + InstructionItems(t, instructions), LogItems<T>(t, logs);
            forall p, k :: 0 <= p < |front| && 0 <= k < |last| ==> Before(ItemKey(front[p]), ItemKey(last[k]))
  {
    var front, last := [TransactionItem(t)] + InstructionItems(t, instructions), LogItems<T>(t, logs);
    forall p, k | 0 <= p < |front| && 0 <= k < |last| ensures Before(ItemKey(front[p]), ItemKey(last[k])) {
      if p == 0 {
        LogsLast(t, [], logs[k].logIndex);
      } else {
        assert front[p] == InstructionItem(t, instructions[p - 1]);
        LogsLast(t, instructions[p - 1].index, logs[k].logIndex);
      }
    }
  }

  ghost predicate InOrder<T>(tx: Transaction<T>) {
    PathsIncrease(Instructions(tx, 0)) && LogsIncrease(Logs(tx))
  }

  lemma OtherTransactions<T>(here: seq<Item<T>>, later: seq<Item<T>>, lo: nat)
    requires StartWith(here, lo) && StartFrom(later, lo + 1)
    ensures StartFrom(here + later, lo)
    ensures ItemsIncrease(here + later) <==> ItemsIncrease(here) && ItemsIncrease(later)
  {
    ItemParts(here, later);
  }

  ghost predicate AllInOrder<T>(txs: seq<Transaction<T>>, lo: nat) {
    forall t :: lo <= t < |txs| ==> InOrder(txs[t])
  }

  lemma AllInOrderStep<T>(txs: seq<Transaction<T>>, lo: nat)
    requires lo < |txs|
    ensures AllInOrder(txs, lo) <==> InOrder(txs[lo]) && AllInOrder(txs, lo + 1)
  {
  }

  lemma {:induction false} LaterOrder<T>(txs: seq<Transaction<T>>, lo: nat)
    requires lo <= |txs|
    ensures StartFrom(ItemsFrom(txs, lo), lo)
    ensures ItemsIncrease(ItemsFrom(txs, lo)) <==> AllInOrder(txs, lo)
    decreases |txs| - lo
  {
    if lo < |txs| {
      LaterOrder(txs, lo + 1);
      TransactionOrder(lo, txs[lo]);
      OtherTransactions(TransactionItems(lo, txs[lo]), ItemsFrom(txs, lo + 1), lo);
      AllInOrderStep(txs, lo);
    }
  }

  /** Over a whole block: the block first, then for each transaction in turn the
      transaction, its instructions by path and its logs by index, all strictly
      increasing and so each once, exactly when this holds of the instructions and
      of the logs of each transaction. */
  lemma {:induction false} BlockOrder<T>(txs: seq<Transaction<T>>)
    ensures ItemsIncrease(BlockItems(txs)) <==> AllInOrder(txs, 0)
  {
    LaterOrder(txs, 0);
    var first: seq<Item<T>> := [BlockItem];
    ItemParts(first, ItemsFrom(txs, 0));
    assert ItemsIncrease(first);
  }

  // ----- the blocks that transformBlock builds -----

  function RawInnerOf<T>(raw: RawTransaction<T>): seq<RawInner<T>> {
    if raw.meta.Some? && raw.meta.value.innerInstructions.Some? then raw.meta.value.innerInstructions.value else []
  }

  /** No two non-empty groups belong to one top-level instruction. */
  ghost predicate DistinctGroups<T>(raw: RawTransaction<T>) {
    var inner := RawInnerOf(raw);
    forall p, q :: 0 <= p < q < |inner| && inner[p].index == inner[q].index < |raw.instructions| ==>
      |inner[p].instructions| == 0 || |inner[q].instructions| == 0
  }

  /** Every non-empty group belongs to some top-level instruction. */
  ghost predicate GroupsInRange<T>(raw: RawTransaction<T>) {
    forall g :: g in RawInnerOf(raw) && |g.instructions| > 0 ==> g.index < |raw.instructions|
  }

  /** The logs that come attributed are in order; the others are put in order. */
  ghost predicate OrderedLogs<T>(raw: RawTransaction<T>) {
    raw.meta.Some? && raw.meta.value.dictionaryLogs.Some? ==> LogsIncrease(raw.meta.value.dictionaryLogs.value)
  }

  function RawJoined<T>(groups: seq<RawInner<T>>): seq<T> {
    if |groups| == 0 then [] else groups[0].instructions + RawJoined(groups[1..])
  }

  function Raws<T>(instructions: seq<Instruction<T>>): seq<T> {
    seq(|instructions|, k requires 0 <= k < |instructions| => instructions[k].raw)
  }

  lemma TransformedShape<T>(raw: RawTransaction<T>, tx: Transaction<T>)
    requires TransformTransaction(raw) == Success(tx)
    ensures tx.instructions == WrapOuter(raw.instructions) && InnerOf(tx) == WrapAllInner(RawInnerOf(raw))
    ensures OuterNumbered(tx)
    ensures Numbered(InnerOf(tx))
  {
  }

  lemma TransformedLogs<T>(raw: RawTransaction<T>, tx: Transaction<T>)
    requires TransformTransaction(raw) == Success(tx)
    ensures LogsIncrease(Logs(tx)) <==> OrderedLogs(raw)
  {
    if raw.meta.Some? && raw.meta.value.dictionaryLogs.None? && raw.meta.value.logMessages.Some? {
      WrapLogsExact(raw.meta.value.logMessages.value);
    }
  }

  lemma DistinctExact<T>(raw: RawTransaction<T>)
    ensures DistinctGroups(raw) <==>
            forall i :: 0 <= i < |raw.instructions| ==> OneGroupAt(WrapAllInner(RawInnerOf(raw)), i)
  {
    var raws, inner := RawInnerOf(raw), WrapAllInner(RawInnerOf(raw));
    assert forall p :: 0 <= p < |raws| ==> inner[p] == WrapInner(raws[p]);
    if forall i :: 0 <= i < |raw.instructions| ==> OneGroupAt(inner, i) {
      forall p, q | 0 <= p < q < |raws| && raws[p].index == raws[q].index < |raw.instructions|
        ensures |raws[p].instructions| == 0 || |raws[q].instructions| == 0
      {
        assert OneGroupAt(inner, raws[p].index);
      }
    }
  }

  /** The items of one transaction increase exactly when no two non-empty groups
      belong to one instruction and attributed logs come in order. */
  lemma {:induction false} TransformedInOrder<T>(raw: RawTransaction<T>, tx: Transaction<T>)
    requires TransformTransaction(raw) == Success(tx)
    ensures InOrder(tx) <==> DistinctGroups(raw) && OrderedLogs(raw)
  {
    TransformedShape(raw, tx);
    TransformedLogs(raw, tx);
    DistinctExact(raw);
    PathsExact(tx, 0);
  }

  lemma RawsAppend<T>(a: seq<Instruction<T>>, b: seq<Instruction<T>>)
    ensures Raws(a + b) == Raws(a) + Raws(b)
  {
  }

  lemma {:induction false} RawsJoined<T>(raws: seq<RawInner<T>>)
    ensures Raws(Joined(WrapAllInner(raws))) == RawJoined(raws)
  {
    if |raws| > 0 {
      RawsJoined(raws[1..]);
      var inner := WrapAllInner(raws);
      assert inner[1..] == WrapAllInner(raws[1..]);
      RawsAppend(inner[0].instructions, Joined(inner[1..]));
      assert Raws(inner[0].instructions) == raws[0].instructions;
    }
  }

  /** Rearranged instructions come from rearranged raw ones. */
  lemma {:induction false} RawsRearranged<T>(a: seq<Instruction<T>>, b: seq<Instruction<T>>)
    requires multiset(a) == multiset(b)
    ensures multiset(Raws(a)) == multiset(Raws(b))
  {
    assert |a| == |multiset(a)| == |multiset(b)| == |b|;
    if |a| > 0 {
      var k := Counterpart(a, b);
      var rest := b[..k] + b[k + 1..];
      RawsRearranged(a[1..], rest);
      RawsRemove(a, 0, a[1..]);
      RawsRemove(b, k, rest);
    }
  }

  lemma Counterpart<T>(a: seq<T>, b: seq<T>) returns (k: nat)
    requires multiset(a) == multiset(b) && |a| > 0
    ensures k < |b| && b[k] == a[0] && multiset(a[1..]) == multiset(b[..k] + b[k + 1..])
  {
    assert a[0] in multiset(b);
    k :| 0 <= k < |b| && b[k] == a[0];
    MultisetRemove(a, 0);
    MultisetRemove(b, k);
    assert a[..0] + a[1..] == a[1..];
    Cancel(a[0], multiset(a[1..]), multiset(b[..k] + b[k + 1..]));
  }

  lemma RawsRemove<T>(xs: seq<Instruction<T>>, k: nat, rest: seq<Instruction<T>>)
    requires k < |xs| && rest == xs[..k] + xs[k + 1..]
    ensures multiset(Raws(xs)) == multiset{xs[k].raw} + multiset(Raws(rest))
  {
    MultisetRemove(Raws(xs), k);
    assert Raws(xs)[..k] + Raws(xs)[k + 1..] == Raws(rest);
  }

  lemma Cancel<T>(x: T, a: multiset<T>, b: multiset<T>)
    requires multiset{x} + a == multiset{x} + b
    ensures a == b
  {
    assert a == (multiset{x} + a) - multiset{x} && b == (multiset{x} + b) - multiset{x};
  }

  lemma MultisetRemove<T>(xs: seq<T>, k: nat)
    requires k < |xs|
    ensures multiset(xs) == multiset{xs[k]} + multiset(xs[..k] + xs[k + 1..])
  {
    assert xs == xs[..k] + ([xs[k]] + xs[k + 1..]);
  }

  lemma InRangeExact<T>(raw: RawTransaction<T>)
    ensures GroupsInRange(raw) <==>
            forall g :: g in WrapAllInner(RawInnerOf(raw)) && g.index >= |raw.instructions| ==> |g.instructions| == 0
  {
    var raws, inner := RawInnerOf(raw), WrapAllInner(RawInnerOf(raw));
    assert forall p :: 0 <= p < |raws| ==> inner[p] == WrapInner(raws[p]);
    forall g | g in raws ensures WrapInner(g) in inner {
      var p :| 0 <= p < |raws| && raws[p] == g;
      assert inner[p] == WrapInner(g);
    }
  }

  /** Of one transaction, exactly the raw instructions are handed out, each as often
      as it occurs, if and only if every non-empty group is in range. */
  lemma {:induction false} RawsConserved<T>(raw: RawTransaction<T>, tx: Transaction<T>)
    requires TransformTransaction(raw) == Success(tx)
    ensures multiset(Raws(Instructions(tx, 0))) == multiset(raw.instructions + RawJoined(RawInnerOf(raw))) <==>
            GroupsInRange(raw)
  {
    TransformedShape(raw, tx);
    InRangeExact(raw);
    InstructionsConserved(tx);
    var all := tx.instructions + Joined(InnerOf(tx));
    assert Raws(tx.instructions) == raw.instructions;
    RawsJoined(RawInnerOf(raw));
    RawsAppend(tx.instructions, Joined(InnerOf(tx)));
    MultisetConcat(tx.instructions, Joined(InnerOf(tx)));
    if GroupsInRange(raw) {
      RawsRearranged(Instructions(tx, 0), all);
    } else {
      SomeLost(tx);
      assert |multiset(Raws(Instructions(tx, 0)))| == |Instructions(tx, 0)| < |all| == |multiset(Raws(all))|;
    }
  }

  lemma SomeLost<T>(tx: Transaction<T>)
    requires exists g :: g in InnerOf(tx) && g.index >= |tx.instructions| && |g.instructions| > 0
    ensures |Instructions(tx, 0)| < |tx.instructions + Joined(InnerOf(tx))|
  {
    Conserved(tx, 0);
    OrphansAll(InnerOf(tx));
    NoOrphans(InnerOf(tx), |tx.instructions|);
    var all, lost := multiset(tx.instructions[0..]) + Lost(tx, 0), Lost(tx, |tx.instructions|);
    assert |multiset(Instructions(tx, 0)) + lost| == |Instructions(tx, 0)| + |lost|;
    assert |all| == |tx.instructions| + |Joined(InnerOf(tx))|;
  }

  lemma {:induction false} TransformedBlock<T>(raws: seq<RawTransaction<T>>, txs: seq<Transaction<T>>)
    requires TransformBlock(raws) == Success(txs)
    ensures |txs| == |raws|
    ensures forall t :: 0 <= t < |raws| ==> TransformTransaction(raws[t]) == Success(txs[t])
  {
    if |raws| > 0 {
      TransformedBlock(raws[1..], txs[1..]);
      assert forall t :: 0 < t < |raws| ==> raws[t] == raws[1..][t - 1] && txs[t] == txs[1..][t - 1];
    }
  }

  /** The items of one transaction. */
  function ItemsOf<T>(items: seq<Item<T>>, t: nat): seq<Item<T>> {
    if |items| == 0 then []
    else (if !items[0].BlockItem? && items[0].tx == t then [items[0]] else []) + ItemsOf(items[1..], t)
  }

  lemma {:induction false} ItemsOfAppend<T>(a: seq<Item<T>>, b: seq<Item<T>>, t: nat)
    ensures ItemsOf(a + b, t) == ItemsOf(a, t) + ItemsOf(b, t)
  {
    if |a| == 0 {
      assert a + b == b;
    } else {
      assert (a + b)[1..] == a[1..] + b;
      ItemsOfAppend(a[1..], b, t);
      Associative(if !a[0].BlockItem? && a[0].tx == t then [a[0]] else [], ItemsOf(a[1..], t), ItemsOf(b, t));
    }
  }

  ghost predicate AllOf<T>(items: seq<Item<T>>, t: nat) {
    forall k :: 0 <= k < |items| ==> !items[k].BlockItem? && items[k].tx == t
  }

  lemma TransactionItemsOf<T>(t: nat, tx: Transaction<T>)
    ensures AllOf(TransactionItems(t, tx), t)
  {
  }

  lemma {:induction false} ItemsOfOne<T>(items: seq<Item<T>>, s: nat, t: nat)
    requires AllOf(items, s)
    ensures ItemsOf(items, t) == if s == t then items else []
  {
    if |items| > 0 {
      ItemsOfOne(items[1..], s, t);
    }
  }

  lemma ItemsOfStep<T>(here: seq<Item<T>>, later: seq<Item<T>>, s: nat, t: nat)
    requires AllOf(here, s)
    ensures s != t ==> ItemsOf(here + later, t) == ItemsOf(later, t)
    ensures s == t && ItemsOf(later, t) == [] ==> ItemsOf(here + later, t) == here
  {
    ItemsOfOne(here, s, t);
    ItemsOfAppend(here, later, t);
    if s != t {
      assert [] + ItemsOf(later, t) == ItemsOf(later, t);
    } else if ItemsOf(later, t) == [] {
      assert here + [] == here;
    }
  }

  lemma ItemsFromStep<T>(txs: seq<Transaction<T>>, lo: nat, t: nat)
    requires lo < |txs|
    ensures t != lo ==> ItemsOf(ItemsFrom(txs, lo), t) == ItemsOf(ItemsFrom(txs, lo + 1), t)
    ensures t == lo && ItemsOf(ItemsFrom(txs, lo + 1), t) == [] ==>
              ItemsOf(ItemsFrom(txs, lo), t) == TransactionItems(lo, txs[lo])
  {
    TransactionItemsOf(lo, txs[lo]);
    ItemsOfStep(TransactionItems(lo, txs[lo]), ItemsFrom(txs, lo + 1), lo, t);
  }

  lemma {:induction false} NoItemsFrom<T>(txs: seq<Transaction<T>>, lo: nat, t: nat)
    requires t < lo <= |txs|
    ensures ItemsOf(ItemsFrom(txs, lo), t) == []
    decreases |txs| - lo
  {
    if lo < |txs| {
      NoItemsFrom(txs, lo + 1, t);
      ItemsFromStep(txs, lo, t);
    }
  }

  lemma {:induction false} ItemsOfFrom<T>(txs: seq<Transaction<T>>, lo: nat, t: nat)
    requires lo <= t < |txs|
    ensures ItemsOf(ItemsFrom(txs, lo), t) == TransactionItems(t, txs[t])
    decreases |txs| - lo
  {
    if lo < t {
      ItemsOfFrom(txs, lo + 1, t);
    } else {
      NoItemsFrom(txs, lo + 1, t);
    }
    ItemsFromStep(txs, lo, t);
  }

  /** A block from the endpoint, transformed and indexed, as any datasource sees it:
      it is given the block and then, for each transaction, the transaction, its
      instructions and its logs.  All this is strictly increasing, and so without
      repetition, exactly when in every transaction groups are distinct and
      attributed logs in order; and the instructions of a transaction are all its
      raw ones, each as often as it occurs, exactly when its groups are in range. */
  lemma {:induction false} BlockHandedOut<T>(raws: seq<RawTransaction<T>>, txs: seq<Transaction<T>>, n: nat, d: nat)
    requires TransformBlock(raws) == Success(txs) && d < n
    ensures |txs| == |raws|
    ensures var items := OnlyFor(Spread(BlockItems(txs), n), d);
            && |items| > 0 && items[0] == BlockItem
            && (forall t :: 0 <= t < |raws| ==> ItemsOf(items, t) == TransactionItems(t, txs[t]))
            && (ItemsIncrease(items) <==> forall t :: 0 <= t < |raws| ==> DistinctGroups(raws[t]) && OrderedLogs(raws[t]))
    ensures forall t :: 0 <= t < |raws| ==>
              (multiset(Raws(Instructions(txs[t], 0))) == multiset(raws[t].instructions + RawJoined(RawInnerOf(raws[t])))
               <==> GroupsInRange(raws[t]))
  {
    TransformedBlock(raws, txs);
    EachDatasource(BlockItems(txs), n, d);
    BlockOrder(txs);
    forall t | 0 <= t < |raws|
      ensures ItemsOf(BlockItems(txs), t) == TransactionItems(t, txs[t])
      ensures InOrder(txs[t]) <==> DistinctGroups(raws[t]) && OrderedLogs(raws[t])
      ensures multiset(Raws(Instructions(txs[t], 0))) == multiset(raws[t].instructions + RawJoined(RawInnerOf(raws[t])))
              <==> GroupsInRange(raws[t])
    {
      ItemsOfFrom(txs, 0, t);
      assert BlockItems(txs)[1..] == ItemsFrom(txs, 0);
      TransformedInOrder(raws[t], txs[t]);
      RawsConserved(raws[t], txs[t]);
    }
  }
}
