/** A transaction's calls as a tree, the log lines it prints, and the proof that
    wrapLogs reads the attribution back from the lines. */
module CallTree {
  import opened Wrappers
  import opened ProgramLogs
  import opened Seqs

  datatype Outcome = Succeeded | Failed(reason: string)

  datatype Item =
    | Log(text: string)
    | Data(text: string)
    | Return(text: string)
    | Consumption(text: string)
    | Consumed(address: string, text: string)
    | Noise(line: string)
    | Call(program: string, depth: string, body: seq<Item>, outcome: Outcome)

  /** Addresses are base58, which has neither spaces nor colons. */
  predicate IsAddress(a: string) {
    ' ' !in a && ':' !in a
  }

  predicate WellFormed(item: Item) {
    match item
    case Consumed(a, _) => IsAddress(a)
    case Noise(line) => !StartsWith(line, "Program")
    case Call(a, _, body, _) => IsAddress(a) && forall i | 0 <= i < |body| :: WellFormed(body[i])
    case _ => true
  }

  function ProgramLine(a: string, tail: string): string {
    "Program " + a + " " + tail
  }

  function EndLine(a: string, outcome: Outcome): string {
    ProgramLine(a, match outcome
                   case Succeeded => "success"
                   case Failed(reason) => "failed: " + reason)
  }

  function Print(item: Item): seq<string>
    decreases item, 0
  {
    match item
    case Log(t) => ["Program log:" + t]
    case Data(t) => ["Program data:" + t]
    case Return(t) => ["Program return:" + t]
    case Consumption(t) => ["Program consumption:" + t]
    case Consumed(a, t) => [ProgramLine(a, "consumed " + t)]
    case Noise(line) => [line]
    case Call(a, depth, body, outcome) =>
      [ProgramLine(a, "invoke " + depth)] + PrintAll(body) + [EndLine(a, outcome)]
  }

  function PrintAll(items: seq<Item>): seq<string>
    decreases items, 1
  {
    if |items| == 0 then [] else Print(items[0]) + PrintAll(items[1..])
  }

  /** The messages a program's items give when its lines start at `idx`: each has
      the program of the node that holds it. */
  function Messages(item: Item, owner: Option<string>, idx: nat): seq<Message>
    decreases item, 0
  {
    match item
    case Log(t) => [Message("Program log:" + t, owner, idx, LogKind)]
    case Data(t) => [Message("Program data:" + t, owner, idx, DataKind)]
    case Return(t) => [Message("Program return:" + t, owner, idx, OtherKind)]
    case Call(a, _, body, _) => AllMessages(body, Some(a), idx + 1)
    case _ => []
  }

  function AllMessages(items: seq<Item>, owner: Option<string>, idx: nat): seq<Message>
    decreases items, 1
  {
    if |items| == 0 then []
    else Messages(items[0], owner, idx) + AllMessages(items[1..], owner, idx + |Print(items[0])|)
  }

  // ----- reading one line -----

  /** A line about a program is not taken for a tagged line. */
  lemma {:induction false} NotTagged(a: string, tail: string, tag: string)
    requires IsAddress(a) && ' ' !in tag
    ensures !StartsWith(ProgramLine(a, tail), "Program " + tag + ":")
  {
    var line, prefix := ProgramLine(a, tail), "Program " + tag + ":";
    if |a| <= |tag| {
      assert line[8 + |a|] == ' ' != prefix[8 + |a|];
    } else {
      assert line[8 + |tag|] == a[|tag|] != prefix[8 + |tag|];
    }
  }

  lemma Untagged(a: string, tail: string)
    requires IsAddress(a)
    ensures Classify(ProgramLine(a, tail)) == ClassifyMode(Split(ProgramLine(a, tail)))
  {
    NotTagged(a, tail, "log");
    NotTagged(a, tail, "data");
    NotTagged(a, tail, "return");
    NotTagged(a, tail, "consumption");
    assert "Program " + "log" + ":" == "Program log:";
    assert "Program " + "data" + ":" == "Program data:";
    assert "Program " + "return" + ":" == "Program return:";
    assert "Program " + "consumption" + ":" == "Program consumption:";
    assert StartsWith(ProgramLine(a, tail), "Program");
  }

  lemma {:induction false} SplitProgramLine(a: string, tail: string)
    requires ' ' !in a
    ensures Split(ProgramLine(a, tail)) == ["Program", a] + Split(tail)
  {
    SplitKeyword(a + " " + tail);
    SplitWord(a, tail);
    Regroup(a, tail);
    assert ["Program"] + ([a] + Split(tail)) == ["Program", a] + Split(tail);
  }

  lemma SplitKeyword(rest: string)
    ensures Split("Program " + rest) == ["Program"] + Split(rest)
  {
    SplitWord("Program", rest);
    assert "Program" + " " == "Program ";
  }

  lemma Regroup(a: string, tail: string)
    ensures ProgramLine(a, tail) == "Program " + (a + " " + tail)
  {
    Associative("Program ", a + " ", tail);
    Associative("Program ", a, " ");
  }

  lemma {:induction false} ReadProgramLine(a: string, mode: string, rest: string)
    requires IsAddress(a) && ' ' !in mode
    ensures Classify(ProgramLine(a, mode + " " + rest)) == ClassifyMode(["Program", a, mode] + Split(rest))
    ensures Classify(ProgramLine(a, mode)) == ClassifyMode(["Program", a, mode])
  {
    SplitWord(mode, rest);
    Untagged(a, mode + " " + rest);
    Untagged(a, mode);
    SplitProgramLine(a, mode + " " + rest);
    SplitProgramLine(a, mode);
    assert ["Program", a] + ([mode] + Split(rest)) == ["Program", a, mode] + Split(rest);
    assert ["Program", a] + [mode] == ["Program", a, mode];
  }

  lemma {:induction false} ReadTagged(t: string)
    ensures Classify("Program log:" + t) == Emit(LogKind)
    ensures Classify("Program data:" + t) == Emit(DataKind)
    ensures Classify("Program return:" + t) == Emit(OtherKind)
    ensures Classify("Program consumption:" + t) == Skip
  {
    assert ("Program data:" + t)[8] == 'd';
    assert ("Program return:" + t)[8] == 'r';
    assert ("Program consumption:" + t)[8] == 'c';
    assert "Program log:"[8] == 'l' && "Program data:"[8] == 'd' && "Program return:"[8] == 'r';
  }

  lemma {:induction false} ReadMode(a: string, rest: string)
    requires IsAddress(a)
    ensures Classify(ProgramLine(a, "invoke " + rest)) == Push(a)
    ensures Classify(ProgramLine(a, "consumed " + rest)) == Skip
    ensures Classify(EndLine(a, Failed(rest))) == Pop
    ensures Classify(EndLine(a, Succeeded)) == Pop
  {
    assert "invoke" + " " + rest == "invoke " + rest;
    assert "consumed" + " " + rest == "consumed " + rest;
    assert "failed:" + " " + rest == "failed: " + rest;
    ReadProgramLine(a, "invoke", rest);
    ReadProgramLine(a, "consumed", rest);
    ReadProgramLine(a, "failed:", rest);
    ReadProgramLine(a, "success", rest);
  }

  // ----- reading a tree -----

  lemma {:induction false} ScanOne(line: string, idx: nat, m: Machine)
    ensures Scan([line], idx, m) == Step(m, idx, line)
  {
    var r := Step(m, idx, line);
    if r.Success? {
      assert Scan([], idx + 1, r.value) == Success(r.value);
    }
  }

  /** The machine after an item: the stack as before, the item's messages added. */
  function After(m: Machine, added: seq<Message>): Machine {
    m.(out := m.out + added)
  }

  /** Reading the lines adds exactly these messages. */
  predicate Adds(lines: seq<string>, idx: nat, m: Machine, added: seq<Message>) {
    Scan(lines, idx, m) == Success(After(m, added))
  }

  lemma {:induction false} PrintScans(item: Item, idx: nat, m: Machine)
    requires WellFormed(item)
    ensures Adds(Print(item), idx, m, Messages(item, Top(m.stack), idx))
    decreases item, 1
  {
    match item
    case Log(t) => ReadTagged(t); ScanOne("Program log:" + t, idx, m);
    case Data(t) => ReadTagged(t); ScanOne("Program data:" + t, idx, m);
    case Return(t) => ReadTagged(t); ScanOne("Program return:" + t, idx, m);
    case Consumption(t) =>
      ReadTagged(t);
      ScanOne("Program consumption:" + t, idx, m);
      assert m.out + [] == m.out;
    case Consumed(a, t) =>
      ReadMode(a, t);
      ScanOne(ProgramLine(a, "consumed " + t), idx, m);
      assert m.out + [] == m.out;
    case Noise(line) =>
      NoiseIsSkipped(line);
      ScanOne(line, idx, m);
      assert m.out + [] == m.out;
    case Call(a, depth, body, outcome) =>
      CallScans(item, idx, m);
  }

  lemma NoiseIsSkipped(line: string)
    requires !StartsWith(line, "Program")
    ensures Classify(line) == Skip
  {
    assert "Program log:"[..7] == "Program data:"[..7] == "Program return:"[..7] == "Program";
    assert "Program consumption:"[..7] == "Program";
  }

  lemma {:induction false} CallScans(item: Item, idx: nat, m: Machine)
    requires item.Call? && WellFormed(item)
    ensures Adds(Print(item), idx, m, Messages(item, Top(m.stack), idx))
    decreases item, 0
  {
    var Call(a, depth, body, outcome) := item;
    var first, last := ProgramLine(a, "invoke " + depth), EndLine(a, outcome);
    ReadMode(a, if outcome.Failed? then outcome.reason else "");
    ReadMode(a, depth);
    var pushed := m.(stack := m.stack + [a]);
    ScanOne(first, idx, m);
    ScanAppend([first] + PrintAll(body), [last], idx, m);
    ScanAppend([first], PrintAll(body), idx, m);
    PrintAllScans(body, idx + 1, pushed);
    var inside := After(pushed, AllMessages(body, Some(a), idx + 1));
    ScanOne(last, idx + 1 + |PrintAll(body)|, inside);
    assert inside.stack[..|inside.stack| - 1] == m.stack;
  }

  lemma ScanBoth(a: seq<string>, b: seq<string>, idx: nat, m: Machine, first: seq<Message>, rest: seq<Message>)
    requires Adds(a, idx, m, first) && Adds(b, idx + |a|, After(m, first), rest)
    ensures Adds(a + b, idx, m, first + rest)
  {
    ScanAppend(a, b, idx, m);
    AfterBoth(m, first, rest);
  }

  lemma AfterBoth(m: Machine, a: seq<Message>, b: seq<Message>)
    ensures After(After(m, a), b) == After(m, a + b)
  {
    Associative(m.out, a, b);
  }

  lemma PrintAllParts(items: seq<Item>, owner: Option<string>, idx: nat)
    requires |items| > 0
    ensures PrintAll(items) == Print(items[0]) + PrintAll(items[1..])
    ensures AllMessages(items, owner, idx) ==
            Messages(items[0], owner, idx) + AllMessages(items[1..], owner, idx + |Print(items[0])|)
  {
  }

  lemma PrintMore(items: seq<Item>, idx: nat, m: Machine, first: seq<Message>, later: seq<Message>)
    requires |items| > 0 && first == Messages(items[0], Top(m.stack), idx)
    requires later == AllMessages(items[1..], Top(m.stack), idx + |Print(items[0])|)
    requires Adds(Print(items[0]), idx, m, first)
    requires Adds(PrintAll(items[1..]), idx + |Print(items[0])|, After(m, first), later)
    ensures Adds(PrintAll(items), idx, m, AllMessages(items, Top(m.stack), idx))
  {
    ScanBoth(Print(items[0]), PrintAll(items[1..]), idx, m, first, later);
    PrintAllParts(items, Top(m.stack), idx);
  }

  predicate AllWellFormed(items: seq<Item>) {
    forall i | 0 <= i < |items| :: WellFormed(items[i])
  }

  lemma {:induction false} PrintAllScans(items: seq<Item>, idx: nat, m: Machine)
    requires AllWellFormed(items)
    ensures Adds(PrintAll(items), idx, m, AllMessages(items, Top(m.stack), idx))
    decreases items
  {
    if |items| == 0 {
      assert m.out + [] == m.out;
    } else {
      var next := idx + |Print(items[0])|;
      var first, later := Messages(items[0], Top(m.stack), idx), AllMessages(items[1..], Top(m.stack), next);
      PrintScans(items[0], idx, m);
      PrintAllScans(items[1..], next, After(m, first));
      PrintMore(items, idx, m, first, later);
    }
  }

  /** For every call tree, reading its printed lines gives each message the
      program of the node that wrote it and leaves the stack empty. */
  lemma {:induction false} RoundTrip(items: seq<Item>)
    requires AllWellFormed(items)
    ensures Scan(PrintAll(items), 0, START) == Success(Machine([], AllMessages(items, None, 0)))
  {
    PrintAllScans(items, 0, START);
    assert [] + AllMessages(items, None, 0) == AllMessages(items, None, 0);
  }
}
