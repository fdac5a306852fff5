/** Attributing the log lines of a transaction to the programs that wrote them. */
module ProgramLogs {
  import opened Wrappers

  // ----- text -----

  predicate StartsWith(s: string, prefix: string) {
    prefix <= s
  }

  /** `s.split(' ')`. */
  function Split(s: string): (r: seq<string>)
    ensures |r| > 0
  {
    if s == "" then [""]
    else if s[0] == ' ' then [""] + Split(s[1..])
    else var r := Split(s[1..]); [[s[0]] + r[0]] + r[1..]
  }

  function Join(pieces: seq<string>): string
    requires |pieces| > 0
  {
    if |pieces| == 1 then pieces[0] else pieces[0] + " " + Join(pieces[1..])
  }

  /** The pieces hold no separator and joining them gives the text back. */
  lemma {:induction false} SplitExact(s: string)
    ensures Join(Split(s)) == s
    ensures forall p :: p in Split(s) ==> ' ' !in p
  {
    if s != "" {
      SplitExact(s[1..]);
      var r := Split(s[1..]);
      assert s == [s[0]] + s[1..];
      if s[0] == ' ' {
        assert ([""] + r)[1..] == r;
      } else if |r| > 1 {
        assert Split(s)[1..] == r[1..];
        assert [s[0]] + (r[0] + " " + Join(r[1..])) == ([s[0]] + r[0]) + " " + Join(r[1..]);
      }
    }
  }

  lemma {:induction false} SplitWord(w: string, rest: string)
    requires ' ' !in w
    ensures Split(w + " " + rest) == [w] + Split(rest)
    ensures Split(w) == [w]
  {
    var s := w + " " + rest;
    if w == "" {
      assert s[1..] == rest;
    } else {
      SplitWord(w[1..], rest);
      assert s[1..] == w[1..] + " " + rest;
      assert [s[0]] + w[1..] == w;
      assert ([w[1..]] + Split(rest))[1..] == Split(rest);
    }
  }

  // ----- wrapLogs -----

  datatype Kind = LogKind | DataKind | OtherKind

  datatype Message = Message(message: string, programId: Option<string>, logIndex: nat, kind: Kind)

  datatype LogError = UnknownMode(line: string)

  /** What one line makes wrapLogs do. */
  datatype Action = Emit(kind: Kind) | Push(program: string) | Pop | Skip | Reject

  function Classify(line: string): Action {
    if StartsWith(line, "Program log:") then Emit(LogKind)
    else if StartsWith(line, "Program data:") then Emit(DataKind)
    else if StartsWith(line, "Program return:") then Emit(OtherKind)
    else if StartsWith(line, "Program consumption:") then Skip
    else if StartsWith(line, "Program") then ClassifyMode(Split(line))
    else Skip
  }

  /** The second piece is the program's address, the third says what it does. */
  function ClassifyMode(pieces: seq<string>): Action {
    if |pieces| < 3 then Reject
    else if pieces[2] == "invoke" then Push(pieces[1])
    else if pieces[2] == "success" then Pop
    else if pieces[2] == "consumed" then Skip
    else if pieces[2] == "failed:" then Pop
    else Reject
  }

  function Top(stack: seq<string>): Option<string> {
    if |stack| == 0 then None else Some(stack[|stack| - 1])
  }

  datatype Machine = Machine(stack: seq<string>, out: seq<Message>)

  const START := Machine([], [])

  function Step(m: Machine, idx: nat, line: string): Result<Machine, LogError> {
    Apply(m, idx, line, Classify(line))
  }

  function Apply(m: Machine, idx: nat, line: string, a: Action): Result<Machine, LogError> {
    match a
    case Emit(kind) => Success(m.(out := m.out + [Message(line, Top(m.stack), idx, kind)]))
    case Push(program) => Success(m.(stack := m.stack + [program]))
    case Pop => Success(if |m.stack| == 0 then m else m.(stack := m.stack[..|m.stack| - 1]))
    case Skip => Success(m)
    case Reject => Failure(UnknownMode(line))
  }

  function Scan(lines: seq<string>, idx: nat, m: Machine): Result<Machine, LogError> {
    if |lines| == 0 then Success(m)
    else
      match Step(m, idx, lines[0])
      case Failure(e) => Failure(e)
      case Success(m') => Scan(lines[1..], idx + 1, m')
  }

  method WrapLogs(logs: Option<seq<string>>) returns (r: Result<Option<seq<Message>>, LogError>)
    ensures logs.None? ==> r == Success(None)
    ensures logs.Some? ==>
              r == match Scan(logs.value, 0, START)
                   case Failure(e) => Failure(e)
                   case Success(m) => Success(Some(m.out))
  {
    if logs.None? {
      return Success(None);
    }
    var lines := logs.value;
    var res: seq<Message> := [];
    var instructionPath: seq<string> := [];
    for idx := 0 to |lines|
      invariant Scan(lines[idx..], idx, Machine(instructionPath, res)) == Scan(lines, 0, START)
    {
      assert lines[idx..][1..] == lines[idx + 1..];
      var log := lines[idx];
      if StartsWith(log, "Program log:") {
        res := res + [Message(log, Top(instructionPath), idx, LogKind)];
      } else if StartsWith(log, "Program data:") {
        res := res + [Message(log, Top(instructionPath), idx, DataKind)];
      } else if StartsWith(log, "Program return:") {
        res := res + [Message(log, Top(instructionPath), idx, OtherKind)];
      } else if StartsWith(log, "Program consumption:") {
      } else if StartsWith(log, "Program") {
        var pieces := Split(log);
        var mode := if |pieces| > 2 then pieces[2] else "";
        if mode == "invoke" {
          instructionPath := instructionPath + [pieces[1]];
        } else if mode == "success" || mode == "failed:" {
          if |instructionPath| > 0 {
            instructionPath := instructionPath[..|instructionPath| - 1];
          }
        } else if mode != "consumed" {
          return Failure(UnknownMode(log));
        }
      }
    }
    return Success(Some(res));
  }

  lemma {:induction false} ScanAppend(a: seq<string>, b: seq<string>, idx: nat, m: Machine)
    ensures Scan(a + b, idx, m) ==
            match Scan(a, idx, m)
            case Failure(e) => Failure(e)
            case Success(m') => Scan(b, idx + |a|, m')
  {
    if |a| == 0 {
      assert a + b == b;
    } else {
      assert (a + b)[1..] == a[1..] + b;
      var r := Step(m, idx, a[0]);
      if r.Success? {
        ScanAppend(a[1..], b, idx + 1, r.value);
      }
    }
  }

  // ----- any lines: who wrote what -----

  function Actions(logs: seq<string>): seq<Action> {
    seq(|logs|, i requires 0 <= i < |logs| => Classify(logs[i]))
  }

  ghost function Effect(a: Action): int {
    if a.Push? then 1 else if a.Pop? then -1 else 0
  }

  /** Invokes minus ends among the lines lo..hi-1. */
  ghost function Net(acts: seq<Action>, lo: nat, hi: nat): int
    requires lo <= hi <= |acts|
    decreases hi
  {
    if lo == hi then 0 else Net(acts, lo, hi - 1) + Effect(acts[hi - 1])
  }

  /** Line j invokes a program that has not ended before line i. */
  ghost predicate Running(acts: seq<Action>, j: nat, i: nat)
    requires i <= |acts|
  {
    && j < i
    && acts[j].Push?
    && forall m {:trigger Net(acts, j + 1, m)} :: j < m <= i ==> Net(acts, j + 1, m) >= 0
  }

  /** The program of the last invoke still running at line i, if there is one. */
  ghost predicate IsInnermost(acts: seq<Action>, i: nat, program: Option<string>)
    requires i <= |acts|
  {
    match program
    case None => forall j: nat :: !Running(acts, j, i)
    case Some(p) =>
      exists j: nat :: Running(acts, j, i) && acts[j] == Push(p)
                       && forall k: nat :: Running(acts, k, i) ==> k <= j
  }

  function Next(below: seq<nat>, i: nat, a: Action): seq<nat> {
    match a
    case Push(_) => below + [i]
    case Pop => if |below| == 0 then below else below[..|below| - 1]
    case _ => below
  }

  /** The machine's stack, as positions of the invoke lines. */
  ghost function Positions(acts: seq<Action>, i: nat): seq<nat>
    requires i <= |acts|
  {
    if i == 0 then [] else Next(Positions(acts, i - 1), i - 1, acts[i - 1])
  }

  /** The positions are those of running invokes, innermost last; as many invokes
      have been opened after each of them as stand above it. */
  ghost predicate AreRunning(acts: seq<Action>, i: nat, ps: seq<nat>)
    requires i <= |acts|
  {
    && (forall a, b :: 0 <= a < b < |ps| ==> ps[a] < ps[b])
    && (forall a :: 0 <= a < |ps| ==> Running(acts, ps[a], i) && Net(acts, ps[a] + 1, i) == |ps| - 1 - a)
  }

  ghost predicate AreAll(acts: seq<Action>, i: nat, ps: seq<nat>)
    requires i <= |acts|
  {
    forall j: nat :: Running(acts, j, i) ==> exists a :: 0 <= a < |ps| && ps[a] == j
  }

  lemma {:induction false} PositionsExact(acts: seq<Action>, i: nat)
    requires i <= |acts|
    ensures AreRunning(acts, i, Positions(acts, i)) && AreAll(acts, i, Positions(acts, i))
  {
    if i > 0 {
      PositionsExact(acts, i - 1);
      PositionsStep(acts, i, Positions(acts, i - 1));
    }
  }

  /** What one more line does to a running invoke. */
  lemma RunningStep(acts: seq<Action>, j: nat, i: nat)
    requires i < |acts|
    ensures Running(acts, j, i + 1) <==>
            if j < i then Running(acts, j, i) && Net(acts, j + 1, i + 1) >= 0 else j == i && acts[i].Push?
    ensures j < i ==> Net(acts, j + 1, i + 1) == Net(acts, j + 1, i) + Effect(acts[i])
    ensures j == i ==> Net(acts, j + 1, i + 1) == 0
  {
  }

  lemma {:induction false} PositionsStep(acts: seq<Action>, n: nat, below: seq<nat>)
    requires 0 < n <= |acts| && AreRunning(acts, n - 1, below) && AreAll(acts, n - 1, below)
    ensures AreRunning(acts, n, Next(below, n - 1, acts[n - 1]))
    ensures AreAll(acts, n, Next(below, n - 1, acts[n - 1]))
  {
    RunningNext(acts, n - 1, below);
    var ps := Next(below, n - 1, acts[n - 1]);
    forall j: nat | Running(acts, j, n) ensures exists a :: 0 <= a < |ps| && ps[a] == j {
      IsListed(acts, n - 1, below, j);
    }
  }

  lemma {:induction false} RunningNext(acts: seq<Action>, i: nat, below: seq<nat>)
    requires i < |acts| && AreRunning(acts, i, below)
    ensures AreRunning(acts, i + 1, Next(below, i, acts[i]))
  {
    var ps, n := Next(below, i, acts[i]), i + 1;
    forall a | 0 <= a < |ps| ensures Running(acts, ps[a], n) && Net(acts, ps[a] + 1, n) == |ps| - 1 - a {
      StillRunning(acts, i, below, a);
    }
    forall a | 0 <= a < |below| ensures below[a] < i {
      assert Running(acts, below[a], i);
    }
  }

  lemma {:induction false} StillRunning(acts: seq<Action>, i: nat, below: seq<nat>, a: nat)
    requires i < |acts| && AreRunning(acts, i, below) && a < |Next(below, i, acts[i])|
    ensures var ps := Next(below, i, acts[i]);
            Running(acts, ps[a], i + 1) && Net(acts, ps[a] + 1, i + 1) == |ps| - 1 - a
  {
    var ps := Next(below, i, acts[i]);
    if a < |below| {
      assert ps[a] == below[a] && Running(acts, below[a], i);
    }
    RunningStep(acts, ps[a], i);
  }

  lemma {:induction false} IsListed(acts: seq<Action>, i: nat, below: seq<nat>, j: nat)
    requires i < |acts| && AreRunning(acts, i, below) && AreAll(acts, i, below) && Running(acts, j, i + 1)
    ensures var ps := Next(below, i, acts[i]); exists a :: 0 <= a < |ps| && ps[a] == j
  {
    RunningStep(acts, j, i);
    var ps := Next(below, i, acts[i]);
    if j < i {
      var a :| 0 <= a < |below| && below[a] == j;
      assert Net(acts, below[a] + 1, i) == |below| - 1 - a;
      assert ps[a] == j;
    } else {
      assert ps[|below|] == j;
    }
  }

  /** A message of the output, described by the line it came from. */
  ghost predicate Attributed(logs: seq<string>, acts: seq<Action>, m: Message)
    requires |acts| == |logs|
  {
    && m.logIndex < |logs|
    && m.message == logs[m.logIndex]
    && acts[m.logIndex] == Emit(m.kind)
    && IsInnermost(acts, m.logIndex, m.programId)
  }

  /** The output for the first i lines: one message for each log, data or return
      line, in order. */
  ghost predicate OutputExact(logs: seq<string>, acts: seq<Action>, i: nat, out: seq<Message>)
    requires i <= |acts| == |logs|
  {
    && (forall a :: 0 <= a < |out| ==> Attributed(logs, acts, out[a]) && out[a].logIndex < i)
    && (forall a, b :: 0 <= a < b < |out| ==> out[a].logIndex < out[b].logIndex)
    && (forall j :: 0 <= j < i && acts[j].Emit? ==> exists a :: 0 <= a < |out| && out[a].logIndex == j)
  }

  ghost predicate StackExact(acts: seq<Action>, i: nat, stack: seq<string>)
    requires i <= |acts|
  {
    var ps := Positions(acts, i);
    && |stack| == |ps|
    && forall a :: 0 <= a < |ps| ==> ps[a] < i && acts[ps[a]] == Push(stack[a])
  }

  lemma {:induction false} TopIsInnermost(acts: seq<Action>, i: nat, stack: seq<string>)
    requires i <= |acts| && StackExact(acts, i, stack)
    ensures IsInnermost(acts, i, Top(stack))
  {
    PositionsExact(acts, i);
    var ps := Positions(acts, i);
    if |ps| > 0 {
      var j := ps[|ps| - 1];
      assert Running(acts, j, i) && acts[j] == Push(stack[|ps| - 1]);
      forall k: nat | Running(acts, k, i) ensures k <= j {
        var a :| 0 <= a < |ps| && ps[a] == k;
      }
    }
  }

  lemma {:induction false} OutputStep(logs: seq<string>, acts: seq<Action>, i: nat, out: seq<Message>, m: Message)
    requires i < |acts| == |logs| && OutputExact(logs, acts, i, out)
    requires Attributed(logs, acts, m) && m.logIndex == i
    ensures OutputExact(logs, acts, i + 1, out + [m])
  {
    var out' := out + [m];
    assert out'[|out|] == m;
    forall j | 0 <= j < i + 1 && acts[j].Emit? ensures exists a :: 0 <= a < |out'| && out'[a].logIndex == j {
      if j < i {
        var a :| 0 <= a < |out| && out[a].logIndex == j;
        assert out'[a] == out[a];
      }
    }
  }

  lemma StackStep(acts: seq<Action>, i: nat, stack: seq<string>)
    requires i < |acts| && StackExact(acts, i, stack)
    ensures StackExact(acts, i + 1, match acts[i]
                                    case Push(program) => stack + [program]
                                    case Pop => if |stack| == 0 then stack else stack[..|stack| - 1]
                                    case _ => stack)
  {
  }

  lemma {:induction false} StepExact(logs: seq<string>, acts: seq<Action>, i: nat, m: Machine)
    requires i < |acts| == |logs| && !acts[i].Reject?
    requires StackExact(acts, i, m.stack) && OutputExact(logs, acts, i, m.out)
    ensures var r := Apply(m, i, logs[i], acts[i]);
            && r.Success?
            && StackExact(acts, i + 1, r.value.stack)
            && OutputExact(logs, acts, i + 1, r.value.out)
  {
    StackStep(acts, i, m.stack);
    if acts[i].Emit? {
      TopIsInnermost(acts, i, m.stack);
      OutputStep(logs, acts, i, m.out, Message(logs[i], Top(m.stack), i, acts[i].kind));
    }
  }

  ghost predicate Classified(logs: seq<string>, acts: seq<Action>) {
    && |acts| == |logs|
    && forall i {:trigger Classify(logs[i])} :: 0 <= i < |logs| ==> acts[i] == Classify(logs[i])
  }

  ghost predicate NoRejects(acts: seq<Action>, i: nat) {
    forall j :: i <= j < |acts| ==> !acts[j].Reject?
  }

  lemma NoRejectsStep(acts: seq<Action>, i: nat)
    requires i < |acts|
    ensures NoRejects(acts, i) <==> !acts[i].Reject? && NoRejects(acts, i + 1)
  {
  }

  /** The lines from i on are read without an error exactly when none is rejected. */
  lemma {:induction false} ScanExact(logs: seq<string>, acts: seq<Action>, i: nat, m: Machine)
    requires Classified(logs, acts) && i <= |acts|
    requires StackExact(acts, i, m.stack) && OutputExact(logs, acts, i, m.out)
    ensures var r := Scan(logs[i..], i, m);
            && (r.Success? <==> NoRejects(acts, i))
            && (r.Success? ==> OutputExact(logs, acts, |logs|, r.value.out))
    decreases |logs| - i
  {
    if i < |logs| {
      ScanFrom(logs, acts, i, m);
      NoRejectsStep(acts, i);
      if !acts[i].Reject? {
        StepExact(logs, acts, i, m);
        ScanExact(logs, acts, i + 1, Apply(m, i, logs[i], acts[i]).value);
      }
    }
  }

  lemma ScanFrom(logs: seq<string>, acts: seq<Action>, i: nat, m: Machine)
    requires Classified(logs, acts) && i < |logs|
    ensures Scan(logs[i..], i, m) ==
            match Apply(m, i, logs[i], acts[i])
            case Failure(e) => Failure(e)
            case Success(m') => Scan(logs[i + 1..], i + 1, m')
  {
    assert acts[i] == Classify(logs[i]);
    assert logs[i..][0] == logs[i] && logs[i..][1..] == logs[i + 1..];
  }

  /** On any lines: wrapLogs throws exactly when a line has an unknown mode;
      otherwise the output is one message for each log, data or return line, in
      order, each with its line's text, index and kind and with the program of
      the last invoke still running there. */
  lemma {:induction false} WrapLogsExact(logs: seq<string>)
    ensures var r := Scan(logs, 0, START);
            && (r.Success? <==> forall j :: 0 <= j < |logs| ==> !Actions(logs)[j].Reject?)
            && (r.Success? ==> OutputExact(logs, Actions(logs), |logs|, r.value.out))
  {
    assert logs[0..] == logs;
    assert Classified(logs, Actions(logs));
    ScanExact(logs, Actions(logs), 0, START);
  }
}
