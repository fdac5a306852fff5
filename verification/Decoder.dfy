/** Discriminators: resolving names through an IDL, and the memoised lookup. */
module Decoder {
  import opened Wrappers
  import opened Bytes
  import Json
  import Filters

  // ----- IDLs -----

  datatype DefaultValue = NoDefault | NumberValue(n: int) | BytesValue(bytes: seq<Byte>) | OtherValue

  datatype Argument = Argument(name: string, default: DefaultValue)

  datatype InstructionNode = InstructionNode(name: string, arguments: seq<Argument>)

  datatype Idl = Idl(instructions: seq<InstructionNode>)

  /** The string functions of other libraries. */
  datatype Codec = Codec(
    isHex: string -> bool,
    fromHex: string -> seq<Byte>,
    camelCase: string -> string,
    fromBase58: string -> Option<seq<Byte>>)

  function FindArgument(arguments: seq<Argument>, name: string): Option<Argument> {
    if |arguments| == 0 then None
    else if arguments[0].name == name then Some(arguments[0])
    else FindArgument(arguments[1..], name)
  }

  /** `getInstructionDiscriminatorBytes`; absent where it throws.  A number is
      stored in one byte, modulo 256. */
  function DiscriminatorBytes(node: InstructionNode): Option<seq<Byte>> {
    match FindArgument(node.arguments, "discriminator")
    case None => None
    case Some(argument) =>
      match argument.default
      case NumberValue(n) => Some([n % 256])
      case BytesValue(bytes) => Some(bytes)
      case _ => None
  }

  /** Does the data start with the node's discriminator? */
  predicate Begins(node: InstructionNode, data: seq<Byte>) {
    DiscriminatorBytes(node).Some? && DiscriminatorBytes(node).value <= data
  }

  /** The position of the first node, from `lo` on, whose discriminator the data
      starts with. */
  function FindForData(nodes: seq<InstructionNode>, data: seq<Byte>, lo: nat): (r: Option<nat>)
    requires lo <= |nodes|
    ensures match r
            case None => forall i :: lo <= i < |nodes| ==> !Begins(nodes[i], data)
            case Some(k) => lo <= k < |nodes| && Begins(nodes[k], data) && forall i :: lo <= i < k ==> !Begins(nodes[i], data)
    decreases |nodes| - lo
  {
    if lo == |nodes| then None
    else if Begins(nodes[lo], data) then Some(lo)
    else FindForData(nodes, data, lo + 1)
  }

  predicate Named(codec: Codec, node: InstructionNode, name: string) {
    node.name == name || node.name == codec.camelCase(name)
  }

  function FindByName(codec: Codec, nodes: seq<InstructionNode>, name: string, lo: nat): (r: Option<nat>)
    requires lo <= |nodes|
    ensures match r
            case None => forall i :: lo <= i < |nodes| ==> !Named(codec, nodes[i], name)
            case Some(k) => lo <= k < |nodes| && Named(codec, nodes[k], name)
                            && forall i :: lo <= i < k ==> !Named(codec, nodes[i], name)
    decreases |nodes| - lo
  {
    if lo == |nodes| then None
    else if Named(codec, nodes[lo], name) then Some(lo)
    else FindByName(codec, nodes, name, lo + 1)
  }

  function DiscriminatorByName(codec: Codec, idl: Idl, name: string): Option<seq<Byte>> {
    match FindByName(codec, idl.instructions, name, 0)
    case None => None
    case Some(k) => DiscriminatorBytes(idl.instructions[k])
  }

  // ----- the lookup without its cache -----

  /** An IDL may also be loaded as null. */
  type Idls = map<string, Option<Idl>>

  predicate Loaded(idls: Idls, name: string) {
    name in idls && idls[name].Some?
  }

  /** An absent program indexes the record by the text "undefined". */
  function PropertyName(programId: Option<string>): string {
    if programId.Some? then programId.value else "undefined"
  }

  function Uncached(codec: Codec, idls: Idls, input: string, programId: Option<string>): Result<seq<Byte>, string> {
    if codec.isHex(input) then Success(codec.fromHex(input))
    else
      var name := PropertyName(programId);
      if !Loaded(idls, name) then Failure("Unable to find IDL for program " + name)
      else
        match DiscriminatorByName(codec, idls[name].value, input)
        case Some(d) => Success(d)
        case None =>
          match codec.fromBase58(input)
          case Some(d) => Success(d)
          case None => Failure("Non-base58 character")
  }

  // ----- the name filter and the decoder -----

  /** No earlier instruction has a discriminator that begins, or is begun by, the
      one of instruction k. */
  ghost predicate Unclashed(nodes: seq<InstructionNode>, k: nat, d: seq<Byte>)
    requires k < |nodes|
  {
    forall j :: 0 <= j < k && DiscriminatorBytes(nodes[j]).Some? ==>
      var e := DiscriminatorBytes(nodes[j]).value; !(e <= d) && !(d <= e)
  }

  /** For a name that resolves to instruction k, the filter's prefix test and the
      decoder's search agree on all data exactly when no earlier discriminator
      clashes with that of k. */
  lemma {:induction false} NameFilterExact(codec: Codec, idl: Idl, name: string, k: nat, d: seq<Byte>)
    requires FindByName(codec, idl.instructions, name, 0) == Some(k)
    requires DiscriminatorBytes(idl.instructions[k]) == Some(d)
    ensures DiscriminatorByName(codec, idl, name) == Some(d)
    ensures (forall data :: d <= data <==> FindForData(idl.instructions, data, 0) == Some(k)) <==>
            Unclashed(idl.instructions, k, d)
  {
    var nodes := idl.instructions;
    if Unclashed(nodes, k, d) {
      forall data ensures d <= data <==> FindForData(nodes, data, 0) == Some(k) {
        if d <= data {
          forall j | 0 <= j < k ensures !Begins(nodes[j], data) {
            if Begins(nodes[j], data) {
              PrefixesCompare(d, DiscriminatorBytes(nodes[j]).value, data);
            }
          }
          assert Begins(nodes[k], data);
        }
      }
    } else {
      var j :| 0 <= j < k && DiscriminatorBytes(nodes[j]).Some?
               && (DiscriminatorBytes(nodes[j]).value <= d || d <= DiscriminatorBytes(nodes[j]).value);
      var e := DiscriminatorBytes(nodes[j]).value;
      var data := if e <= d then d else e;
      assert Begins(nodes[j], data) && d <= data;
      assert FindForData(nodes, data, 0) != Some(k);
    }
  }

  lemma PrefixesCompare(a: seq<Byte>, b: seq<Byte>, s: seq<Byte>)
    requires a <= s && b <= s
    ensures a <= b || b <= a
  {
    if |a| <= |b| {
      assert a == s[..|a|] == b[..|a|];
    } else {
      assert b == s[..|b|] == a[..|b|];
    }
  }

  /** A filter with a program and an instruction name gives, for every
      instruction, whether it is the program's and the decoder takes it for the
      named one, exactly when no earlier discriminator clashes. */
  lemma {:induction false} NameFilterAccepts(codec: Codec, idls: Idls, program: string, name: string, k: nat, d: seq<Byte>)
    requires program != "" && name != "" && !codec.isHex(name) && Loaded(idls, program)
    requires FindByName(codec, idls[program].value.instructions, name, 0) == Some(k)
    requires DiscriminatorBytes(idls[program].value.instructions[k]) == Some(d)
    ensures var nodes := idls[program].value.instructions;
            (forall inst :: NameVerdict(codec, idls, program, name, inst) ==
               Success(Filters.ProgramId(inst) == Some(program) && FindForData(nodes, inst.data, 0) == Some(k)))
            <==> Unclashed(nodes, k, d)
  {
    var nodes := idls[program].value.instructions;
    NameFilterExact(codec, idls[program].value, name, k, d);
    forall inst
      ensures NameVerdict(codec, idls, program, name, inst) == Success(Filters.ProgramId(inst) == Some(program) && d <= inst.data)
    {
    }
    if !Unclashed(nodes, k, d) {
      var data :| !(d <= data <==> FindForData(nodes, data, 0) == Some(k));
      var inst := Filters.Instruction(0, [], data, Filters.Transaction([program], 0, None));
      assert Filters.AllAccounts(inst.tx) == [program];
      assert NameVerdict(codec, idls, program, name, inst) == Success(d <= data);
    }
  }

  function NameVerdict(codec: Codec, idls: Idls, program: string, name: string, inst: Filters.Instruction): Result<bool, string> {
    var parse := (input, programId) => Uncached(codec, idls, input, programId);
    Filters.InstructionVerdict(inst, parse, Some(Filters.InstructionFilter(Some(program), Some(name), None, Some(true))))
  }

  // ----- the memoised lookup -----

  /** `JSON.stringify` of the argument list; an absent argument becomes null. */
  function Key(input: string, programId: Option<string>): string {
    Json.Text(Json.Arr([Json.Str(input), if programId.Some? then Json.Str(programId.value) else Json.Null]))
  }

  lemma KeyInjective(input: string, programId: Option<string>, input': string, programId': Option<string>)
    requires Key(input, programId) == Key(input', programId')
    ensures input == input' && programId == programId'
  {
    var a := [Json.Str(input), if programId.Some? then Json.Str(programId.value) else Json.Null];
    var b := [Json.Str(input'), if programId'.Some? then Json.Str(programId'.value) else Json.Null];
    Json.TextInjective(Json.Arr(a), Json.Arr(b));
    assert a[0] == b[0] && a[1] == b[1];
  }

  type CacheMap = map<string, seq<Byte>>

  function Memoised(codec: Codec, idls: Idls, cache: CacheMap, input: string, programId: Option<string>)
    : (CacheMap, Result<seq<Byte>, string>)
  {
    var key := Key(input, programId);
    if key in cache then (cache, Success(cache[key]))
    else
      match Uncached(codec, idls, input, programId)
      case Failure(e) => (cache, Failure(e))
      case Success(d) => (cache[key := d], Success(d))
  }

  datatype Asset = Asset(name: string, file: string)

  /** Reading and parsing a file; it may fail, and it may yield null. */
  type Files = string -> Result<Option<Idl>, string>

  function Load(idls: Idls, assets: seq<Asset>, files: Files): (Idls, Option<string>)
    decreases |assets|
  {
    if |assets| == 0 then (idls, None)
    else if Loaded(idls, assets[0].name) then Load(idls, assets[1..], files)
    else
      match files(assets[0].file)
      case Failure(_) => (idls, Some("Failed to load datasource IDL " + assets[0].name + ":" + assets[0].file))
      case Success(idl) => Load(idls[assets[0].name := idl], assets[1..], files)
  }

  /** The cache of the decorated method.  It belongs to the method, so every
      decoder shares it. */
  class Cache {
    var entries: CacheMap

    constructor ()
      ensures entries == map[]
    {
      entries := map[];
    }
  }

  class SolanaDecoder {
    const codec: Codec
    const cache: Cache
    var idls: Idls

    constructor (codec: Codec, cache: Cache)
      ensures this.codec == codec && this.cache == cache && idls == map[]
    {
      this.codec, this.cache, this.idls := codec, cache, map[];
    }

    /** `None` for assets is a datasource without any. */
    method LoadIdls(assets: Option<seq<Asset>>, files: Files) returns (error: Option<string>)
      modifies this`idls
      ensures assets.None? ==> idls == old(idls) && error == None
      ensures assets.Some? ==> (idls, error) == Load(old(idls), assets.value, files)
    {
      if assets.None? {
        return None;
      }
      var all := assets.value;
      assert all[0..] == all;
      for i := 0 to |all|
        invariant Load(idls, all[i..], files) == Load(old(idls), all, files)
      {
        assert all[i..][1..] == all[i + 1..];
        var name, file := all[i].name, all[i].file;
        if !Loaded(idls, name) {
          var raw := files(file);
          if raw.Failure? {
            return Some("Failed to load datasource IDL " + name + ":" + file);
          }
          idls := idls[name := raw.value];
        }
      }
      return None;
    }

    method ParseDiscriminator(input: string, programId: Option<string>) returns (r: Result<seq<Byte>, string>)
      modifies cache
      ensures (cache.entries, r) == Memoised(codec, idls, old(cache.entries), input, programId)
    {
      var key := Key(input, programId);
      if key in cache.entries {
        return Success(cache.entries[key]);
      }
      r := Uncached(codec, idls, input, programId);
      if r.Success? {
        cache.entries := cache.entries[key := r.value];
      }
    }
  }

  // ----- runs of one decoder -----

  datatype Call = LoadCall(assets: seq<Asset>, files: Files) | ParseCall(input: string, programId: Option<string>)

  datatype Memory = Memory(idls: Idls, cache: CacheMap)

  function After(codec: Codec, m: Memory, call: Call): Memory {
    match call
    case LoadCall(assets, files) => m.(idls := Load(m.idls, assets, files).0)
    case ParseCall(input, programId) => m.(cache := Memoised(codec, m.idls, m.cache, input, programId).0)
  }

  function AfterAll(codec: Codec, m: Memory, calls: seq<Call>): Memory
    decreases |calls|
  {
    if |calls| == 0 then m else AfterAll(codec, After(codec, m, calls[0]), calls[1..])
  }

  const FRESH := Memory(map[], map[])

  /** Every cached answer is what an uncached call would give now. */
  ghost predicate Coherent(codec: Codec, m: Memory) {
    forall input, programId :: Key(input, programId) in m.cache ==>
      Uncached(codec, m.idls, input, programId) == Success(m.cache[Key(input, programId)])
  }

  /** Loading never replaces a loaded IDL. */
  lemma {:induction false} LoadKeeps(idls: Idls, assets: seq<Asset>, files: Files, name: string)
    requires Loaded(idls, name)
    ensures Loaded(Load(idls, assets, files).0, name) && Load(idls, assets, files).0[name] == idls[name]
    decreases |assets|
  {
    if |assets| > 0 {
      if Loaded(idls, assets[0].name) {
        LoadKeeps(idls, assets[1..], files, name);
      } else if files(assets[0].file).Success? {
        LoadKeeps(idls[assets[0].name := files(assets[0].file).value], assets[1..], files, name);
      }
    }
  }

  /** One call keeps the cache coherent, and no call changes an answer already
      given. */
  lemma {:induction false} CallKeeps(codec: Codec, m: Memory, call: Call)
    requires Coherent(codec, m)
    ensures Coherent(codec, After(codec, m, call))
    ensures forall input, programId :: Uncached(codec, m.idls, input, programId).Success? ==>
              Uncached(codec, After(codec, m, call).idls, input, programId) == Uncached(codec, m.idls, input, programId)
  {
    match call
    case LoadCall(assets, files) =>
      forall name | Loaded(m.idls, name)
        ensures Loaded(Load(m.idls, assets, files).0, name) && Load(m.idls, assets, files).0[name] == m.idls[name]
      {
        LoadKeeps(m.idls, assets, files, name);
      }
    case ParseCall(input, programId) =>
      forall i, p | Key(i, p) == Key(input, programId) ensures i == input && p == programId {
        KeyInjective(i, p, input, programId);
      }
  }

  lemma {:induction false} CallsKeep(codec: Codec, m: Memory, calls: seq<Call>)
    requires Coherent(codec, m)
    ensures Coherent(codec, AfterAll(codec, m, calls))
    ensures forall input, programId :: Uncached(codec, m.idls, input, programId).Success? ==>
              Uncached(codec, AfterAll(codec, m, calls).idls, input, programId) == Uncached(codec, m.idls, input, programId)
    decreases |calls|
  {
    if |calls| > 0 {
      CallKeeps(codec, m, calls[0]);
      CallsKeep(codec, After(codec, m, calls[0]), calls[1..]);
    }
  }

  /** After any calls on one decoder, the memoised answer is the uncached one, and
      after any further calls it is still that, unless it was an error. */
  lemma {:induction false} MemoIsCoherent(codec: Codec, calls: seq<Call>, more: seq<Call>, input: string, programId: Option<string>)
    ensures var m := AfterAll(codec, FRESH, calls);
            var m' := AfterAll(codec, After(codec, m, ParseCall(input, programId)), more);
            var r := Memoised(codec, m.idls, m.cache, input, programId).1;
            && r == Uncached(codec, m.idls, input, programId)
            && (r.Success? ==> Memoised(codec, m'.idls, m'.cache, input, programId).1 == r)
  {
    CallsKeep(codec, FRESH, calls);
    var m := AfterAll(codec, FRESH, calls);
    CallKeeps(codec, m, ParseCall(input, programId));
    CallsKeep(codec, After(codec, m, ParseCall(input, programId)), more);
  }

  // ----- two decoders with the one cache -----

  datatype Pair = Pair(first: Idls, second: Idls, cache: CacheMap)

  datatype Turn = Turn(ofFirst: bool, call: Call)

  const FRESH_PAIR := Pair(map[], map[], map[])

  function Of(p: Pair, ofFirst: bool): Memory {
    Memory(if ofFirst then p.first else p.second, p.cache)
  }

  function TurnAfter(codec: Codec, p: Pair, turn: Turn): Pair {
    var m := After(codec, Of(p, turn.ofFirst), turn.call);
    if turn.ofFirst then Pair(m.idls, p.second, m.cache) else Pair(p.first, m.idls, m.cache)
  }

  function TurnsAfter(codec: Codec, p: Pair, turns: seq<Turn>): Pair
    decreases |turns|
  {
    if |turns| == 0 then p else TurnsAfter(codec, TurnAfter(codec, p, turns[0]), turns[1..])
  }

  function Unshared(codec: Codec, p: Pair, ofFirst: bool, input: string, programId: Option<string>)
    : Result<seq<Byte>, string>
  {
    Uncached(codec, Of(p, ofFirst).idls, input, programId)
  }

  /** Both decoders give every answer as they would without the cache. */
  ghost predicate Faithful(codec: Codec, p: Pair) {
    forall b, input, programId ::
      Memoised(codec, Of(p, b).idls, p.cache, input, programId).1 == Unshared(codec, p, b, input, programId)
  }

  /** Whatever one of the two records of IDLs resolves, the other resolves alike. */
  ghost predicate Agree(codec: Codec, p: Pair) {
    forall b, input, programId :: Unshared(codec, p, b, input, programId).Success? ==>
      Unshared(codec, p, !b, input, programId) == Unshared(codec, p, b, input, programId)
  }

  /** Every cached answer is one that some decoder would give. */
  ghost predicate Sourced(codec: Codec, p: Pair) {
    forall input, programId :: Key(input, programId) in p.cache ==>
      exists b :: Unshared(codec, p, b, input, programId) == Success(p.cache[Key(input, programId)])
  }

  ghost predicate OnlyParses(turns: seq<Turn>) {
    forall i :: 0 <= i < |turns| ==> turns[i].call.ParseCall?
  }

  lemma {:induction false} LoadKeepsAnswers(codec: Codec, m: Memory, call: Call)
    requires call.LoadCall?
    ensures forall input, programId :: Uncached(codec, m.idls, input, programId).Success? ==>
              Uncached(codec, After(codec, m, call).idls, input, programId) == Uncached(codec, m.idls, input, programId)
  {
    var none := Memory(m.idls, map[]);
    CallKeeps(codec, none, call);
    assert After(codec, m, call).idls == After(codec, none, call).idls;
  }

  lemma {:induction false} TurnSourced(codec: Codec, p: Pair, turn: Turn)
    requires Sourced(codec, p)
    ensures Sourced(codec, TurnAfter(codec, p, turn))
  {
    var p' := TurnAfter(codec, p, turn);
    if turn.call.LoadCall? {
      LoadKeepsAnswers(codec, Of(p, turn.ofFirst), turn.call);
    }
    forall input, programId | Key(input, programId) in p'.cache
      ensures exists b :: Unshared(codec, p', b, input, programId) == Success(p'.cache[Key(input, programId)])
    {
      if Key(input, programId) in p.cache {
        var b :| Unshared(codec, p, b, input, programId) == Success(p.cache[Key(input, programId)]);
        assert Unshared(codec, p', b, input, programId) == Success(p'.cache[Key(input, programId)]);
      } else {
        KeyInjective(input, programId, turn.call.input, turn.call.programId);
        assert Unshared(codec, p', turn.ofFirst, input, programId) == Success(p'.cache[Key(input, programId)]);
      }
    }
  }

  lemma {:induction false} TurnsSourced(codec: Codec, p: Pair, turns: seq<Turn>)
    requires Sourced(codec, p)
    ensures Sourced(codec, TurnsAfter(codec, p, turns))
    decreases |turns|
  {
    if |turns| > 0 {
      TurnSourced(codec, p, turns[0]);
      TurnsSourced(codec, TurnAfter(codec, p, turns[0]), turns[1..]);
    }
  }

  lemma AgreeingIsFaithful(codec: Codec, p: Pair)
    requires Sourced(codec, p) && Agree(codec, p)
    ensures Faithful(codec, p)
  {
    forall b, input, programId
      ensures Memoised(codec, Of(p, b).idls, p.cache, input, programId).1 == Unshared(codec, p, b, input, programId)
    {
      if Key(input, programId) in p.cache {
        var c :| Unshared(codec, p, c, input, programId) == Success(p.cache[Key(input, programId)]);
        assert b == c || b == !c;
      }
    }
  }

  lemma {:induction false} ParsesKeepIdls(codec: Codec, p: Pair, turns: seq<Turn>)
    requires OnlyParses(turns)
    ensures TurnsAfter(codec, p, turns) == p.(cache := TurnsAfter(codec, p, turns).cache)
    decreases |turns|
  {
    if |turns| > 0 {
      ParsesKeepIdls(codec, TurnAfter(codec, p, turns[0]), turns[1..]);
    }
  }

  lemma SameAnswers(codec: Codec, p: Pair, p': Pair)
    requires p'.first == p.first && p'.second == p.second
    ensures Agree(codec, p') <==> Agree(codec, p)
  {
    assert forall b, input, programId :: Unshared(codec, p', b, input, programId) == Unshared(codec, p, b, input, programId);
  }

  /** A disagreement shows: after one of the two has been asked, both answer alike. */
  lemma {:induction false} DisagreementShows(codec: Codec, p: Pair, b: bool, input: string, programId: Option<string>)
    requires Unshared(codec, p, b, input, programId).Success?
    requires Unshared(codec, p, !b, input, programId) != Unshared(codec, p, b, input, programId)
    ensures !Faithful(codec, TurnsAfter(codec, p, [Turn(b, ParseCall(input, programId))]))
  {
    var turn := Turn(b, ParseCall(input, programId));
    var p' := TurnAfter(codec, p, turn);
    assert TurnsAfter(codec, p, [turn]) == TurnsAfter(codec, p', [turn][1..]) == p';
    assert Key(input, programId) in p'.cache;
    assert Memoised(codec, Of(p', b).idls, p'.cache, input, programId).1
        == Memoised(codec, Of(p', !b).idls, p'.cache, input, programId).1;
    assert Unshared(codec, p', b, input, programId) != Unshared(codec, p', !b, input, programId);
  }

  /** Two decoders that share the cache, after any calls on either: all further
      answers of both are the uncached ones exactly when whatever one of them can
      resolve the other resolves alike. */
  lemma {:induction false} SharedCacheExact(codec: Codec, turns: seq<Turn>)
    ensures var p := TurnsAfter(codec, FRESH_PAIR, turns);
            (forall more :: OnlyParses(more) ==> Faithful(codec, TurnsAfter(codec, p, more))) <==> Agree(codec, p)
  {
    var p := TurnsAfter(codec, FRESH_PAIR, turns);
    TurnsSourced(codec, FRESH_PAIR, turns);
    if Agree(codec, p) {
      forall more | OnlyParses(more) ensures Faithful(codec, TurnsAfter(codec, p, more)) {
        TurnsSourced(codec, p, more);
        ParsesKeepIdls(codec, p, more);
        SameAnswers(codec, p, TurnsAfter(codec, p, more));
        AgreeingIsFaithful(codec, TurnsAfter(codec, p, more));
      }
    } else {
      var b, input, programId :| Unshared(codec, p, b, input, programId).Success?
        && Unshared(codec, p, !b, input, programId) != Unshared(codec, p, b, input, programId);
      DisagreementShows(codec, p, b, input, programId);
      assert OnlyParses([Turn(b, ParseCall(input, programId))]);
    }
  }
}
