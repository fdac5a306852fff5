/** The text that JSON.stringify gives for strings, arrays and objects, used as the
    key for caching and for removing duplicates.  A text is self-delimiting when
    no other text can be read at its place. */
module Json {
  import opened Wrappers
  import opened Bytes
  import opened Seqs

  /** Section 7 of RFC 8259: quote, backslash and control characters are escaped. */
  function Escape(c: char): string {
    if Letter(c).Some? then ['\\', Letter(c).value]
    else if c < 32 as char then "\\u00" + Hex([c as int])
    else [c]
  }

  /** The letter of a two-character escape. */
  function Letter(c: char): Option<char> {
    if c == '"' || c == '\\' then Some(c)
    else if c == 8 as char then Some('b')
    else if c == 9 as char then Some('t')
    else if c == 10 as char then Some('n')
    else if c == 12 as char then Some('f')
    else if c == 13 as char then Some('r')
    else None
  }

  function EscapeAll(s: string): string {
    if s == "" then "" else Escape(s[0]) + EscapeAll(s[1..])
  }

  function Quote(s: string): string {
    "\"" + EscapeAll(s) + "\""
  }

  lemma {:induction false} EscapePrefix(a: char, b: char, x: string, y: string)
    requires Escape(a) + x == Escape(b) + y
    ensures a == b && x == y
  {
    var s, t := Escape(a) + x, Escape(b) + y;
    assert s[0] == t[0];
    if Letter(a).Some? {
      assert s[1] == t[1] == Letter(a).value;
      assert s[2..] == x && t[2..] == y;
    } else if a < 32 as char {
      assert s[1] == t[1] == 'u';
      HexPairPrefix(a as int, b as int, x, y);
    } else {
      assert s[1..] == x && t[1..] == y;
    }
  }

  lemma HexPairPrefix(a: Byte, b: Byte, x: string, y: string)
    requires "\\u00" + Hex([a]) + x == "\\u00" + Hex([b]) + y
    ensures a == b && x == y
  {
    var s, t := "\\u00" + Hex([a]) + x, "\\u00" + Hex([b]) + y;
    assert s[4] == t[4] && s[5] == t[5];
    HexByteInjective(a, b);
    assert s[6..] == x && t[6..] == y;
  }

  lemma Cancel(p: string, u: string, w: string)
    requires p + u == p + w
    ensures u == w
  {
    assert (p + u)[|p|..] == u && (p + w)[|p|..] == w;
  }

  lemma EscapeStart(c: char)
    ensures |Escape(c)| > 0 && Escape(c)[0] != '"'
  {
  }

  /** The rest of a quoted string, from somewhere inside it. */
  function Rest(a: string, x: string): string {
    EscapeAll(a) + ("\"" + x)
  }

  lemma RestUnfolds(a: string, x: string)
    ensures a == "" ==> Rest(a, x) == "\"" + x
    ensures a != "" ==> Rest(a, x) == Escape(a[0]) + Rest(a[1..], x)
  {
    if a != "" {
      Associative(Escape(a[0]), EscapeAll(a[1..]), "\"" + x);
    } else {
      assert "" + ("\"" + x) == "\"" + x;
    }
  }

  lemma {:induction false} RestPrefix(a: string, b: string, x: string, y: string)
    requires Rest(a, x) == Rest(b, y)
    ensures a == b && x == y
  {
    RestUnfolds(a, x);
    RestUnfolds(b, y);
    if a == "" || b == "" {
      if a != "" { EscapeStart(a[0]); }
      if b != "" { EscapeStart(b[0]); }
      assert Rest(a, x)[0] == Rest(b, y)[0];
      Cancel("\"", x, y);
    } else {
      EscapePrefix(a[0], b[0], Rest(a[1..], x), Rest(b[1..], y));
      RestPrefix(a[1..], b[1..], x, y);
      assert a == [a[0]] + a[1..] && b == [b[0]] + b[1..];
    }
  }

  /** A quoted string is self-delimiting. */
  lemma {:induction false} QuotePrefix(a: string, b: string, x: string, y: string)
    requires Quote(a) + x == Quote(b) + y
    ensures a == b && x == y
  {
    QuoteRest(a, x);
    QuoteRest(b, y);
    Cancel("\"", Rest(a, x), Rest(b, y));
    RestPrefix(a, b, x, y);
  }

  lemma QuoteRest(a: string, x: string)
    ensures Quote(a) + x == "\"" + Rest(a, x)
  {
    Associative("\"" + EscapeAll(a), "\"", x);
    Associative("\"", EscapeAll(a), "\"" + x);
  }

  // ----- values -----

  datatype Value = Null | Bool(b: bool) | Str(s: string) | Arr(elements: seq<Value>) | Obj(members: seq<Member>)

  datatype Member = Member(name: string, value: Value)

  function Text(v: Value): (r: string)
    ensures |r| > 0 && r[0] != ']' && r[0] != '}'
    decreases v, 0
  {
    match v
    case Null => "null"
    case Bool(b) => if b then "true" else "false"
    case Str(s) => Quote(s)
    case Arr(es) => "[" + Elements(es)
    case Obj(ms) => "{" + Members(ms)
  }

  /** The text of an array after its opening bracket. */
  function Elements(es: seq<Value>): string
    decreases es, 1
  {
    if |es| == 0 then "]"
    else Text(es[0]) + (if |es| == 1 then "]" else "," + Elements(es[1..]))
  }

  function MemberText(m: Member): string
    decreases m, 1
  {
    Quote(m.name) + (":" + Text(m.value))
  }

  function Members(ms: seq<Member>): string
    decreases ms, 2
  {
    if |ms| == 0 then "}"
    else MemberText(ms[0]) + (if |ms| == 1 then "}" else "," + Members(ms[1..]))
  }

  /** What follows the first element or member. */
  function MoreElements(es: seq<Value>, x: string): string {
    if |es| == 0 then "]" + x else "," + (Elements(es) + x)
  }

  function MoreMembers(ms: seq<Member>, x: string): string {
    if |ms| == 0 then "}" + x else "," + (Members(ms) + x)
  }

  lemma ElementsUnfold(es: seq<Value>, x: string)
    ensures |es| == 0 ==> Elements(es) + x == "]" + x
    ensures |es| > 0 ==> Elements(es) + x == Text(es[0]) + MoreElements(es[1..], x)
  {
    if |es| > 0 {
      Associative(Text(es[0]), if |es| == 1 then "]" else "," + Elements(es[1..]), x);
      Associative(",", Elements(es[1..]), x);
    }
  }

  lemma MembersUnfold(ms: seq<Member>, x: string)
    ensures |ms| == 0 ==> Members(ms) + x == "}" + x
    ensures |ms| > 0 ==> Members(ms) + x == MemberText(ms[0]) + MoreMembers(ms[1..], x)
  {
    if |ms| > 0 {
      Associative(MemberText(ms[0]), if |ms| == 1 then "}" else "," + Members(ms[1..]), x);
      Associative(",", Members(ms[1..]), x);
    }
  }

  /** A value's text is self-delimiting, so different values have different
      texts. */
  lemma {:induction false} TextPrefix(v: Value, w: Value, x: string, y: string)
    requires Text(v) + x == Text(w) + y
    ensures v == w && x == y
    decreases v, 0
  {
    assert (Text(v) + x)[0] == (Text(w) + y)[0];
    match v
    case Null => Cancel("null", x, y);
    case Bool(b) => Cancel(if b then "true" else "false", x, y);
    case Str(s) => QuotePrefix(s, w.s, x, y);
    case Arr(es) =>
      Associative("[", Elements(es), x);
      Associative("[", Elements(w.elements), y);
      Cancel("[", Elements(es) + x, Elements(w.elements) + y);
      ElementsPrefix(es, w.elements, x, y);
    case Obj(ms) =>
      Associative("{", Members(ms), x);
      Associative("{", Members(w.members), y);
      Cancel("{", Members(ms) + x, Members(w.members) + y);
      MembersPrefix(ms, w.members, x, y);
  }

  lemma {:induction false} ElementsPrefix(a: seq<Value>, b: seq<Value>, x: string, y: string)
    requires Elements(a) + x == Elements(b) + y
    ensures a == b && x == y
    decreases a, 1
  {
    ElementsUnfold(a, x);
    ElementsUnfold(b, y);
    if |a| == 0 || |b| == 0 {
      assert (Elements(a) + x)[0] == (Elements(b) + y)[0];
      Cancel("]", x, y);
    } else {
      TextPrefix(a[0], b[0], MoreElements(a[1..], x), MoreElements(b[1..], y));
      MoreElementsPrefix(a[1..], b[1..], x, y);
      assert a == [a[0]] + a[1..] && b == [b[0]] + b[1..];
    }
  }

  lemma {:induction false} MoreElementsPrefix(a: seq<Value>, b: seq<Value>, x: string, y: string)
    requires MoreElements(a, x) == MoreElements(b, y)
    ensures a == b && x == y
    decreases a, 2
  {
    assert MoreElements(a, x)[0] == MoreElements(b, y)[0];
    if |a| == 0 {
      Cancel("]", x, y);
    } else {
      Cancel(",", Elements(a) + x, Elements(b) + y);
      ElementsPrefix(a, b, x, y);
    }
  }

  lemma {:induction false} MemberPrefix(a: Member, b: Member, x: string, y: string)
    requires MemberText(a) + x == MemberText(b) + y
    ensures a == b && x == y
    decreases a, 1
  {
    Associative(Quote(a.name), ":" + Text(a.value), x);
    Associative(Quote(b.name), ":" + Text(b.value), y);
    Associative(":", Text(a.value), x);
    Associative(":", Text(b.value), y);
    QuotePrefix(a.name, b.name, ":" + (Text(a.value) + x), ":" + (Text(b.value) + y));
    Cancel(":", Text(a.value) + x, Text(b.value) + y);
    TextPrefix(a.value, b.value, x, y);
  }

  lemma {:induction false} MembersPrefix(a: seq<Member>, b: seq<Member>, x: string, y: string)
    requires Members(a) + x == Members(b) + y
    ensures a == b && x == y
    decreases a, 2
  {
    MembersUnfold(a, x);
    MembersUnfold(b, y);
    if |a| == 0 || |b| == 0 {
      assert (Members(a) + x)[0] == (Members(b) + y)[0];
      Cancel("}", x, y);
    } else {
      MemberPrefix(a[0], b[0], MoreMembers(a[1..], x), MoreMembers(b[1..], y));
      MoreMembersPrefix(a[1..], b[1..], x, y);
      assert a == [a[0]] + a[1..] && b == [b[0]] + b[1..];
    }
  }

  lemma {:induction false} MoreMembersPrefix(a: seq<Member>, b: seq<Member>, x: string, y: string)
    requires MoreMembers(a, x) == MoreMembers(b, y)
    ensures a == b && x == y
    decreases a, 3
  {
    assert MoreMembers(a, x)[0] == MoreMembers(b, y)[0];
    if |a| == 0 {
      Cancel("}", x, y);
    } else {
      Cancel(",", Members(a) + x, Members(b) + y);
      MembersPrefix(a, b, x, y);
    }
  }

  lemma {:induction false} TextInjective(v: Value, w: Value)
    requires Text(v) == Text(w)
    ensures v == w
  {
    assert Text(v) + "" == Text(v) && Text(w) + "" == Text(w);
    TextPrefix(v, w, "", "");
  }
}
