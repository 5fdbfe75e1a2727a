/**
 Printing and then tokenizing: exactly the trees whose printed text gives their own preorder token sequence back.
*/
module JsonRoundTrip {
  import opened Slices
  import opened JsonTree
  import opened JsonParser
  import opened JsonPrinter

  // ---------------------------------------------------------------- the tokens of a tree

  function TokenHead(v: Value, i: nat): seq<Token>
    requires i < Count(v)
  {
    [Token(if i == 0 then Open(v) else ',', "")]
    + if v.Obj? then [Token(PAIR_NAME, Escape(Name(v, i))), Token(':', "")] else []
  }

  function TokenFoot(v: Value): seq<Token> {
    if Count(v) == 0 then [Token(Open(v), ""), Token(Close(v), "")] else [Token(Close(v), "")]
  }

  /** In preorder; the text of a token is the printed text of its string or number. */
  function Tokens(v: Value): seq<Token>
    decreases v, Count(v) + 1
  {
    match v
    case Str(s) => [Token('"', Escape(s))]
    case Int(n) => [Token(NUMBER, IntText(n))]
    case _ => TokensFrom(v, 0)
  }

  function TokensFrom(v: Value, i: nat): seq<Token>
    requires i <= Count(v)
    decreases v, Count(v) - i
  {
    if i == Count(v) then TokenFoot(v) else TokenHead(v, i) + Tokens(Child(v, i)) + TokensFrom(v, i + 1)
  }

  // ---------------------------------------------------------------- what the tokenizer can read back

  /** No backslash takes the quotation mark behind it. */
  predicate Scannable(s: string) {
    if s == "" then true
    else if s[0] == '\\' then |s| > 1 && s[1] != '"' && Scannable(s[2..])
    else Scannable(s[1..])
  }

  /** The type the tokenizer remembers after a value: none after an empty container. */
  function EndType(v: Value): char {
    match v
    case Str(_) => '"'
    case Int(_) => NUMBER
    case _ => if Count(v) == 0 then '\0' else EndType(Child(v, Count(v) - 1))
  }

  /** How many entries of the stack a container needs for a child. */
  function Nesting(v: Value): nat {
    if v.Obj? then 2 else 1
  }

  predicate HeadReadable(v: Value, i: nat, depth: nat)
    requires i < Count(v)
  {
    && (v.Obj? && i > 0 ==> EndType(Child(v, i - 1)) != '\0')
    && depth + Nesting(v) <= JSONPARSE_MAX_DEPTH
    && (v.Obj? ==> Scannable(Name(v, i)))
  }

  predicate FootReadable(v: Value, depth: nat) {
    && (v.Obj? && Count(v) > 0 ==> EndType(Child(v, Count(v) - 1)) != '\0')
    && depth + 1 <= JSONPARSE_MAX_DEPTH
  }

  /**
   The tree can be read back at some depth of the stack: all strings can be scanned, no number is negative, no value
   of a pair ends in an empty container, and the stack is deep enough.
  */
  predicate Readable(v: Value, depth: nat)
    decreases v, Count(v) + 1
  {
    match v
    case Str(s) => Scannable(s)
    case Int(n) => n >= 0
    case _ => ReadableFrom(v, 0, depth)
  }

  predicate ReadableFrom(v: Value, i: nat, depth: nat)
    requires i <= Count(v)
    decreases v, Count(v) - i
  {
    if i == Count(v) then FootReadable(v, depth)
    else HeadReadable(v, i, depth) && Readable(Child(v, i), depth + Nesting(v)) && ReadableFrom(v, i + 1, depth)
  }

  /** C strings have no zero character inside. */
  predicate CStrings(v: Value)
    decreases v, Count(v) + 1
  {
    (v.Str? ==> NoZero(v.text)) && CStringsFrom(v, 0)
  }

  predicate CStringsFrom(v: Value, i: nat)
    requires i <= Count(v)
    decreases v, Count(v) - i
  {
    i < Count(v) ==> NoZero(Name(v, i)) && CStrings(Child(v, i)) && CStringsFrom(v, i + 1)
  }

  predicate NoZero(s: string) {
    forall i | 0 <= i < |s| :: s[i] != '\0'
  }

  // ---------------------------------------------------------------- runs of the tokenizer

  /** From st the tokenizer gives the tokens ts and is then in st2. */
  predicate Leads(json: string, st: State, ts: seq<Token>, st2: State) {
    Run(json, st) == PrependAll(ts, Run(json, st2))
  }

  /** From st the tokenizer does not give the tokens ts first. */
  predicate Misses(json: string, st: State, ts: seq<Token>) {
    Run(json, st).Done? ==> !(ts <= Run(json, st).tokens)
  }

  lemma OneStep(json: string, st: State, t: Token, st2: State)
    requires st.pos < |json| && StepFrom(json, st) == Next(t.kind, t.text, st2)
    ensures Leads(json, st, [t], st2)
  {
  }

  /** Whether the tokenizer gives the tokens ts from st, and its state then. */
  predicate Verdict(json: string, st: State, ok: bool, ts: seq<Token>, end: State) {
    if ok then Leads(json, st, ts, end) else Misses(json, st, ts)
  }

  /** A step that is an error, undefined, or another token. */
  lemma WrongStep(json: string, st: State, ts: seq<Token>)
    requires st.pos < |json| && ts != []
    requires var r := StepFrom(json, st); r.Next? ==> Token(r.kind, r.text) != ts[0]
    ensures Misses(json, st, ts)
  {
  }

  lemma LeadsOn(json: string, st: State, ts: seq<Token>, st2: State, us: seq<Token>, st3: State)
    requires Leads(json, st, ts, st2) && Leads(json, st2, us, st3)
    ensures Leads(json, st, ts + us, st3)
  {
    var r := Run(json, st3);
    if r.Done? {
      assert ts + (us + r.tokens) == ts + us + r.tokens;
    }
  }

  lemma LeadsToMiss(json: string, st: State, ts: seq<Token>, st2: State, us: seq<Token>)
    requires Leads(json, st, ts, st2) && Misses(json, st2, us)
    ensures Misses(json, st, ts + us)
  {
    var r := Run(json, st2);
    if r.Done? {
      CommonPrefix(ts, us, r.tokens);
    }
  }

  lemma CommonPrefix(ts: seq<Token>, us: seq<Token>, rs: seq<Token>)
    ensures ts + us <= ts + rs <==> us <= rs
  {
    if ts + us <= ts + rs {
      assert us == (ts + us)[|ts|..] && (ts + rs)[|ts|..] == rs;
    }
  }

  lemma MissesMore(json: string, st: State, ts: seq<Token>, us: seq<Token>)
    requires Misses(json, st, ts)
    ensures Misses(json, st, ts + us)
  {
    var r := Run(json, st);
    if r.Done? {
      LongerPrefix(ts, us, r.tokens);
    }
  }

  lemma LongerPrefix(ts: seq<Token>, us: seq<Token>, rs: seq<Token>)
    ensures ts + us <= rs ==> ts <= rs
  {
    if ts + us <= rs {
      assert ts == (ts + us)[..|ts|];
    }
  }

  // ---------------------------------------------------------------- strings and numbers

  /** The escaped text of s and the closing quotation mark. */
  function Closing(s: string): string {
    Escape(s) + ['"']
  }

  lemma ClosingParts(json: string, q: nat, s: string)
    requires HasAt(json, q, Closing(s))
    ensures q < |json|
    ensures s == "" ==> json[q] == '"' && |Escape(s)| == 0
    ensures s != "" ==> json[q] == EscapedChar(s[0])[0] && HasAt(json, q + |EscapedChar(s[0])|, Closing(s[1..]))
                        && |Escape(s)| == |EscapedChar(s[0])| + |Escape(s[1..])|
    ensures s != "" && s[0] == '"' ==> q + 1 < |json| && json[q + 1] == '"'
  {
    hide HasAt, Escape;
    EscapeCons(s);
    HasFirst(json, q, Closing(s));
    if s != "" {
      assert Closing(s) == EscapedChar(s[0]) + Closing(s[1..]);
      HasParts(json, q, EscapedChar(s[0]), Closing(s[1..]));
      if s[0] == '"' {
        HasTwo(json, q, EscapedChar(s[0]));
      }
    }
  }

  /** The scan stops behind the closing quotation mark exactly for scannable strings. */
  lemma {:induction false} ScanExact(json: string, q: nat, s: string)
    requires NoZero(s) && HasAt(json, q, Closing(s))
    ensures ScanString(json, q) == Stop(q + |Escape(s)| + 1) <==> Scannable(s)
    decreases |s|
  {
    hide HasAt, Closing, Escape;
    ClosingParts(json, q, s);
    if s != "" {
      ClosingParts(json, q + |EscapedChar(s[0])|, s[1..]);
      if s[0] != '\\' {
        ScanExact(json, q + |EscapedChar(s[0])|, s[1..]);
      } else if |s| > 1 {
        assert s[1..][1..] == s[2..];
        assert s[1..][0] == s[1];
        if s[1] != '"' {
          ScanExact(json, q + 2, s[2..]);
        }
      }
    }
  }

  /** White space apart, the tokenizer stands at position p. */
  predicate StandsAt(json: string, st: State, p: nat) {
    st.pos < |json| && SkipWs(json, st.pos) == p
  }

  predicate ValueTop(stack: string) {
    Top(stack) == '[' || Top(stack) == ':'
  }

  lemma NotSpace(json: string, st: State, p: nat)
    requires st.pos == p < |json| && json[p] != ' ' && json[p] != '\n'
    ensures StandsAt(json, st, p)
  {
  }

  lemma OneSpace(json: string, st: State, p: nat)
    requires st.pos + 1 == p < |json| && json[st.pos] == '\n' && json[p] != ' ' && json[p] != '\n'
    ensures StandsAt(json, st, p)
  {
    assert SkipWs(json, p) == p;
  }

  lemma QuotedParts(json: string, p: nat, s: string)
    requires HasAt(json, p, Quoted(s))
    ensures |Quoted(s)| == |Escape(s)| + 2 && p + |Quoted(s)| <= |json| && json[p] == '"'
    ensures HasAt(json, p + 1, Closing(s)) && json[p + 1..p + 1 + |Escape(s)|] == Escape(s)
  {
    hide Escape;
    assert Quoted(s) == ['"'] + Closing(s);
    HasParts(json, p, ['"'], Closing(s));
    HasFirst(json, p, ['"']);
    HasParts(json, p + 1, Escape(s), ['"']);
  }

  lemma ParseString(json: string, st: State, p: nat, kind: char, s: string)
    requires StandsAt(json, st, p) && HasAt(json, p, Quoted(s)) && NoZero(s)
    requires if kind == PAIR_NAME then Top(st.stack) == '{' else kind == '"' && ValueTop(st.stack)
    ensures Scannable(s) ==> Leads(json, st, [Token(kind, Escape(s))], State(p + |Quoted(s)|, st.stack, kind))
    ensures !Scannable(s) ==> Misses(json, st, [Token(kind, Escape(s))])
  {
    hide Scannable, ScanString, Escape, HasAt, NoZero, SkipWs, Leads, Misses, Quoted, Closing;
    QuotedParts(json, p, s);
    ScanExact(json, p + 1, s);
    if Scannable(s) {
      OneStep(json, st, Token(kind, Escape(s)), State(p + |Quoted(s)|, st.stack, kind));
    } else {
      WrongStep(json, st, [Token(kind, Escape(s))]);
    }
  }

  /** What follows a number is not part of it. */
  predicate NumberEnds(json: string, p: nat) {
    p < |json| ==> !NumberChar(json[p])
  }

  lemma {:induction false} ScanDigits(json: string, p: nat, x: string)
    requires HasAt(json, p, x) && NumberEnds(json, p + |x|) && forall i | 0 <= i < |x| :: NumberChar(x[i])
    ensures ScanNumber(json, p) == p + |x|
    decreases |x|
  {
    if x != "" {
      assert x == [x[0]] + x[1..];
      HasParts(json, p, [x[0]], x[1..]);
      HasFirst(json, p, x);
      ScanDigits(json, p + 1, x[1..]);
    }
  }

  lemma ParseDigits(json: string, st: State, p: nat, n: nat)
    requires StandsAt(json, st, p) && HasAt(json, p, Digits(n)) && NumberEnds(json, p + |Digits(n)|)
    requires ValueTop(st.stack)
    ensures Leads(json, st, [Token(NUMBER, Digits(n))], State(p + |Digits(n)|, st.stack, NUMBER))
  {
    var d := Digits(n);
    HasFirst(json, p, d);
    assert d == [d[0]] + d[1..];
    HasParts(json, p, [d[0]], d[1..]);
    ScanDigits(json, p + 1, d[1..]);
    hide Digits, ScanNumber;
    OneStep(json, st, Token(NUMBER, d), State(p + |d|, st.stack, NUMBER));
  }

  /** The tokenizer does not know a minus sign: it gives an empty token for it. */
  lemma ParseMinus(json: string, st: State, p: nat, n: int)
    requires StandsAt(json, st, p) && HasAt(json, p, IntText(n)) && n < 0
    ensures Misses(json, st, Tokens(Int(n)))
  {
    hide Digits;
    HasFirst(json, p, IntText(n));
    WrongStep(json, st, Tokens(Int(n)));
  }

  lemma ParseInt(json: string, st: State, p: nat, n: int)
    requires StandsAt(json, st, p) && HasAt(json, p, IntText(n)) && NumberEnds(json, p + |IntText(n)|)
    requires ValueTop(st.stack)
    ensures Verdict(json, st, n >= 0, Tokens(Int(n)), State(p + |IntText(n)|, st.stack, NUMBER))
  {
    hide Digits, Leads, Misses, StandsAt, HasAt, NumberEnds;
    if n >= 0 {
      ParseDigits(json, st, p, n);
    } else {
      ParseMinus(json, st, p, n);
    }
  }

  // ---------------------------------------------------------------- containers

  /** The stack between two children, or in front of the first. */
  function StackBetween(v: Value, i: nat, base: string): string {
    if i == 0 then base else StackInside(v, base)
  }

  /** The stack at a child. */
  function StackInside(v: Value, base: string): string {
    if v.Obj? then base + ['{'] + [':'] else base + ['[']
  }

  /** Where a container may start: an object anywhere, an array as a value. */
  predicate MayStart(v: Value, base: string) {
    |base| <= JSONPARSE_MAX_DEPTH && (v.Obj? || ValueTop(base))
  }

  lemma ParseOpen(json: string, st: State, p: nat, v: Value)
    requires StandsAt(json, st, p) && p < |json| && json[p] == Open(v) && MayStart(v, st.stack)
    ensures |st.stack| < JSONPARSE_MAX_DEPTH ==>
              Leads(json, st, [Token(Open(v), "")], State(p + 1, st.stack + [Open(v)], '\0'))
    ensures |st.stack| == JSONPARSE_MAX_DEPTH ==> Misses(json, st, [Token(Open(v), "")])
  {
    if |st.stack| < JSONPARSE_MAX_DEPTH {
      OneStep(json, st, Token(Open(v), ""), State(p + 1, st.stack + [Open(v)], '\0'));
    } else {
      WrongStep(json, st, [Token(Open(v), "")]);
    }
  }

  lemma ParseComma(json: string, st: State, p: nat, v: Value, base: string)
    requires StandsAt(json, st, p) && p < |json| && json[p] == ',' && st.stack == StackInside(v, base)
    ensures (v.Obj? ==> st.vtype != '\0') ==>
              Leads(json, st, [Token(',', "")], State(p + 1, base + [Open(v)], st.vtype))
    ensures v.Obj? && st.vtype == '\0' ==> Misses(json, st, [Token(',', "")])
  {
    if v.Obj? && st.vtype == '\0' {
      WrongStep(json, st, [Token(',', "")]);
    } else {
      assert v.Obj? ==> Popped(st.stack) == base + ['{'];
      OneStep(json, st, Token(',', ""), State(p + 1, base + [Open(v)], st.vtype));
    }
  }

  lemma ParseColon(json: string, st: State, p: nat)
    requires StandsAt(json, st, p) && p < |json| && json[p] == ':' && |st.stack| <= JSONPARSE_MAX_DEPTH
    ensures |st.stack| < JSONPARSE_MAX_DEPTH ==> Leads(json, st, [Token(':', "")], State(p + 1, st.stack + [':'], '\0'))
    ensures |st.stack| == JSONPARSE_MAX_DEPTH ==> Misses(json, st, [Token(':', "")])
  {
    if |st.stack| < JSONPARSE_MAX_DEPTH {
      OneStep(json, st, Token(':', ""), State(p + 1, st.stack + [':'], '\0'));
    } else {
      WrongStep(json, st, [Token(':', "")]);
    }
  }

  lemma ParseClose(json: string, st: State, p: nat, v: Value, base: string, pairOpen: bool)
    requires StandsAt(json, st, p) && p < |json| && json[p] == Close(v)
    requires st.stack == if pairOpen then StackInside(v, base) else base + [Open(v)]
    ensures (v.Obj? && pairOpen ==> st.vtype != '\0') ==>
              Leads(json, st, [Token(Close(v), "")], State(p + 1, base, st.vtype))
    ensures v.Obj? && pairOpen && st.vtype == '\0' ==> Misses(json, st, [Token(Close(v), "")])
  {
    if v.Obj? && pairOpen && st.vtype == '\0' {
      WrongStep(json, st, [Token(Close(v), "")]);
    } else {
      assert v.Obj? && pairOpen ==> Popped(st.stack) == base + ['{'];
      assert Popped(base + [Open(v)]) == base;
      OneStep(json, st, Token(Close(v), ""), State(p + 1, base, st.vtype));
    }
  }

  lemma ParseName(json: string, st: State, p: nat, name: string)
    requires StandsAt(json, st, p) && HasAt(json, p, Quoted(name) + [':']) && NoZero(name)
    requires Top(st.stack) == '{' && |st.stack| <= JSONPARSE_MAX_DEPTH
    ensures Scannable(name) && |st.stack| < JSONPARSE_MAX_DEPTH ==>
              Leads(json, st, [Token(PAIR_NAME, Escape(name))] + [Token(':', "")],
                    State(p + |Quoted(name)| + 1, st.stack + [':'], '\0'))
    ensures !(Scannable(name) && |st.stack| < JSONPARSE_MAX_DEPTH) ==>
              Misses(json, st, [Token(PAIR_NAME, Escape(name))] + [Token(':', "")])
  {
    hide *;
    var first, second := [Token(PAIR_NAME, Escape(name))], [Token(':', "")];
    HasParts(json, p, Quoted(name), [':']);
    HasFirst(json, p + |Quoted(name)|, [':']);
    ParseString(json, st, p, PAIR_NAME, name);
    if !Scannable(name) {
      MissesMore(json, st, first, second);
    } else {
      var st2 := State(p + |Quoted(name)|, st.stack, PAIR_NAME);
      NotSpace(json, st2, st2.pos);
      ParseColon(json, st2, st2.pos);
      if |st.stack| < JSONPARSE_MAX_DEPTH {
        LeadsOn(json, st, first, st2, second, State(p + |Quoted(name)| + 1, st.stack + [':'], '\0'));
      } else {
        LeadsToMiss(json, st, first, st2, second);
      }
    }
  }

  /** A position that white space does not hide. */
  predicate Solid(json: string, p: nat) {
    p < |json| && json[p] != ' ' && json[p] != '\n'
  }

  /**
   In front of a child: behind the colon of its pair, or in front of the line feed behind the bracket or the comma.
  */
  function ChildState(st: State, p: nat, v: Value, i: nat, base: string): State
    requires i < Count(v)
  {
    if v.Obj? then State(p + |Head(v, i)|, StackInside(v, base), '\0')
    else State(p + 1, StackInside(v, base), if i == 0 then '\0' else st.vtype)
  }

  predicate HeadParses(st: State, v: Value, i: nat, base: string)
    requires i < Count(v)
  {
    && (v.Obj? && i > 0 ==> st.vtype != '\0')
    && |base| + Nesting(v) <= JSONPARSE_MAX_DEPTH
    && (v.Obj? ==> Scannable(Name(v, i)))
  }

  function FirstToken(v: Value, i: nat): Token {
    Token(if i == 0 then Open(v) else ',', "")
  }

  /** The bracket or comma. */
  lemma ParseFirst(json: string, st: State, p: nat, v: Value, i: nat, base: string)
    requires StandsAt(json, st, p) && p < |json| && json[p] == FirstToken(v, i).kind && MayStart(v, base)
    requires st.stack == StackBetween(v, i, base) && (i > 0 ==> |base| + Nesting(v) <= JSONPARSE_MAX_DEPTH)
    ensures var st2 := State(p + 1, base + [Open(v)], if i == 0 then '\0' else st.vtype);
            if (i > 0 && v.Obj? && st.vtype == '\0') || |base| == JSONPARSE_MAX_DEPTH
            then Misses(json, st, [FirstToken(v, i)])
            else Leads(json, st, [FirstToken(v, i)], st2)
  {
    hide Leads, Misses, StandsAt;
    if i == 0 {
      ParseOpen(json, st, p, v);
    } else {
      ParseComma(json, st, p, v, base);
    }
  }

  lemma PairHeadText(json: string, p: nat, v: Value, i: nat)
    requires v.Obj? && i < Count(v) && HasAt(json, p, Head(v, i))
    ensures |Head(v, i)| == |Quoted(Name(v, i))| + 3 && p + 2 < |json|
    ensures json[p] == FirstToken(v, i).kind && json[p + 1] == '\n' && json[p + 2] == '"'
    ensures HasAt(json, p + 2, Quoted(Name(v, i)) + [':'])
    ensures TokenHead(v, i) == [FirstToken(v, i)] + ([Token(PAIR_NAME, Escape(Name(v, i)))] + [Token(':', "")])
  {
    hide HasAt, Escape;
    var mark := if i == 0 then ['{', '\n'] else [',', '\n'];
    var text := Quoted(Name(v, i)) + [':'];
    assert Head(v, i) == mark + text;
    HasParts(json, p, mark, text);
    HasTwo(json, p, mark);
    HasFirst(json, p + 2, text);
  }

  /** The separator, the name and the colon of a pair. */
  lemma ParsePairHead(json: string, st: State, p: nat, v: Value, i: nat, base: string)
    requires v.Obj? && i < Count(v) && StandsAt(json, st, p) && HasAt(json, p, Head(v, i))
    requires Solid(json, p + |Head(v, i)|)
    requires MayStart(v, base) && st.stack == StackBetween(v, i, base) && NoZero(Name(v, i))
    requires i > 0 ==> |base| + Nesting(v) <= JSONPARSE_MAX_DEPTH
    ensures HeadParses(st, v, i, base) ==>
              Leads(json, st, TokenHead(v, i), ChildState(st, p, v, i, base))
              && StandsAt(json, ChildState(st, p, v, i, base), p + |Head(v, i)|)
    ensures !HeadParses(st, v, i, base) ==> Misses(json, st, TokenHead(v, i))
  {
    hide Leads, Misses, Scannable, SkipWs, NoZero, Escape, HasAt, Quoted, Head, TokenHead;
    var name := Name(v, i);
    var st2 := State(p + 1, base + ['{'], if i == 0 then '\0' else st.vtype);
    var st3 := ChildState(st, p, v, i, base);
    var first, second := [FirstToken(v, i)], [Token(PAIR_NAME, Escape(name))] + [Token(':', "")];
    PairHeadText(json, p, v, i);
    ParseFirst(json, st, p, v, i, base);
    OneSpace(json, st2, p + 2);
    NotSpace(json, st3, p + |Head(v, i)|);
    assert Top(st2.stack) == '{' && |base| <= JSONPARSE_MAX_DEPTH;
    assert st3 == State(p + 2 + |Quoted(name)| + 1, st2.stack + [':'], '\0');
    var missed := (i > 0 && st.vtype == '\0') || |base| == JSONPARSE_MAX_DEPTH;
    assert HeadParses(st, v, i, base) <==> !missed && Scannable(name) && |st2.stack| < JSONPARSE_MAX_DEPTH;
    hide *;
    if missed {
      MissesMore(json, st, first, second);
    } else {
      ParseName(json, st2, p + 2, name);
      if HeadParses(st, v, i, base) {
        LeadsOn(json, st, first, st2, second, st3);
      } else {
        LeadsToMiss(json, st, first, st2, second);
      }
    }
  }

  lemma ParseHead(json: string, st: State, p: nat, v: Value, i: nat, base: string)
    requires Container(v) && i < Count(v) && StandsAt(json, st, p) && HasAt(json, p, Head(v, i))
    requires Solid(json, p + |Head(v, i)|)
    requires MayStart(v, base) && st.stack == StackBetween(v, i, base) && NoZero(Name(v, i))
    requires i > 0 ==> |base| + Nesting(v) <= JSONPARSE_MAX_DEPTH
    ensures HeadParses(st, v, i, base) ==>
              Leads(json, st, TokenHead(v, i), ChildState(st, p, v, i, base))
              && StandsAt(json, ChildState(st, p, v, i, base), p + |Head(v, i)|)
    ensures !HeadParses(st, v, i, base) ==> Misses(json, st, TokenHead(v, i))
  {
    if v.Obj? {
      ParsePairHead(json, st, p, v, i, base);
    } else {
      var mark := if i == 0 then ['[', '\n'] else [',', '\n'];
      assert Head(v, i) == mark && TokenHead(v, i) == [FirstToken(v, i)];
      HasTwo(json, p, mark);
      hide HasAt, Leads, Misses, Head, TokenHead;
      ParseFirst(json, st, p, v, i, base);
      if HeadParses(st, v, i, base) {
        OneSpace(json, ChildState(st, p, v, i, base), p + 2);
      }
    }
  }

  /** What the tokenizer needs at the end of a container. */
  predicate FootParses(st: State, v: Value, base: string) {
    if Count(v) == 0 then |base| < JSONPARSE_MAX_DEPTH else v.Obj? ==> st.vtype != '\0'
  }

  lemma ParseEmpty(json: string, st: State, p: nat, v: Value)
    requires Container(v) && Count(v) == 0 && HasAt(json, p, Foot(v)) && MayStart(v, st.stack) && StandsAt(json, st, p)
    ensures |st.stack| < JSONPARSE_MAX_DEPTH ==> Leads(json, st, TokenFoot(v), State(p + |Foot(v)|, st.stack, '\0'))
    ensures |st.stack| == JSONPARSE_MAX_DEPTH ==> Misses(json, st, TokenFoot(v))
  {
    var start, close := [Open(v), '\n'], ['\n', Close(v)];
    assert Foot(v) == start + close;
    HasParts(json, p, start, close);
    HasTwo(json, p, start);
    HasTwo(json, p + 2, close);
    var first, second := [Token(Open(v), "")], [Token(Close(v), "")];
    var st2, st3 := State(p + 1, st.stack + [Open(v)], '\0'), State(p + 4, st.stack, '\0');
    assert TokenFoot(v) == first + second;
    TwoSpaces(json, st2, p + 3);
    ParseOpen(json, st, p, v);
    hide *;
    if |st.stack| == JSONPARSE_MAX_DEPTH {
      MissesMore(json, st, first, second);
    } else {
      ParseClose(json, st2, p + 3, v, st.stack, false);
      LeadsOn(json, st, first, st2, second, st3);
    }
  }

  lemma ParseFoot(json: string, st: State, p: nat, v: Value, base: string)
    requires Container(v) && HasAt(json, p, Foot(v)) && MayStart(v, base) && st.stack == StackBetween(v, Count(v), base)
    requires if Count(v) == 0 then StandsAt(json, st, p) else st.pos == p
    ensures FootParses(st, v, base) ==>
              Leads(json, st, TokenFoot(v), State(p + |Foot(v)|, base, if Count(v) == 0 then '\0' else st.vtype))
    ensures !FootParses(st, v, base) ==> Misses(json, st, TokenFoot(v))
  {
    if Count(v) == 0 {
      ParseEmpty(json, st, p, v);
    } else {
      HasTwo(json, p, ['\n', Close(v)]);
      hide HasAt, Leads, Misses;
      OneSpace(json, st, p + 1);
      ParseClose(json, st, p + 1, v, base, true);
    }
  }

  lemma TwoSpaces(json: string, st: State, p: nat)
    requires st.pos + 2 == p < |json| && json[st.pos] == '\n' && json[st.pos + 1] == '\n' && json[p] != ' '
    requires json[p] != '\n'
    ensures StandsAt(json, st, p)
  {
    assert SkipWs(json, p) == p && SkipWs(json, p - 1) == p;
  }

  // ---------------------------------------------------------------- whole trees

  /** No printed value starts with white space. */
  lemma RenderStart(v: Value)
    ensures Render(v) != "" && Render(v)[0] != ' ' && Render(v)[0] != '\n'
  {
    if Container(v) {
      FromStart(v, 0);
    }
  }

  lemma FromStart(v: Value, i: nat)
    requires Container(v) && i <= Count(v)
    ensures RenderFrom(v, i) != ""
    ensures i == 0 ==> RenderFrom(v, i)[0] == Open(v)
    ensures i > 0 ==> RenderFrom(v, i)[0] == (if i == Count(v) then '\n' else ',')
  {
  }

  lemma RenderStep(v: Value, i: nat)
    requires i < Count(v)
    ensures RenderFrom(v, i) == Head(v, i) + Render(Child(v, i)) + RenderFrom(v, i + 1)
  {
  }

  lemma FromParts(json: string, p: nat, v: Value, i: nat)
    requires Container(v) && i < Count(v) && HasAt(json, p, RenderFrom(v, i))
    ensures HasAt(json, p, Head(v, i))
    ensures HasAt(json, p + |Head(v, i)|, Render(Child(v, i)))
    ensures HasAt(json, p + |Head(v, i)| + |Render(Child(v, i))|, RenderFrom(v, i + 1))
    ensures |RenderFrom(v, i)| == |Head(v, i)| + |Render(Child(v, i))| + |RenderFrom(v, i + 1)|
    ensures Solid(json, p + |Head(v, i)|) && NumberEnds(json, p + |Head(v, i)| + |Render(Child(v, i))|)
  {
    hide *;
    var head, child, rest := Head(v, i), Render(Child(v, i)), RenderFrom(v, i + 1);
    RenderStep(v, i);
    RenderStart(Child(v, i));
    FromStart(v, i + 1);
    HasParts(json, p, head + child, rest);
    HasParts(json, p, head, child);
    HasFirst(json, p + |head|, child);
    HasFirst(json, p + |head| + |child|, rest);
    SolidAt(json, p + |head|);
    EndsAt(json, p + |head| + |child|);
  }

  lemma SolidAt(json: string, p: nat)
    requires p < |json| && json[p] != ' ' && json[p] != '\n'
    ensures Solid(json, p)
  {
  }

  lemma EndsAt(json: string, p: nat)
    requires p < |json| && (json[p] == '\n' || json[p] == ',')
    ensures NumberEnds(json, p)
  {
  }

  /** At child i, or at the end, of a container that was entered with stack base. */
  predicate AtChild(json: string, st: State, p: nat, v: Value, i: nat, base: string)
    requires i <= Count(v)
  {
    && Container(v) && MayStart(v, base) && st.stack == StackBetween(v, i, base)
    && HasAt(json, p, RenderFrom(v, i)) && CStringsFrom(v, i)
    && (i == 0 ==> StandsAt(json, st, p))
    && (i > 0 ==> st.pos == p && st.vtype == EndType(Child(v, i - 1)) && |base| + Nesting(v) <= JSONPARSE_MAX_DEPTH)
  }

  /** From child i on: the tokens of the rest of the container exactly if the rest is readable. */
  lemma {:induction false} ParseFrom(json: string, st: State, p: nat, v: Value, i: nat, base: string)
    requires i <= Count(v) && AtChild(json, st, p, v, i, base)
    ensures Verdict(json, st, ReadableFrom(v, i, |base|), TokensFrom(v, i), State(p + |RenderFrom(v, i)|, base,
              EndType(v)))
    decreases v, Count(v) - i
  {
    hide *;
    if i == Count(v) {
      ParseEnd(json, st, p, v, base);
    } else {
      var child := Child(v, i);
      var inner := ChildState(st, p, v, i, base);
      var q := p + |Head(v, i)|;
      var next := State(q + |Render(child)|, inner.stack, EndType(child));
      HeadPart(json, st, p, v, i, base);
      if HeadParses(st, v, i, base) {
        ParseValue(json, inner, q, child);
        if Readable(child, |inner.stack|) {
          NextChild(json, st, p, v, i, base);
          ParseFrom(json, next, next.pos, v, i + 1, base);
        }
      }
      Assemble(json, st, inner, next, p, v, i, base);
    }
  }

  lemma KeepsType(json: string, st: State, p: nat, v: Value, i: nat, base: string)
    requires i <= Count(v) && AtChild(json, st, p, v, i, base)
    ensures i > 0 ==> st.vtype == EndType(Child(v, i - 1))
  {
  }

  /** Everything that ParseValue needs. */
  predicate ValueReady(json: string, st: State, p: nat, v: Value) {
    && StandsAt(json, st, p) && HasAt(json, p, Render(v)) && NumberEnds(json, p + |Render(v)|) && CStrings(v)
    && |st.stack| <= JSONPARSE_MAX_DEPTH && (v.Obj? || ValueTop(st.stack))
  }

  lemma HeadPart(json: string, st: State, p: nat, v: Value, i: nat, base: string)
    requires i < Count(v) && AtChild(json, st, p, v, i, base)
    ensures Verdict(json, st, HeadParses(st, v, i, base), TokenHead(v, i), ChildState(st, p, v, i, base))
    ensures HeadParses(st, v, i, base) ==>
              && ValueReady(json, ChildState(st, p, v, i, base), p + |Head(v, i)|, Child(v, i))
              && |ChildState(st, p, v, i, base).stack| == |base| + Nesting(v)
  {
    hide AtChild, HeadParses, Leads, Misses, StandsAt, HasAt;
    hide NumberEnds, CStrings, TokenHead, Head, Render, ChildState, MayStart;
    ChildReady(json, st, p, v, i, base);
    ParseHead(json, st, p, v, i, base);
    if HeadParses(st, v, i, base) {
      InnerStack(st, p, v, i, base);
    }
  }

  /** The head, the child and the rest. */
  lemma Assemble(json: string, st: State, inner: State, next: State, p: nat, v: Value, i: nat, base: string)
    requires i < Count(v) && AtChild(json, st, p, v, i, base)
    requires Verdict(json, st, HeadParses(st, v, i, base), TokenHead(v, i), inner)
    requires HeadParses(st, v, i, base) ==>
              Verdict(json, inner, Readable(Child(v, i), |base| + Nesting(v)), Tokens(Child(v, i)), next)
    requires HeadParses(st, v, i, base) && Readable(Child(v, i), |base| + Nesting(v)) ==>
               Verdict(json, next, ReadableFrom(v, i + 1, |base|), TokensFrom(v, i + 1),
                   State(p + |RenderFrom(v, i)|, base, EndType(v)))
    ensures Verdict(json, st, ReadableFrom(v, i, |base|), TokensFrom(v, i), State(p + |RenderFrom(v, i)|, base,
              EndType(v)))
  {
    hide *;
    KeepsType(json, st, p, v, i, base);
    ReadableStep(st, v, i, base);
    TokensStep(v, i);
    ThreeParts(json, st, TokenHead(v, i), inner, Tokens(Child(v, i)), next, TokensFrom(v, i + 1),
               State(p + |RenderFrom(v, i)|, base, EndType(v)),
               HeadParses(st, v, i, base), Readable(Child(v, i), |base| + Nesting(v)), ReadableFrom(v, i + 1, |base|));
  }

  lemma ParseEnd(json: string, st: State, p: nat, v: Value, base: string)
    requires AtChild(json, st, p, v, Count(v), base)
    ensures Verdict(json, st, ReadableFrom(v, Count(v), |base|), TokensFrom(v, Count(v)),
                    State(p + |RenderFrom(v, Count(v))|, base, EndType(v)))
  {
    hide Leads, Misses, HasAt;
    assert FootReadable(v, |base|) <==> FootParses(st, v, base);
    ParseFoot(json, st, p, v, base);
  }

  lemma TokensStep(v: Value, i: nat)
    requires i < Count(v)
    ensures TokensFrom(v, i) == TokenHead(v, i) + Tokens(Child(v, i)) + TokensFrom(v, i + 1)
  {
  }

  lemma InnerStack(st: State, p: nat, v: Value, i: nat, base: string)
    requires i < Count(v) && HeadParses(st, v, i, base)
    ensures var inner := ChildState(st, p, v, i, base);
            |inner.stack| == |base| + Nesting(v) <= JSONPARSE_MAX_DEPTH && ValueTop(inner.stack)
                && inner.stack == StackInside(v, base)
  {
  }

  /** Three runs in a row. */
  lemma ThreeParts(json: string, st: State, ts: seq<Token>, st2: State, us: seq<Token>, st3: State,
      vs: seq<Token>, st4: State,
                   a: bool, b: bool, c: bool)
    requires Verdict(json, st, a, ts, st2)
    requires a ==> Verdict(json, st2, b, us, st3)
    requires a && b ==> Verdict(json, st3, c, vs, st4)
    ensures Verdict(json, st, a && b && c, ts + us + vs, st4)
  {
    hide Leads, Misses;
    if !a {
      MissesMore(json, st, ts, us);
      MissesMore(json, st, ts + us, vs);
    } else if !b {
      LeadsToMiss(json, st, ts, st2, us);
      MissesMore(json, st, ts + us, vs);
    } else {
      LeadsOn(json, st, ts, st2, us, st3);
      if c {
        LeadsOn(json, st, ts + us, st3, vs, st4);
      } else {
        LeadsToMiss(json, st, ts + us, st3, vs);
      }
    }
  }

  lemma ReadableStep(st: State, v: Value, i: nat, base: string)
    requires i < Count(v) && (i > 0 ==> st.vtype == EndType(Child(v, i - 1)))
    ensures ReadableFrom(v, i, |base|) <==>
            HeadParses(st, v, i, base) && Readable(Child(v, i), |base| + Nesting(v)) && ReadableFrom(v, i + 1, |base|)
  {
  }

  lemma ChildReady(json: string, st: State, p: nat, v: Value, i: nat, base: string)
    requires i < Count(v) && AtChild(json, st, p, v, i, base)
    ensures var q := p + |Head(v, i)|;
            && HasAt(json, p, Head(v, i)) && Solid(json, q) && StandsAt(json, st, p) && NoZero(Name(v, i))
            && HasAt(json, q, Render(Child(v, i))) && NumberEnds(json, q + |Render(Child(v, i))|)
                && CStrings(Child(v, i))
            && HasAt(json, q + |Render(Child(v, i))|, RenderFrom(v, i + 1))
    ensures Container(v) && MayStart(v, base) && st.stack == StackBetween(v, i, base)
    ensures i > 0 ==> st.vtype == EndType(Child(v, i - 1)) && |base| + Nesting(v) <= JSONPARSE_MAX_DEPTH
  {
    hide HasAt, RenderFrom, Render, Head, NumberEnds, Solid, NoZero, MayStart, StackBetween, EndType;
    FromParts(json, p, v, i);
    if i > 0 {
      FromStart(v, i);
      HasFirst(json, p, RenderFrom(v, i));
      NotSpace(json, st, p);
    }
  }

  lemma NextChild(json: string, st: State, p: nat, v: Value, i: nat, base: string)
    requires i < Count(v) && AtChild(json, st, p, v, i, base) && HeadParses(st, v, i, base)
    ensures var q := p + |Head(v, i)| + |Render(Child(v, i))|;
            AtChild(json, State(q, ChildState(st, p, v, i, base).stack, EndType(Child(v, i))), q, v, i + 1, base)
            && q + |RenderFrom(v, i + 1)| == p + |RenderFrom(v, i)|
  {
    hide HasAt, RenderFrom, Render, Head, EndType, NumberEnds, Solid, StandsAt;
    FromParts(json, p, v, i);
  }

  /** One value: its tokens exactly if it is readable at this depth. */
  lemma {:induction false} ParseValue(json: string, st: State, p: nat, v: Value)
    requires ValueReady(json, st, p, v)
    ensures Verdict(json, st, Readable(v, |st.stack|), Tokens(v), State(p + |Render(v)|, st.stack, EndType(v)))
    decreases v, Count(v) + 1
  {
    hide Leads, Misses, HasAt, StandsAt, NumberEnds, Digits, Quoted, IntText;
    match v
    case Str(s) => ParseString(json, st, p, '"', s);
    case Int(n) => ParseInt(json, st, p, n);
    case _ => ParseFrom(json, st, p, v, 0, st.stack);
  }

  /**
   Tokenizing a printed tree gives back its tokens, without an error and with the stack empty at the end, exactly when
   the tree is a readable object.
  */
  lemma RoundTrip(v: Value)
    requires CStrings(v)
    ensures Run(Render(v), State(0, "", '\0')) == Done(Tokens(v), 0) <==> v.Obj? && Readable(v, 0)
  {
    hide *;
    var json, st := Render(v), State(0, "", '\0');
    if v.Obj? {
      RootReady(v);
      ParseValue(json, st, 0, v);
      RootVerdict(json, st, Readable(v, 0), Tokens(v), EndType(v));
    } else {
      RootFails(v);
      RootVerdict(json, st, false, Tokens(v), '\0');
    }
  }

  lemma RootReady(v: Value)
    requires CStrings(v) && v.Obj?
    ensures ValueReady(Render(v), State(0, "", '\0'), 0, v)
  {
    hide Render, CStrings;
    var json := Render(v);
    RenderStart(v);
    NotSpace(json, State(0, "", '\0'), 0);
    assert json[0..|json|] == json;
  }

  lemma RootVerdict(json: string, st: State, ok: bool, ts: seq<Token>, vtype: char)
    requires Verdict(json, st, ok, ts, State(|json|, "", vtype))
    ensures Run(json, st) == Done(ts, 0) <==> ok
  {
    if ok {
      assert Run(json, State(|json|, "", vtype)) == Done([], 0);
      assert ts + [] == ts;
    }
  }

  /** Outside an object the tokenizer takes nothing but an object. */
  lemma RootFails(v: Value)
    requires !v.Obj?
    ensures Verdict(Render(v), State(0, "", '\0'), false, Tokens(v), State(|Render(v)|, "", '\0'))
  {
    var json, st := Render(v), State(0, "", '\0');
    RenderStart(v);
    NotSpace(json, st, 0);
    match v
    case Str(_) => WrongStep(json, st, Tokens(v));
    case Arr(_) =>
      FromStart(v, 0);
      assert Tokens(v) == TokensFrom(v, 0);
      WrongStep(json, st, Tokens(v));
    case Int(_) => WrongStep(json, st, Tokens(v));
  }

  /** A tree that the tokenizer's stack can hold is one that the printer's stack can hold. */
  lemma {:induction false} ReadableLevels(v: Value, depth: nat)
    requires Readable(v, depth) && depth <= JSONPARSE_MAX_DEPTH
    ensures Levels(v) + depth <= if v.Obj? then JSONPARSE_MAX_DEPTH else JSONPARSE_MAX_DEPTH + 1
    decreases v, Count(v) + 1
  {
    if Container(v) {
      ReadableLevelsFrom(v, 0, depth);
    }
  }

  lemma {:induction false} ReadableLevelsFrom(v: Value, i: nat, depth: nat)
    requires Container(v) && i <= Count(v) && ReadableFrom(v, i, depth)
    ensures LevelsFrom(v, i) + depth <= if v.Obj? then JSONPARSE_MAX_DEPTH else JSONPARSE_MAX_DEPTH + 1
    decreases v, Count(v) - i
  {
    if i < Count(v) {
      ReadableLevels(Child(v, i), depth + Nesting(v));
      ReadableLevelsFrom(v, i + 1, depth);
    }
  }

  /** The stepwise printer followed by the tokenizer. */
  method PrintAndTokenize(v: Value) returns (r: Outcome)
    requires v.Obj? && Readable(v, 0) && CStrings(v) && Ints32(v)
    ensures r == Done(Tokens(v), 0)
  {
    hide *;
    RoundTrip(v);
    PrintableObject(v);
    var text, _ := PrintTree(v);
    r := Tokenize(text);
  }

  lemma PrintableObject(v: Value)
    requires v.Obj? && Readable(v, 0) && Ints32(v)
    ensures Printable(v, 0)
  {
    hide Readable, Levels, Ints32;
    ReadableLevels(v, 0);
  }
}
