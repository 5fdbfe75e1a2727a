/**
 The JSON tokenizer: a pushdown automaton over a stack of brackets and colons
 (cc2530/contiki_os/apps/json/jsonparse.c).
*/
module JsonParser {
  const JSONPARSE_MAX_DEPTH := 10

  const PAIR_NAME: char := 'N'
  const NUMBER: char := '0'

  datatype State = State(pos: nat, stack: string, vtype: char)

  /**
   One call: a token with the text of an atomic value, an error, or undefined behaviour: a write behind the stack or a
   read behind the end of the text.
  */
  datatype Step = Next(kind: char, text: string, st: State) | Error | Undefined

  datatype Scan = Stop(pos: nat) | Overrun

  /** The text ends with a zero character. */
  function CharAt(json: string, i: nat): char {
    if i < |json| then json[i] else '\0'
  }

  function SkipWs(json: string, pos: nat): (p: nat)
    ensures pos <= p && (pos <= |json| ==> p <= |json|)
    decreases |json| - pos
  {
    if pos < |json| && (json[pos] == ' ' || json[pos] == '\n') then SkipWs(json, pos + 1) else pos
  }

  /** The position behind the closing quotation mark, or behind the end of the text. */
  function ScanString(json: string, pos: nat): (r: Scan)
    ensures r.Stop? ==> pos < r.pos <= |json| + 1
    decreases |json| + 1 - pos
  {
    if pos > |json| then Overrun
    else
      var c := CharAt(json, pos);
      if c == '\0' || c == '"' then Stop(pos + 1)
      else if c == '\\' then ScanString(json, pos + 2)
      else ScanString(json, pos + 1)
  }

  predicate NumberChar(c: char) {
    '0' <= c <= '9' || c == '.'
  }

  function ScanNumber(json: string, pos: nat): (p: nat)
    ensures pos <= p && (pos <= |json| ==> p <= |json|)
    decreases |json| - pos
  {
    if pos < |json| && NumberChar(json[pos]) then ScanNumber(json, pos + 1) else pos
  }

  function Top(stack: string): char {
    if stack == "" then '\0' else stack[|stack| - 1]
  }

  function Popped(stack: string): string {
    if stack == "" then "" else stack[..|stack| - 1]
  }

  function PushStep(c: char, pos: nat, stack: string): Step {
    if |stack| >= JSONPARSE_MAX_DEPTH then Undefined else Next(c, "", State(pos, stack + [c], '\0'))
  }

  function StringStep(json: string, kind: char, pos: nat, stack: string): Step
    requires pos <= |json|
  {
    match ScanString(json, pos)
    case Overrun => Undefined
    case Stop(end) => Next(kind, json[pos..end - 1], State(end, stack, kind))
  }

  /** One call of the tokenizer, as a function. */
  function StepAt(json: string, p: nat, st: State): Step
    requires p <= |json|
  {
    var c, s, q := CharAt(json, p), Top(st.stack), p + 1;
    if c == '{' then PushStep(c, q, st.stack)
    else if c == '}' then
      var stack := if s == ':' && st.vtype != '\0' then Popped(st.stack) else st.stack;
      if Top(stack) == '{' then Next(c, "", State(q, Popped(stack), st.vtype)) else Error
    else if c == ']' then if s == '[' then Next(c, "", State(q, Popped(st.stack), st.vtype)) else Error
    else if c == ':' then PushStep(c, q, st.stack)
    else if c == ',' then
      if s == ':' && st.vtype != '\0' then Next(c, "", State(q, Popped(st.stack), st.vtype))
      else if s == '[' then Next(c, "", State(q, st.stack, st.vtype))
      else Error
    else if c == '"' then
      if s == '{' then StringStep(json, PAIR_NAME, q, st.stack)
      else if s == '[' || s == ':' then StringStep(json, c, q, st.stack)
      else Error
    else if c == '[' then if s == '{' || s == '[' || s == ':' then PushStep(c, q, st.stack) else Error
    else if (s == ':' || s == '[') && '0' <= c <= '9' then
      var end := ScanNumber(json, q);
      Next(NUMBER, json[p..end], State(end, st.stack, NUMBER))
    else Next('\0', "", State(q, st.stack, st.vtype))
  }

  function StepFrom(json: string, st: State): (r: Step)
    requires st.pos < |json|
    ensures r.Next? ==> st.pos < r.st.pos
  {
    StepAt(json, SkipWs(json, st.pos), st)
  }

  datatype Token = Token(kind: char, text: string)

  datatype Outcome = Done(tokens: seq<Token>, depth: nat) | Failed | Lost

  function Prepend(t: Token, r: Outcome): Outcome {
    match r
    case Done(ts, d) => Done([t] + ts, d)
    case _ => r
  }

  /** All calls, as long as there is text left and no error. */
  function Run(json: string, st: State): Outcome
    decreases |json| - st.pos
  {
    if st.pos >= |json| then Done([], |st.stack|)
    else
      match StepFrom(json, st)
      case Next(k, t, st') => Prepend(Token(k, t), Run(json, st'))
      case Error => Failed
      case Undefined => Lost
  }

  // ---------------------------------------------------------------- the tokenizer in place

  class JsonState {
    const json: string
    const stack: array<char>
    var pos: nat
    var depth: nat
    var vstart: nat
    var vlen: nat
    var vtype: char
    var error: bool

    ghost predicate Valid()
      reads this`depth
    {
      stack.Length == JSONPARSE_MAX_DEPTH && depth <= JSONPARSE_MAX_DEPTH
    }

    ghost function Current(): State
      requires Valid()
      reads this`pos, this`depth, this`vtype, stack
    {
      State(pos, stack[..depth], vtype)
    }

    /** jsonparse_setup */
    constructor (json: string)
      ensures Valid() && fresh(stack) && this.json == json && !error && pos == 0 && depth == 0 && vtype == '\0'
    {
      this.json := json;
      stack := new char[JSONPARSE_MAX_DEPTH](i => '\0');
      pos, depth, vstart, vlen, vtype, error := 0, 0, 0, 0, '\0', false;
    }

    method Push(c: char) returns (undefined: bool)
      requires Valid()
      modifies this`depth, this`vtype, stack
      ensures Valid()
      ensures undefined == (old(depth) == JSONPARSE_MAX_DEPTH)
      ensures !undefined ==> stack[..depth] == old(stack[..depth]) + [c] && vtype == '\0'
    {
      if depth == JSONPARSE_MAX_DEPTH {
        return true;
      }
      stack[depth] := c;
      depth := depth + 1;
      vtype := '\0';
      undefined := false;
    }

    method Pop() returns (c: char)
      requires Valid()
      modifies this`depth
      ensures Valid() && stack[..depth] == Popped(old(stack[..depth])) && c == Top(old(stack[..depth]))
    {
      if depth == 0 {
        return '\0';
      }
      depth := depth - 1;
      c := stack[depth];
    }

    /** jsonparse_get_type */
    method GetType() returns (s: char)
      requires Valid()
      ensures s == Top(stack[..depth])
    {
      if depth == 0 {
        return '\0';
      }
      s := stack[depth - 1];
    }

    /** atomic, for strings and names */
    method AtomicString(kind: char) returns (undefined: bool)
      requires pos <= |json|
      modifies this`pos, this`vstart, this`vlen, this`vtype
      ensures undefined <==> ScanString(json, old(pos)).Overrun?
      ensures !undefined ==>
                pos == ScanString(json, old(pos)).pos && vtype == kind && vstart == old(pos) && vstart + vlen + 1 == pos
    {
      vstart := pos;
      vtype := kind;
      while true
        invariant ScanString(json, pos) == ScanString(json, old(pos)) && vstart == old(pos) <= pos && vtype == kind
        decreases |json| + 1 - pos
      {
        if pos > |json| {
          return true;
        }
        var c := CharAt(json, pos);
        pos := pos + 1;
        if c == '\0' || c == '"' {
          break;
        }
        if c == '\\' {
          pos := pos + 1;
        }
      }
      vlen := pos - vstart - 1;
      undefined := false;
    }

    /** atomic, for numbers; the first digit is already gone */
    method AtomicNumber()
      requires 0 < pos <= |json|
      modifies this`pos, this`vstart, this`vlen, this`vtype
      ensures pos == ScanNumber(json, old(pos)) && vtype == NUMBER && vstart == old(pos) - 1 && vstart + vlen == pos
    {
      vstart := pos;
      vtype := NUMBER;
      while pos < |json| && NumberChar(json[pos])
        invariant vstart == old(pos) <= pos <= |json| && vtype == NUMBER
        invariant ScanNumber(json, pos) == ScanNumber(json, old(pos))
      {
        pos := pos + 1;
      }
      vstart := vstart - 1;
      vlen := pos - vstart;
    }

    method SkipSpace()
      requires pos <= |json|
      modifies this`pos
      ensures pos == SkipWs(json, old(pos))
    {
      while pos < |json| && (json[pos] == ' ' || json[pos] == '\n')
        invariant pos <= |json| && SkipWs(json, pos) == SkipWs(json, old(pos))
      {
        pos := pos + 1;
      }
    }

    /** What a call has done, as a step of the function. */
    ghost predicate Did(r: Step, c: char, undefined: bool)
      requires Valid()
      reads this, stack
    {
      match r
      case Undefined => undefined
      case Error => !undefined && error
      case Next(kind, text, st) =>
        && !undefined && !error && c == kind && Current() == st
        && (if Atomic(kind) then vstart + vlen <= |json| && json[vstart..vstart + vlen] == text else text == "")
    }

    /** A closing brace also ends the pair in front of it. */
    method CloseObject(s: char) returns (c: char)
      requires Valid() && !error && s == Top(stack[..depth])
      modifies this`depth, this`error
      ensures Valid()
      ensures var closed := if s == ':' && vtype != '\0' then Popped(old(stack[..depth])) else old(stack[..depth]);
              if Top(closed) == '{' then c == '}' && !error && stack[..depth] == Popped(closed) else error
    {
      var t := s;
      if s == ':' && vtype != '\0' {
        var _ := Pop();
        t := GetType();
      }
      if t == '{' {
        var _ := Pop();
        return '}';
      }
      error := true;
      c := '\0';
    }

    /** jsonparse_next */
    method Next() returns (c: char, undefined: bool)
      requires Valid() && pos < |json| && !error
      modifies this, stack
      ensures Valid() && Did(StepFrom(json, old(Current())), c, undefined)
    {
      hide ScanString, ScanNumber, SkipWs, Popped, Top;
      SkipSpace();
      ghost var p := pos;
      ghost var before := stack[..depth];
      c := CharAt(json, pos);
      var s := GetType();
      pos := pos + 1;
      undefined := false;
      if c == '{' || c == ':' {
        undefined := Push(c);
      } else if c == '}' {
        PastEnd(json, p);
        c := CloseObject(s);
      } else if c == ']' {
        if s == '[' {
          var _ := Pop();
        } else {
          error := true;
          return '\0', false;
        }
      } else if c == ',' {
        if s == ':' && vtype != '\0' {
          var _ := Pop();
        } else if s != '[' {
          error := true;
          return '\0', false;
        }
      } else if c == '"' {
        PastEnd(json, p);
        if s == '{' || s == '[' || s == ':' {
          c := if s == '{' then PAIR_NAME else c;
          undefined := AtomicString(c);
        } else {
          error := true;
          return '\0', false;
        }
      } else if c == '[' {
        if s == '{' || s == '[' || s == ':' {
          undefined := Push(c);
        } else {
          error := true;
          return '\0', false;
        }
      } else {
        if (s == ':' || s == '[') && '0' <= c <= '9' {
          PastEnd(json, p);
          AtomicNumber();
          return NUMBER, false;
        }
        c := '\0';
      }
    }
  }

  predicate Atomic(kind: char) {
    kind == PAIR_NAME || kind == '"' || kind == NUMBER
  }

  lemma PastEnd(json: string, p: nat)
    requires CharAt(json, p) != '\0'
    ensures p < |json|
  {
  }

  /** The caller's loop: all tokens until the text or the patience of the tokenizer ends. */
  method Tokenize(json: string) returns (r: Outcome)
    ensures r == Run(json, State(0, "", '\0'))
  {
    var state := new JsonState(json);
    var tokens: seq<Token> := [];
    hide StepFrom;
    while state.pos < |json|
      invariant fresh(state) && fresh(state.stack) && state.json == json && state.Valid() && !state.error
      invariant Run(json, State(0, "", '\0')) == PrependAll(tokens, Run(json, state.Current()))
      decreases |json| - state.pos
    {
      ghost var st := state.Current();
      var c, undefined := state.Next();
      if undefined {
        return Lost;
      }
      if state.error {
        return Failed;
      }
      var text := if Atomic(c) then json[state.vstart..state.vstart + state.vlen] else "";
      PrependLast(tokens, Token(c, text), Run(json, state.Current()));
      tokens := tokens + [Token(c, text)];
    }
    r := Done(tokens, state.depth);
  }

  function PrependAll(ts: seq<Token>, r: Outcome): Outcome {
    match r
    case Done(us, d) => Done(ts + us, d)
    case _ => r
  }

  lemma PrependLast(ts: seq<Token>, t: Token, r: Outcome)
    ensures PrependAll(ts, Prepend(t, r)) == PrependAll(ts + [t], r)
  {
    if r.Done? {
      assert ts + ([t] + r.tokens) == ts + [t] + r.tokens;
    }
  }
}
