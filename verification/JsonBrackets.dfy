/**
 The brackets of an accepted text match, and the printed text of a tree is its tokens with line feeds at the brackets.
*/
module JsonBrackets {
  import opened Slices
  import opened JsonTree
  import opened JsonParser
  import opened JsonRoundTrip
  import opened JsonLayout

  // ---------------------------------------------------------------- accepted texts

  /** The brackets that are open behind the tokens, or None when one closes what is not the innermost open one. */
  datatype Brackets = Brackets(open: string) | Mismatch

  function Opposite(c: char): char {
    if c == '}' then '{' else '['
  }

  function After(open: string, ts: seq<Token>): Brackets
    decreases |ts|
  {
    if ts == [] then Brackets(open)
    else
      var k := ts[0].kind;
      if k == '{' || k == '[' then After(open + [k], ts[1..])
      else if k == '}' || k == ']' then
        if Top(open) == Opposite(k) then After(Popped(open), ts[1..]) else Mismatch
      else After(open, ts[1..])
  }

  /** The brackets on the stack of the tokenizer. */
  function OnStack(stack: string): string {
    if stack == "" then ""
    else OnStack(stack[..|stack| - 1]) + if stack[|stack| - 1] == ':' then "" else [stack[|stack| - 1]]
  }

  lemma StackPushed(stack: string, c: char)
    ensures OnStack(stack + [c]) == OnStack(stack) + if c == ':' then "" else [c]
  {
    assert (stack + [c])[..|stack|] == stack;
  }

  lemma StackPopped(stack: string)
    ensures Top(stack) == ':' ==> OnStack(Popped(stack)) == OnStack(stack)
    ensures Top(stack) == '{' || Top(stack) == '[' ==>
              && OnStack(stack) != "" && Top(OnStack(stack)) == Top(stack)
              && OnStack(Popped(stack)) == Popped(OnStack(stack))
  {
  }

  lemma {:induction false} StackSize(stack: string)
    ensures |OnStack(stack)| <= |stack|
  {
    if stack != "" {
      StackSize(stack[..|stack| - 1]);
    }
  }

  /** One call does to the brackets on the stack what its token does to the open brackets. */
  lemma StepBrackets(json: string, p: nat, st: State)
    requires p <= |json| && StepAt(json, p, st).Next?
    ensures var r := StepAt(json, p, st);
            After(OnStack(st.stack), [Token(r.kind, r.text)]) == Brackets(OnStack(r.st.stack))
  {
    hide ScanString, ScanNumber, OnStack, Top, Popped;
    var r := StepAt(json, p, st);
    var c := CharAt(json, p);
    var t := Token(r.kind, r.text);
    assert [t][1..] == [];
    StackPushed(st.stack, c);
    StackPopped(st.stack);
    StackPopped(Popped(st.stack));
    NoTokensAfter(OnStack(r.st.stack));
  }

  lemma NoTokensAfter(open: string)
    ensures After(open, []) == Brackets(open)
  {
  }

  lemma AfterFirst(open: string, t: Token, ts: seq<Token>, next: string)
    requires After(open, [t]) == Brackets(next)
    ensures After(open, [t] + ts) == After(next, ts)
  {
    assert [t][1..] == [] && ([t] + ts)[1..] == ts;
  }

  lemma {:induction false} RunBrackets(json: string, st: State, ts: seq<Token>, d: nat)
    requires Run(json, st) == Done(ts, d)
    ensures After(OnStack(st.stack), ts).Brackets? && |After(OnStack(st.stack), ts).open| <= d
    decreases |ts|
  {
    hide StepAt, SkipWs, OnStack, After;
    if st.pos >= |json| {
      NoTokensAfter(OnStack(st.stack));
      StackSize(st.stack);
    } else {
      FirstOf(json, st, ts, d);
      var r := StepFrom(json, st);
      StepBrackets(json, SkipWs(json, st.pos), st);
      RunBrackets(json, r.st, ts[1..], d);
      AfterFirst(OnStack(st.stack), ts[0], ts[1..], OnStack(r.st.stack));
      assert [ts[0]] + ts[1..] == ts;
    }
  }

  /**
   In every text that is tokenized to its end each closing bracket closes the innermost open one, of its kind; at depth
   0 all are closed.
  */
  lemma BracketsMatch(json: string, ts: seq<Token>, d: nat)
    requires Run(json, State(0, "", '\0')) == Done(ts, d)
    ensures After("", ts).Brackets? && (d == 0 ==> After("", ts) == Brackets(""))
  {
    hide Run, After;
    RunBrackets(json, State(0, "", '\0'), ts, d);
    assert OnStack("") == "";
  }

  // ---------------------------------------------------------------- printed texts

  /** A token as the printer writes it. */
  function PrintedToken(t: Token): string {
    (if t.kind == '}' || t.kind == ']' then "\n" else "")
    + TokenText(t)
    + if t.kind == '{' || t.kind == '[' || t.kind == ',' then "\n" else ""
  }

  function Printed(ts: seq<Token>): string {
    if ts == [] then "" else PrintedToken(ts[0]) + Printed(ts[1..])
  }

  lemma {:induction false} PrintedConcat(x: seq<Token>, y: seq<Token>)
    ensures Printed(x + y) == Printed(x) + Printed(y)
    decreases |x|
  {
    hide PrintedToken;
    if x == [] {
      assert x + y == y;
    } else {
      assert (x + y)[1..] == x[1..] + y;
      PrintedConcat(x[1..], y);
      Regroup(PrintedToken(x[0]), Printed(x[1..]), Printed(y));
    }
  }

  lemma OnePrinted(t: Token)
    ensures Printed([t]) == PrintedToken(t)
  {
    hide PrintedToken;
    assert [t][1..] == [];
    assert Printed([t]) == PrintedToken(t) + Printed([]);
  }

  lemma NamePrinted(name: string)
    ensures Printed([Token(PAIR_NAME, Escape(name)), Token(':', "")]) == Quoted(name) + [':']
  {
    hide Printed, Escape;
    var x, y := Token(PAIR_NAME, Escape(name)), Token(':', "");
    OnePrinted(x);
    OnePrinted(y);
    PrintedConcat([x], [y]);
    assert [x] + [y] == [x, y];
  }

  lemma HeadPrinted(v: Value, i: nat)
    requires i < Count(v)
    ensures Printed(TokenHead(v, i)) == Head(v, i)
  {
    hide Printed, Escape, Quoted;
    var mark := if i == 0 then Open(v) else ',';
    OnePrinted(Token(mark, ""));
    assert PrintedToken(Token(mark, "")) == [mark, '\n'];
    if v.Obj? {
      NamePrinted(Name(v, i));
      PrintedConcat([Token(mark, "")], [Token(PAIR_NAME, Escape(Name(v, i))), Token(':', "")]);
    } else {
      assert TokenHead(v, i) == [Token(mark, "")];
      assert Head(v, i) == [mark, '\n'];
    }
  }

  lemma FootPrinted(v: Value)
    ensures Printed(TokenFoot(v)) == Foot(v)
  {
    hide Printed;
    var open, close := Token(Open(v), ""), Token(Close(v), "");
    OnePrinted(open);
    OnePrinted(close);
    PrintedConcat([open], [close]);
    assert [open] + [close] == [open, close];
  }

  /**
   The printed text of a tree is its tokens, with a line feed behind opening brackets and commas and before closing
   ones.
  */
  lemma {:induction false} RenderPrinted(v: Value)
    ensures Render(v) == Printed(Tokens(v))
    decreases v, Count(v) + 1
  {
    hide Printed, Escape, IntText, RenderFrom, TokensFrom;
    match v
    case Str(s) => OnePrinted(Token('"', Escape(s)));
    case Int(n) => OnePrinted(Token(NUMBER, IntText(n)));
    case _ => FromPrinted(v, 0);
  }

  lemma {:induction false} FromPrinted(v: Value, i: nat)
    requires i <= Count(v)
    ensures RenderFrom(v, i) == Printed(TokensFrom(v, i))
    decreases v, Count(v) - i
  {
    hide Printed, Head, Foot, TokenHead, TokenFoot, Render, Tokens;
    if i == Count(v) {
      FootPrinted(v);
    } else {
      var head, child, rest := TokenHead(v, i), Tokens(Child(v, i)), TokensFrom(v, i + 1);
      HeadPrinted(v, i);
      RenderPrinted(Child(v, i));
      FromPrinted(v, i + 1);
      PrintedConcat(head, child);
      PrintedConcat(head + child, rest);
    }
  }
}
