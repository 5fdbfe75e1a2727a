/** The token sequence of a tree determines the tree, so reading it back loses nothing. */
module JsonTokens {
  import opened JsonTree
  import opened JsonParser
  import opened JsonRoundTrip

  // ---------------------------------------------------------------- texts

  /** What stands at the start of an escaped text. */
  lemma EscapeStart(s: string)
    requires s != ""
    ensures s[0] != '"' ==> Escape(s) == [s[0]] + Escape(s[1..])
    ensures s[0] == '"' ==> Escape(s) == ['\\', '"'] + Escape(s[1..])
    ensures |Escape(s)| > 0 && Escape(s)[0] != '"'
  {
  }

  /** Escaping can be undone. */
  lemma {:induction false} EscapeInjective(s: string, t: string)
    requires Escape(s) == Escape(t)
    ensures s == t
    decreases |s|
  {
    if s != "" && t != "" {
      EscapeStart(s);
      EscapeStart(t);
      EscapeTail(s);
      EscapeTail(t);
      hide Escape;
      if s[0] == '"' && t[0] != '"' {
        BackslashQuote(s, t);
      } else if t[0] == '"' && s[0] != '"' {
        BackslashQuote(t, s);
      } else {
        EscapeInjective(s[1..], t[1..]);
        assert s == [s[0]] + s[1..] && t == [t[0]] + t[1..];
      }
    } else {
      EmptyEscape(s);
      EmptyEscape(t);
    }
  }

  lemma EmptyEscape(s: string)
    ensures Escape(s) == "" <==> s == ""
  {
  }

  lemma EscapeTail(s: string)
    requires s != ""
    ensures Escape(s)[if s[0] == '"' then 2 else 1..] == Escape(s[1..])
  {
  }

  /** An escaped quotation mark is not the text of a backslash with something behind it. */
  lemma BackslashQuote(s: string, t: string)
    requires s != "" && t != "" && s[0] == '"' && t[0] != '"'
    ensures Escape(s) != Escape(t)
  {
    if t[1..] != "" {
      EscapeStart(t[1..]);
    }
    assert Escape(s)[1] == '"';
  }

  /** Decimal texts determine their numbers. */
  lemma IntTextInjective(m: int, n: int)
    requires IntText(m) == IntText(n)
    ensures m == n
  {
    hide Digits, Number;
    MinusFirst(m);
    MinusFirst(n);
    if m < 0 {
      assert IntText(m)[1..] == Digits(-m) && IntText(n)[1..] == Digits(-n);
      DigitsNumber(-m);
      DigitsNumber(-n);
    } else {
      DigitsNumber(m);
      DigitsNumber(n);
    }
  }

  lemma MinusFirst(n: int)
    ensures IntText(n) != "" && (IntText(n)[0] == '-' <==> n < 0)
  {
    hide Digits;
  }

  // ---------------------------------------------------------------- token sequences

  /** The first token tells the kind of a value; no value starts with a closing bracket, a comma or a name. */
  function StartKind(v: Value): char {
    match v
    case Obj(_) => '{'
    case Arr(_) => '['
    case Str(_) => '"'
    case Int(_) => NUMBER
  }

  lemma FirstOfTokens(v: Value)
    ensures Tokens(v) != [] && Tokens(v)[0].kind == StartKind(v)
  {
  }

  /** The tokens of a container from child i on, taken apart. */
  lemma TokensParts(v: Value, i: nat)
    requires Container(v) && i <= Count(v)
    ensures i == Count(v) ==> TokensFrom(v, i) == TokenFoot(v)
    ensures i < Count(v) ==> TokensFrom(v, i) == TokenHead(v, i) + Tokens(Child(v, i)) + TokensFrom(v, i + 1)
  {
  }

  lemma PrefixEqual(x: seq<Token>, y: seq<Token>, a: seq<Token>, b: seq<Token>)
    requires |x| == |y| && x + a == y + b
    ensures x == y && a == b
  {
    assert x == (x + a)[..|x|] && y == (y + b)[..|y|];
    assert a == (x + a)[|x|..] && b == (y + b)[|y|..];
  }

  /** Two values with other tokens behind them: equal sequences mean equal values and equal remainders. */
  lemma {:induction false} ValueUnique(v: Value, w: Value, a: seq<Token>, b: seq<Token>)
    requires Tokens(v) + a == Tokens(w) + b
    ensures v == w && a == b
    decreases v, Count(v) + 1
  {
    FirstOfTokens(v);
    FirstOfTokens(w);
    assert (Tokens(v) + a)[0] == Tokens(v)[0] && (Tokens(w) + b)[0] == Tokens(w)[0];
    match v
    case Str(s) =>
      PrefixEqual(Tokens(v), Tokens(w), a, b);
      EscapeInjective(s, w.text);
    case Int(n) =>
      PrefixEqual(Tokens(v), Tokens(w), a, b);
      IntTextInjective(n, w.n);
    case _ =>
      FromUnique(v, w, 0, a, b);
      SameChildren(v, w);
  }

  ghost predicate SameFrom(v: Value, w: Value, i: nat) {
    Count(v) == Count(w) && forall k | i <= k < Count(v) :: Name(v, k) == Name(w, k) && Child(v, k) == Child(w, k)
  }

  lemma SameChildren(v: Value, w: Value)
    requires Container(v) && Container(w) && v.Obj? == w.Obj? && SameFrom(v, w, 0)
    ensures v == w
  {
    if v.Obj? {
      forall k | 0 <= k < Count(v)
        ensures v.pairs[k] == w.pairs[k]
      {
        assert Name(v, k) == Name(w, k) && Child(v, k) == Child(w, k);
      }
      assert v.pairs == w.pairs;
    } else {
      forall k | 0 <= k < Count(v)
        ensures v.values[k] == w.values[k]
      {
        assert Child(v, k) == Child(w, k);
      }
      assert v.values == w.values;
    }
  }

  lemma {:induction false} FromUnique(v: Value, w: Value, i: nat, a: seq<Token>, b: seq<Token>)
    requires Container(v) && Container(w) && v.Obj? == w.Obj? && i <= Count(v) && i <= Count(w)
    requires TokensFrom(v, i) + a == TokensFrom(w, i) + b
    ensures SameFrom(v, w, i) && a == b
    decreases v, Count(v) - i
  {
    hide Tokens, TokensFrom, Escape;
    SameEnd(v, w, i, a, b);
    TokensParts(v, i);
    TokensParts(w, i);
    if i == Count(v) {
      PrefixEqual(TokenFoot(v), TokenFoot(w), a, b);
    } else {
      var c, d := Child(v, i), Child(w, i);
      var x, y := TokensFrom(v, i + 1) + a, TokensFrom(w, i + 1) + b;
      FourParts(TokenHead(v, i), Tokens(c), TokensFrom(v, i + 1), a);
      FourParts(TokenHead(w, i), Tokens(d), TokensFrom(w, i + 1), b);
      PrefixEqual(TokenHead(v, i), TokenHead(w, i), Tokens(c) + x, Tokens(d) + y);
      NamesEqual(v, w, i);
      ValueUnique(c, d, x, y);
      FromUnique(v, w, i + 1, a, b);
    }
  }

  lemma FourParts(x: seq<Token>, y: seq<Token>, z: seq<Token>, a: seq<Token>)
    ensures x + y + z + a == x + (y + (z + a))
  {
  }

  lemma NamesEqual(v: Value, w: Value, i: nat)
    requires Container(v) && Container(w) && v.Obj? == w.Obj? && i < Count(v) && i < Count(w)
    requires TokenHead(v, i) == TokenHead(w, i)
    ensures Name(v, i) == Name(w, i)
  {
    hide Escape;
    if v.Obj? {
      assert TokenHead(v, i)[1] == Token(PAIR_NAME, Escape(Name(v, i)));
      assert TokenHead(w, i)[1] == Token(PAIR_NAME, Escape(Name(w, i)));
      EscapeInjective(Name(v, i), Name(w, i));
    }
  }

  /** What stands second, behind an opening bracket, or first, in front of a later child or at the end. */
  function Marker(v: Value, i: nat): char
    requires i <= Count(v)
  {
    if i == Count(v) then Close(v)
    else if i > 0 then ','
    else if v.Obj? then PAIR_NAME else StartKind(Child(v, 0))
  }

  lemma MarkerAt(v: Value, i: nat, a: seq<Token>)
    requires Container(v) && i <= Count(v)
    ensures var at := if i == 0 then 1 else 0;
            at < |TokensFrom(v, i) + a| && (TokensFrom(v, i) + a)[at].kind == Marker(v, i)
  {
    TokensParts(v, i);
    if i < Count(v) {
      FirstOfTokens(Child(v, i));
    }
    hide Tokens, TokensFrom;
  }

  /** One container ends where the other does. */
  lemma SameEnd(v: Value, w: Value, i: nat, a: seq<Token>, b: seq<Token>)
    requires Container(v) && Container(w) && v.Obj? == w.Obj? && i <= Count(v) && i <= Count(w)
    requires TokensFrom(v, i) + a == TokensFrom(w, i) + b
    ensures i == Count(v) <==> i == Count(w)
  {
    hide Tokens, TokensFrom;
    MarkerAt(v, i, a);
    MarkerAt(w, i, b);
  }

  /** Different trees have different token sequences. */
  lemma TokensInjective(v: Value, w: Value)
    requires Tokens(v) == Tokens(w)
    ensures v == w
  {
    hide Tokens;
    assert Tokens(v) + [] == Tokens(v) && Tokens(w) + [] == Tokens(w);
    ValueUnique(v, w, [], []);
  }

  /** Seen from outside: readable objects whose printed texts give the same tokens are the same tree. */
  lemma OutcomeDetermines(v: Value, w: Value)
    requires v.Obj? && Readable(v, 0) && CStrings(v) && w.Obj? && Readable(w, 0) && CStrings(w)
    requires Run(Render(v), State(0, "", '\0')) == Run(Render(w), State(0, "", '\0'))
    ensures v == w
  {
    hide Tokens, Readable, Render, Run, CStrings;
    RoundTrip(v);
    RoundTrip(w);
    TokensInjective(v, w);
  }
}
