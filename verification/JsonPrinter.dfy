/**
 The stepwise printer: an explicit stack of values and child numbers, one step for each call
 (jsontree_print_next in cc2530/contiki_os/apps/json/jsontree.c).
*/
module JsonPrinter {
  import opened JsonTree

  const JSONTREE_MAX_DEPTH := 10

  /** Every value on the stack is the child, chosen by the number beside it, of the one below. */
  ghost predicate Path(root: Value, values: seq<Value>, index: seq<nat>, depth: nat) {
    && depth < |values| == |index| && values[0] == root
    && forall d | 0 <= d < depth :: Descends(values, index, d)
  }

  ghost predicate Descends(values: seq<Value>, index: seq<nat>, d: nat) {
    d + 1 < |values| && d < |index| && index[d] < Count(values[d]) && values[d + 1] == Child(values[d], index[d])
  }

  /** The text still to be printed for the levels below d. */
  ghost function After(values: seq<Value>, index: seq<nat>, d: nat): string
    requires d < |values| == |index| && forall k | 0 <= k < d :: Descends(values, index, k)
  {
    if d == 0 then ""
    else
      assert Descends(values, index, d - 1);
      RenderFrom(values[d - 1], index[d - 1] + 1) + After(values, index, d - 1)
  }

  ghost function StepsAfter(values: seq<Value>, index: seq<nat>, d: nat): nat
    requires d < |values| == |index| && forall k | 0 <= k < d :: Descends(values, index, k)
  {
    if d == 0 then 0
    else
      assert Descends(values, index, d - 1);
      StepsFrom(values[d - 1], index[d - 1] + 1) + StepsAfter(values, index, d - 1)
  }

  ghost function TextAt(v: Value, i: nat): string
    requires i <= Count(v)
  {
    if Container(v) then RenderFrom(v, i) else Render(v)
  }

  /** Values above d do not matter for what is left below it. */
  lemma {:induction false} AfterSame(a: seq<Value>, x: seq<nat>, b: seq<Value>, y: seq<nat>, d: nat)
    requires d < |a| == |x| && d < |b| == |y| && a[..d] == b[..d] && x[..d] == y[..d] && (d > 0 ==> a[d] == b[d])
    requires forall k | 0 <= k < d :: Descends(a, x, k)
    ensures forall k | 0 <= k < d :: Descends(b, y, k)
    ensures After(a, x, d) == After(b, y, d) && StepsAfter(a, x, d) == StepsAfter(b, y, d)
  {
    forall k | 0 <= k < d
      ensures Descends(b, y, k)
    {
      assert Descends(a, x, k);
      assert a[..d][k] == b[..d][k] && x[..d][k] == y[..d][k];
      assert k + 1 < d ==> a[..d][k + 1] == b[..d][k + 1];
    }
    if d > 0 {
      assert a[..d - 1] == a[..d][..d - 1] && b[..d - 1] == b[..d][..d - 1];
      assert x[..d - 1] == x[..d][..d - 1] && y[..d - 1] == y[..d][..d - 1];
      assert a[d - 1] == a[..d][d - 1] && b[d - 1] == b[..d][d - 1] && x[d - 1] == x[..d][d - 1]
          && y[d - 1] == y[..d][d - 1];
      AfterSame(a, x, b, y, d - 1);
    }
  }

  /** The tree has integers and a depth that the printer can deal with at depth d. */
  predicate Printable(v: Value, d: nat) {
    Ints32(v) && d + Levels(v) <= JSONTREE_MAX_DEPTH
  }

  lemma ChildPrintable(v: Value, i: nat, d: nat)
    requires Printable(v, d) && i < Count(v)
    ensures Printable(Child(v, i), d + 1) && d + 1 < JSONTREE_MAX_DEPTH
  {
    ChildLevels(v, i, 0);
    ChildInts(v, i, 0);
  }

  /** A child on top of the stack. */
  lemma PushPath(root: Value, a: seq<Value>, x: seq<nat>, depth: nat, child: Value)
    requires Path(root, a, x, depth) && depth + 1 < |a|
    requires x[depth] < Count(a[depth]) && child == Child(a[depth], x[depth])
    ensures var b, y := a[depth + 1 := child], x[depth + 1 := 0];
            Path(root, b, y, depth + 1)
            && After(b, y, depth + 1) == RenderFrom(a[depth], x[depth] + 1) + After(a, x, depth)
            && StepsAfter(b, y, depth + 1) == StepsFrom(a[depth], x[depth] + 1) + StepsAfter(a, x, depth)
  {
    hide RenderFrom, StepsFrom;
    var b, y := a[depth + 1 := child], x[depth + 1 := 0];
    AfterSame(a, x, b, y, depth);
    assert Descends(b, y, depth);
  }

  class JsonContext {
    ghost const root: Value
    const values: array<Value>
    const index: array<nat>
    var depth: nat
    /** What putchar has received. */
    var out: string

    ghost predicate Valid()
      reads this`depth, values, index
    {
      && values.Length == index.Length == JSONTREE_MAX_DEPTH
      && Path(root, values[..], index[..], depth) && index[depth] <= Count(values[depth])
      && forall d | 0 <= d <= depth :: Printable(values[d], d)
    }

    /** The text still to come. */
    ghost function Remaining(): string
      requires Valid()
      reads this`depth, values, index
    {
      TextAt(values[depth], index[depth]) + After(values[..], index[..], depth)
    }

    /** The calls still to come. */
    ghost function RemainingSteps(): nat
      requires Valid()
      reads this`depth, values, index
    {
      StepsFrom(values[depth], index[depth]) + StepsAfter(values[..], index[..], depth)
    }

    /** jsontree_setup */
    constructor (tree: Value)
      requires Printable(tree, 0)
      ensures Valid() && fresh(values) && fresh(index) && root == tree && depth == 0 && out == ""
      ensures Remaining() == Render(tree) && RemainingSteps() == Steps(tree)
    {
      root := tree;
      values := new Value[JSONTREE_MAX_DEPTH](i => tree);
      index := new nat[JSONTREE_MAX_DEPTH](i => 0);
      depth, out := 0, "";
    }

    method PutChar(c: char)
      modifies this`out
      ensures out == old(out) + [c]
    {
      out := out + [c];
    }

    /** jsontree_write_string */
    method WriteString(text: string)
      modifies this`out
      ensures out == old(out) + Quoted(text)
    {
      ghost var before := out;
      PutChar('"');
      ghost var start := out;
      assert text[..0] == "" && text[..|text|] == text;
      for i := 0 to |text|
        invariant out == start + Escape(text[..i])
      {
        EscapeNext(text, i);
        hide Escape;
        if text[i] == '"' {
          PutChar('\\');
        }
        PutChar(text[i]);
      }
      hide Escape;
      PutChar('"');
      assert before + ['"'] + Escape(text) + ['"'] == before + (['"'] + Escape(text) + ['"']);
    }

    /** The digits of a number, collected from the last one in a buffer of ten. */
    method CollectDigits(n: nat, buf: array<char>) returns (first: nat)
      requires n < 0x8000_0000 && buf.Length == 10
      modifies buf
      ensures first < 10 && buf[first..] == Digits(n)
    {
      var value: nat := n;
      var l := 9;
      ghost var tail: string := "";
      assert Power10(10) == 10_000_000_000;
      while true
        invariant 0 <= l <= 9 && value < Power10(l + 1)
        invariant Digits(n) == Digits(value) + tail && tail == buf[l + 1..]
        decreases l
      {
        DigitsStep(value, tail);
        hide Digits;
        buf[l] := Digit(value % 10);
        tail := [Digit(value % 10)] + tail;
        value := value / 10;
        assert buf[l..] == tail;
        l := l - 1;
        if value == 0 || l < 0 {
          break;
        }
      }
      first := l + 1;
    }

    /** jsontree_write_int */
    method WriteInt(n: int)
      requires -0x8000_0000 < n < 0x8000_0000
      modifies this`out
      ensures out == old(out) + IntText(n)
    {
      hide Digits;
      var value: nat := if n < 0 then -n else n;
      if n < 0 {
        PutChar('-');
      }
      var buf := new char[10](i => '0');
      var l := CollectDigits(value, buf);
      PutBuffer(buf, l);
    }

    /** The characters of the buffer from position first on. */
    method PutBuffer(buf: array<char>, first: nat)
      requires first <= buf.Length
      modifies this`out
      ensures out == old(out) + buf[first..]
    {
      var l := first;
      while l < buf.Length
        invariant first <= l <= buf.Length && out == old(out) + buf[first..l]
      {
        PutChar(buf[l]);
        l := l + 1;
      }
      assert buf[first..buf.Length] == buf[first..];
    }

    /** The name of a pair. */
    method PrintName(v: Value, i: nat)
      requires i < Count(v)
      modifies this`out
      ensures out == old(out) + if v.Obj? then Quoted(Name(v, i)) + [':'] else ""
    {
      hide Quoted;
      if v.Obj? {
        WriteString(v.pairs[i].name);
        PutChar(':');
      }
    }

    /** What a step prints in front of the next child, or behind the last one. */
    method PrintContainer(v: Value, i: nat)
      requires Container(v) && i <= Count(v)
      modifies this`out
      ensures out == old(out) + if i < Count(v) then Head(v, i) else Foot(v)
    {
      hide Quoted, Open, Close;
      if i == 0 {
        PutChar(Open(v));
        PutChar('\n');
      }
      if i >= Count(v) {
        PutChar('\n');
        PutChar(Close(v));
        return;
      }
      if i > 0 {
        PutChar(',');
        PutChar('\n');
      }
      assert out == old(out) + (if i == 0 then [Open(v), '\n'] else [',', '\n']);
      PrintName(v, i);
    }

    /** Step down to a child. */
    method Descend(child: Value)
      requires Valid() && index[depth] < Count(values[depth]) && child == Child(values[depth], index[depth])
      modifies this`depth, values, index
      ensures Valid()
      ensures Remaining() == Render(child) + RenderFrom(old(values[depth]),
                old(index[depth]) + 1) + old(After(values[..], index[..], depth))
      ensures RemainingSteps()
           == Steps(child) + StepsFrom(old(values[depth]), old(index[depth]) + 1)
              + old(StepsAfter(values[..], index[..], depth))
    {
      hide Path, After, StepsAfter, Printable, Descends, RenderFrom, Render, Steps, StepsFrom;
      Outlook();
      ghost var v, i := values[depth], index[depth];
      ghost var a, x := values[..], index[..];
      ChildPrintable(v, i, depth);
      ChildTexts(child, v, i);
      PushPath(root, a, x, depth, child);
      assert forall d | 0 <= d <= depth :: a[d] == values[d];
      depth := depth + 1;
      index[depth] := 0;
      values[depth] := child;
      assert values[..] == a[depth := child] && index[..] == x[depth := 0];
    }

    /** Back up one level, where there is one. */
    method BackUp() returns (more: bool)
      requires Valid()
      modifies this`depth, index
      ensures Valid() && more == (old(depth) > 0)
      ensures more ==> Remaining() == old(After(values[..], index[..], depth))
      ensures more ==> RemainingSteps() == old(StepsAfter(values[..], index[..], depth))
      ensures !more ==> depth == 0 && old(After(values[..], index[..], depth)) == ""
      ensures !more ==> old(StepsAfter(values[..], index[..], depth)) == 0
    {
      if depth > 0 {
        ghost var a, x := values[..], index[..];
        assert Descends(a, x, depth - 1);
        depth := depth - 1;
        index[depth] := index[depth] + 1;
        AfterSame(a, x, values[..], index[..], depth);
        return true;
      }
      more := false;
    }

    /** What is printed at the current level, and what the other levels print. */
    lemma Outlook()
      requires Valid()
      ensures depth < values.Length == index.Length && index[depth] <= Count(values[depth]) && Ints32(values[depth])
      ensures forall k | 0 <= k < depth :: Descends(values[..], index[..], k)
      ensures Remaining() == TextAt(values[depth], index[depth]) + After(values[..], index[..], depth)
      ensures RemainingSteps() == StepsFrom(values[depth], index[depth]) + StepsAfter(values[..], index[..], depth)
    {
      assert Printable(values[depth], depth);
    }

    method PrintAtom(v: Value)
      requires !Container(v) && Ints32(v)
      modifies this`out
      ensures out == old(out) + Render(v)
    {
      match v {
        case Str(text) => WriteString(text);
        case Int(n) => WriteInt(n);
      }
    }

    /** A step of a container that has a child left. */
    method StepDown()
      requires Valid() && index[depth] < Count(values[depth])
      modifies this`depth, this`out, values, index
      ensures Valid() && out + Remaining() == old(out) + old(Remaining())
      ensures RemainingSteps() == old(RemainingSteps()) - 1
    {
      hide *;
      Outlook();
      var v := values[depth];
      var i := index[depth];
      LevelText(v, i);
      ghost var start, rest := out, After(values[..], index[..], depth);
      ghost var head, child, tail := Head(v, i), Render(Child(v, i)), RenderFrom(v, i + 1);
      PrintContainer(v, i);
      Descend(Child(v, i));
      assert Remaining() == child + tail + rest;
      RegroupFive(start, head, child, tail, rest);
    }

    /** The last step of a value. */
    method StepUp() returns (more: bool)
      requires Valid() && index[depth] == Count(values[depth])
      modifies this`depth, this`out, values, index
      ensures Valid()
      ensures more ==> out + Remaining() == old(out) + old(Remaining()) && RemainingSteps() == old(RemainingSteps()) - 1
      ensures !more ==> depth == 0 && out == old(out) + old(Remaining()) && old(RemainingSteps()) == 1
    {
      Outlook();
      var v := values[depth];
      LevelText(v, index[depth]);
      ghost var start, rest := out, After(values[..], index[..], depth);
      ghost var text := TextAt(v, index[depth]);
      hide *;
      if Container(v) {
        PrintContainer(v, index[depth]);
      } else {
        PrintAtom(v);
      }
      more := BackUp();
      RegroupTwo(start, text, rest);
    }

    /** jsontree_print_next */
    method PrintNext() returns (more: bool)
      requires Valid()
      modifies this`depth, this`out, values, index
      ensures Valid()
      ensures more ==> out + Remaining() == old(out) + old(Remaining()) && RemainingSteps() == old(RemainingSteps()) - 1
      ensures !more ==> depth == 0 && out == old(out) + old(Remaining()) && old(RemainingSteps()) == 1
    {
      Outlook();
      hide *;
      if index[depth] < Count(values[depth]) {
        StepDown();
        more := true;
      } else {
        more := StepUp();
      }
    }
  }

  lemma RegroupTwo(a: string, b: string, c: string)
    ensures a + b + c == a + (b + c) && (c == "" ==> a + b == a + (b + c))
  {
  }

  lemma RegroupFive(a: string, b: string, c: string, d: string, e: string)
    ensures a + b + (c + d + e) == a + (b + c + d + e)
  {
  }

  /** One step of a level. */
  lemma LevelText(v: Value, i: nat)
    requires i <= Count(v)
    ensures !Container(v) ==> TextAt(v, i) == Render(v) && StepsFrom(v, i) == 1 && i == Count(v)
    ensures Container(v) && i == Count(v) ==> TextAt(v, i) == Foot(v) && StepsFrom(v, i) == 1
    ensures Container(v) && i < Count(v) ==> TextAt(v, i) == Head(v, i) + Render(Child(v, i)) + RenderFrom(v, i + 1)
    ensures i < Count(v) ==> StepsFrom(v, i) == 1 + Steps(Child(v, i)) + StepsFrom(v, i + 1)
  {
  }

  lemma ChildTexts(child: Value, v: Value, i: nat)
    requires i < Count(v) && child == Child(v, i)
    ensures TextAt(child, 0) == Render(child) && StepsFrom(child, 0) == Steps(child)
  {
  }

  lemma EscapeNext(text: string, i: nat)
    requires i < |text|
    ensures Escape(text[..i + 1]) == Escape(text[..i]) + EscapedChar(text[i])
  {
    EscapeLast(text[..i], text[i]);
    assert text[..i] + [text[i]] == text[..i + 1];
  }

  lemma DigitsStep(value: nat, tail: string)
    ensures value < 10 ==> Digits(value) + tail == [Digit(value % 10)] + tail
    ensures value >= 10 ==> Digits(value) + tail == Digits(value / 10) + ([Digit(value % 10)] + tail)
  {
  }

  function Power10(k: nat): nat {
    if k == 0 then 1 else 10 * Power10(k - 1)
  }

  /** The caller's loop: one step after the other until there are no more. */
  method PrintRest(ctx: JsonContext) returns (calls: nat)
    requires ctx.Valid()
    modifies ctx`depth, ctx`out, ctx.values, ctx.index
    ensures ctx.out == old(ctx.out) + old(ctx.Remaining()) && calls == old(ctx.RemainingSteps()) && ctx.depth == 0
  {
    hide *;
    calls := 0;
    while true
      invariant ctx.Valid() && ctx.out + ctx.Remaining() == old(ctx.out) + old(ctx.Remaining())
      invariant calls + ctx.RemainingSteps() == old(ctx.RemainingSteps())
      decreases ctx.RemainingSteps()
    {
      var more := ctx.PrintNext();
      calls := calls + 1;
      if !more {
        return;
      }
    }
  }

  /** Printing by steps: it takes Steps(tree) calls and prints the rendering of the tree. */
  method PrintTree(tree: Value) returns (text: string, calls: nat)
    requires Printable(tree, 0)
    ensures text == Render(tree) && calls == Steps(tree)
  {
    var ctx := new JsonContext(tree);
    hide *;
    calls := PrintRest(ctx);
    text := ctx.out;
    assert text == "" + Render(tree);
  }
}
