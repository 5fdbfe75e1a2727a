/**
 JSON trees and the text they are printed as (cc2530/contiki_os/apps/json/jsontree.h and jsontree.c).
*/
module JsonTree {
  datatype Pair = Pair(name: string, value: Value)

  /** Callback values are left out. */
  datatype Value =
    | Obj(pairs: seq<Pair>)
    | Arr(values: seq<Value>)
    | Str(text: string)
    | Int(n: int)

  predicate Container(v: Value) {
    v.Obj? || v.Arr?
  }

  function Count(v: Value): nat {
    match v
    case Obj(ps) => |ps|
    case Arr(vs) => |vs|
    case _ => 0
  }

  function Child(v: Value, i: nat): (c: Value)
    requires i < Count(v)
    ensures c < v
  {
    match v
    case Obj(ps) => assert ps[i] < v; ps[i].value
    case Arr(vs) => vs[i]
  }

  function Name(v: Value, i: nat): string
    requires i < Count(v)
  {
    if v.Obj? then v.pairs[i].name else ""
  }

  // ---------------------------------------------------------------- atoms

  /** Only quotation marks are escaped. */
  function EscapedChar(c: char): string {
    if c == '"' then ['\\', '"'] else [c]
  }

  function Escape(s: string): (e: string)
    ensures |e| >= |s|
  {
    if s == "" then "" else EscapedChar(s[0]) + Escape(s[1..])
  }

  /** The escaped text of a nonempty string, taken apart, and of a longer one. */
  lemma EscapeCons(s: string)
    ensures s == "" ==> Escape(s) == ""
    ensures s != "" ==> Escape(s) == EscapedChar(s[0]) + Escape(s[1..])
  {
  }

  lemma {:induction false} EscapeLast(s: string, c: char)
    ensures Escape(s + [c]) == Escape(s) + EscapedChar(c)
  {
    hide Escape, EscapedChar;
    EscapeCons(s);
    EscapeCons(s + [c]);
    if s == "" {
      EscapeCons((s + [c])[1..]);
    } else {
      EscapeLast(s[1..], c);
      assert (s + [c])[1..] == s[1..] + [c];
    }
  }

  function Quoted(s: string): string {
    ['"'] + Escape(s) + ['"']
  }

  function Digit(d: nat): (c: char)
    requires d < 10
    ensures '0' <= c <= '9'
  {
    '0' + d as char
  }

  function Digits(n: nat): (s: string)
    ensures |s| > 0 && forall i | 0 <= i < |s| :: '0' <= s[i] <= '9'
  {
    if n < 10 then [Digit(n)] else Digits(n / 10) + [Digit(n % 10)]
  }

  /** What atoi reads. */
  function Number(s: string): nat
    requires forall i | 0 <= i < |s| :: '0' <= s[i] <= '9'
  {
    if s == "" then 0 else 10 * Number(s[..|s| - 1]) + (s[|s| - 1] - '0') as nat
  }

  lemma {:induction false} DigitsNumber(n: nat)
    ensures Number(Digits(n)) == n
  {
    if n >= 10 {
      DigitsNumber(n / 10);
      assert Digits(n)[..|Digits(n)| - 1] == Digits(n / 10);
    } else {
      assert Digits(n)[..0] == "";
    }
  }

  function IntText(n: int): string {
    if n < 0 then ['-'] + Digits(-n) else Digits(n)
  }

  // ---------------------------------------------------------------- the text of a tree

  function Open(v: Value): char {
    if v.Obj? then '{' else '['
  }

  function Close(v: Value): char {
    if v.Obj? then '}' else ']'
  }

  /** The text in front of child i. */
  function Head(v: Value, i: nat): string
    requires i < Count(v)
  {
    (if i == 0 then [Open(v), '\n'] else [',', '\n']) + (if v.Obj? then Quoted(Name(v, i)) + [':'] else "")
  }

  /** The text behind the last child. */
  function Foot(v: Value): string {
    if Count(v) == 0 then [Open(v), '\n', '\n', Close(v)] else ['\n', Close(v)]
  }

  function Render(v: Value): string
    decreases v, Count(v) + 1
  {
    match v
    case Str(s) => Quoted(s)
    case Int(n) => IntText(n)
    case _ => RenderFrom(v, 0)
  }

  /** The text of a container from child i on. */
  function RenderFrom(v: Value, i: nat): string
    requires i <= Count(v)
    decreases v, Count(v) - i
  {
    if i == Count(v) then Foot(v) else Head(v, i) + Render(Child(v, i)) + RenderFrom(v, i + 1)
  }

  /** Nodes on the longest path from the root: the levels the printer needs. */
  function Levels(v: Value): (n: nat)
    ensures n > 0
    decreases v, Count(v) + 1
  {
    LevelsFrom(v, 0)
  }

  function LevelsFrom(v: Value, i: nat): (n: nat)
    requires i <= Count(v)
    ensures n > 0
    decreases v, Count(v) - i
  {
    if i == Count(v) then 1
    else
      var a, b := Levels(Child(v, i)) + 1, LevelsFrom(v, i + 1);
      if a > b then a else b
  }

  lemma {:induction false} ChildLevels(v: Value, i: nat, k: nat)
    requires k <= i < Count(v)
    ensures Levels(Child(v, i)) < LevelsFrom(v, k)
    decreases i - k
  {
    if k < i {
      ChildLevels(v, i, k + 1);
    }
  }

  /** How many printing steps a tree takes: one for each value and one more for each child. */
  function Steps(v: Value): (n: nat)
    ensures n > 0
    decreases v, Count(v) + 1
  {
    StepsFrom(v, 0)
  }

  function StepsFrom(v: Value, i: nat): (n: nat)
    requires i <= Count(v)
    ensures n > 0
    decreases v, Count(v) - i
  {
    if i == Count(v) then 1 else 1 + Steps(Child(v, i)) + StepsFrom(v, i + 1)
  }

  /** Every integer of the tree is one the printer can negate: the lowest 32-bit integer is not. */
  predicate Ints32(v: Value)
    decreases v, Count(v) + 1
  {
    (v.Int? ==> -0x8000_0000 < v.n < 0x8000_0000) && Ints32From(v, 0)
  }

  predicate Ints32From(v: Value, i: nat)
    requires i <= Count(v)
    decreases v, Count(v) - i
  {
    i < Count(v) ==> Ints32(Child(v, i)) && Ints32From(v, i + 1)
  }

  lemma {:induction false} ChildInts(v: Value, i: nat, k: nat)
    requires k <= i < Count(v) && Ints32From(v, k)
    ensures Ints32(Child(v, i))
    decreases i - k
  {
    if k < i {
      ChildInts(v, i, k + 1);
    }
  }
}
