/** White space between tokens: it changes nothing, wherever it stands and however much there is of it. */
module JsonLayout {
  import opened Slices
  import opened JsonTree
  import opened JsonParser
  import opened JsonRoundTrip

  predicate IsSpace(c: char) {
    c == ' ' || c == '\n'
  }

  predicate Spaces(s: string) {
    forall i | 0 <= i < |s| :: IsSpace(s[i])
  }

  /** A call skips the white space in front of it. */
  lemma {:induction false} SkipSpaces(json: string, pos: nat, ws: string)
    requires HasAt(json, pos, ws) && Spaces(ws)
    ensures SkipWs(json, pos) == SkipWs(json, pos + |ws|)
    decreases |ws|
  {
    if ws != "" {
      HasFirst(json, pos, ws);
      assert ws == [ws[0]] + ws[1..];
      HasParts(json, pos, [ws[0]], ws[1..]);
      SkipSpaces(json, pos + 1, ws[1..]);
    }
  }

  // ---------------------------------------------------------------- the same text at another position

  /** What is left of the two texts is the same. */
  predicate SameRest(j: string, p: nat, k: string, q: nat) {
    |j| - p == |k| - q && (p <= |j| ==> j[p..] == k[q..])
  }

  lemma RestOn(j: string, p: nat, k: string, q: nat, n: nat)
    requires SameRest(j, p, k, q)
    ensures SameRest(j, p + n, k, q + n) && CharAt(j, p + n) == CharAt(k, q + n)
  {
    if p + n <= |j| {
      assert j[p + n..] == j[p..][n..] && k[q + n..] == k[q..][n..];
    }
    if p + n < |j| {
      assert j[p + n] == j[p..][n] && k[q + n] == k[q..][n];
    }
  }

  lemma {:induction false} SkipMoved(j: string, p: nat, k: string, q: nat)
    requires SameRest(j, p, k, q)
    ensures SkipWs(j, p) - p == SkipWs(k, q) - q
    decreases |j| - p
  {
    RestOn(j, p, k, q, 0);
    RestOn(j, p, k, q, 1);
    if p < |j| {
      SkipMoved(j, p + 1, k, q + 1);
    }
  }

  lemma {:induction false} StringMoved(j: string, p: nat, k: string, q: nat)
    requires SameRest(j, p, k, q)
    ensures ScanString(k, q) == match ScanString(j, p)
                                case Overrun => Overrun
                                case Stop(r) => Stop(r - p + q)
    decreases |j| + 1 - p
  {
    RestOn(j, p, k, q, 0);
    RestOn(j, p, k, q, 1);
    RestOn(j, p, k, q, 2);
    if p <= |j| {
      StringMoved(j, p + 1, k, q + 1);
      if p < |j| {
        StringMoved(j, p + 2, k, q + 2);
      }
    }
  }

  lemma {:induction false} NumberMoved(j: string, p: nat, k: string, q: nat)
    requires SameRest(j, p, k, q)
    ensures ScanNumber(j, p) - p == ScanNumber(k, q) - q
    decreases |j| - p
  {
    RestOn(j, p, k, q, 0);
    RestOn(j, p, k, q, 1);
    if p < |j| {
      NumberMoved(j, p + 1, k, q + 1);
    }
  }

  /** A step, at another position. */
  function MovedStep(r: Step, p: nat, q: nat): Step
    requires r.Next? ==> r.st.pos >= p
  {
    match r
    case Next(c, text, st) => Next(c, text, State(st.pos - p + q, st.stack, st.vtype))
    case _ => r
  }

  lemma SlicesMoved(j: string, p: nat, k: string, q: nat, n: nat, m: nat)
    requires SameRest(j, p, k, q) && n <= m && p + m <= |j|
    ensures q + m <= |k| && j[p + n..p + m] == k[q + n..q + m]
  {
    SliceOfSlice(j, p, |j|, n, m);
    SliceOfSlice(k, q, |k|, n, m);
    assert j[p..|j|] == j[p..] && k[q..|k|] == k[q..];
  }

  lemma StringStepMoved(j: string, p: nat, k: string, q: nat, kind: char, stack: string)
    requires SameRest(j, p, k, q) && p <= |j| && q <= |k|
    ensures StringStep(j, kind, p, stack).Next? ==> StringStep(j, kind, p, stack).st.pos >= p
    ensures StringStep(k, kind, q, stack) == MovedStep(StringStep(j, kind, p, stack), p, q)
  {
    hide ScanString;
    StringMoved(j, p, k, q);
    var r := ScanString(j, p);
    if r.Stop? {
      SlicesMoved(j, p, k, q, 0, r.pos - 1 - p);
    }
  }

  lemma PushStepMoved(c: char, p: nat, q: nat, stack: string)
    ensures PushStep(c, p, stack).Next? ==> PushStep(c, p, stack).st.pos == p
    ensures PushStep(c, q, stack) == MovedStep(PushStep(c, p, stack), p, q)
  {
  }

  /** Reading behind the first character of a token at two places is moved as well. */
  lemma MovedOn(r: Step, p: nat, q: nat)
    requires r.Next? ==> r.st.pos >= p + 1
    ensures MovedStep(r, p + 1, q + 1) == MovedStep(r, p, q)
  {
  }

  lemma StepAtMoved(j: string, p: nat, k: string, q: nat, st: State, st2: State)
    requires SameRest(j, p, k, q) && p <= |j| && st.stack == st2.stack && st.vtype == st2.vtype
    ensures StepAt(j, p, st).Next? ==> StepAt(j, p, st).st.pos >= p
    ensures StepAt(k, q, st2) == MovedStep(StepAt(j, p, st), p, q)
  {
    hide ScanNumber, Popped, Top, StringStep, PushStep, SameRest;
    SameLength(j, p, k, q);
    RestOn(j, p, k, q, 0);
    RestOn(j, p, k, q, 1);
    var c := CharAt(j, p);
    PushStepMoved(c, p + 1, q + 1, st.stack);
    MovedOn(PushStep(c, p + 1, st.stack), p, q);
    if c == '"' {
      var kind := if Top(st.stack) == '{' then PAIR_NAME else c;
      StringStepMoved(j, p + 1, k, q + 1, kind, st.stack);
      MovedOn(StringStep(j, kind, p + 1, st.stack), p, q);
    } else if '0' <= c <= '9' {
      NumberMoved(j, p + 1, k, q + 1);
      SlicesMoved(j, p, k, q, 0, ScanNumber(j, p + 1) - p);
    }
  }

  lemma SameLength(j: string, p: nat, k: string, q: nat)
    requires SameRest(j, p, k, q)
    ensures |j| - p == |k| - q
  {
  }

  /** Only the rest of the text counts. */
  lemma {:induction false} RunMoved(j: string, st: State, k: string, st2: State)
    requires SameRest(j, st.pos, k, st2.pos) && st.stack == st2.stack && st.vtype == st2.vtype
    ensures Run(j, st) == Run(k, st2)
    decreases |j| - st.pos
  {
    hide StepAt, SkipWs;
    if st.pos < |j| {
      var p, q := SkipWs(j, st.pos), SkipWs(k, st2.pos);
      SkipMoved(j, st.pos, k, st2.pos);
      RestOn(j, st.pos, k, st2.pos, p - st.pos);
      StepAtMoved(j, p, k, q, st, st2);
      var r := StepFrom(j, st);
      if r.Next? {
        RestOn(j, p, k, q, r.st.pos - p);
        RunMoved(j, r.st, k, StepFrom(k, st2).st);
      }
    }
  }

  lemma AfterSpaces(a: string, ws: string, b: string, st: State)
    requires Spaces(ws) && b != "" && st.pos == |a|
    ensures StepFrom(a + ws + b, st) == StepFrom(a + ws + b, st.(pos := |a| + |ws|))
  {
    hide StepAt;
    Regroup(a, ws, b);
    assert HasAt(a + ws + b, |a|, ws);
    SkipSpaces(a + ws + b, |a|, ws);
    SameStep(a + ws + b, SkipWs(a + ws + b, |a|), st, st.(pos := |a| + |ws|));
  }

  lemma SameStep(json: string, p: nat, st: State, st2: State)
    requires p <= |json| && st.stack == st2.stack && st.vtype == st2.vtype
    ensures StepAt(json, p, st) == StepAt(json, p, st2)
  {
  }

  /** White space in front of what a call is about to read changes nothing of what all further calls do. */
  lemma SpaceInFront(a: string, ws: string, b: string, st: State)
    requires Spaces(ws) && b != "" && st.pos == |a|
    ensures Run(a + ws + b, st) == Run(a + b, st)
  {
    hide StepFrom;
    AfterSpaces(a, ws, b, st);
    var st2 := st.(pos := |a| + |ws|);
    assert Run(a + ws + b, st) == Run(a + ws + b, st2);
    assert (a + ws + b)[|a| + |ws|..] == b == (a + b)[|a|..];
    RunMoved(a + ws + b, st2, a + b, st);
  }

  // ---------------------------------------------------------------- white space inside a text

  /** The calls from st give the tokens ts and end in the state `end`. */
  predicate CallsTo(json: string, st: State, ts: seq<Token>, end: State)
    decreases |ts|
  {
    if ts == [] then st == end
    else
      && st.pos < |json|
      && match StepFrom(json, st)
         case Next(k, t, st1) => Token(k, t) == ts[0] && CallsTo(json, st1, ts[1..], end)
         case _ => false
  }

  lemma {:induction false} CallsForward(json: string, st: State, ts: seq<Token>, end: State)
    requires CallsTo(json, st, ts, end)
    ensures st.pos <= end.pos && (ts != [] ==> st.pos < end.pos)
    decreases |ts|
  {
    hide StepFrom;
    if ts != [] {
      CallsForward(json, StepFrom(json, st).st, ts[1..], end);
    }
  }

  lemma {:induction false} CallsLead(json: string, st: State, ts: seq<Token>, end: State)
    requires CallsTo(json, st, ts, end)
    ensures Leads(json, st, ts, end)
    decreases |ts|
  {
    hide StepFrom;
    if ts == [] {
      NoTokens(Run(json, st));
    } else {
      var st1 := StepFrom(json, st).st;
      CallsLead(json, st1, ts[1..], end);
      assert [ts[0]] + ts[1..] == ts;
      FirstToken(ts[0], ts[1..], Run(json, end));
    }
  }

  lemma NoTokens(r: Outcome)
    ensures PrependAll([], r) == r
  {
  }

  lemma FirstToken(t: Token, ts: seq<Token>, r: Outcome)
    ensures Prepend(t, PrependAll(ts, r)) == PrependAll([t] + ts, r)
  {
    if r.Done? {
      assert [t] + (ts + r.tokens) == [t] + ts + r.tokens;
    }
  }

  /** The texts agree up to position n. */
  predicate SameStart(j: string, k: string, n: nat) {
    n <= |j| && n <= |k| && j[..n] == k[..n]
  }

  lemma StartAt(j: string, k: string, n: nat, p: nat)
    requires SameStart(j, k, n) && p < n
    ensures j[p] == k[p]
  {
    assert j[p] == j[..n][p] && k[p] == k[..n][p];
  }

  lemma {:induction false} SkipKept(j: string, k: string, n: nat, p: nat)
    requires SameStart(j, k, n) && p <= n && SkipWs(j, p) < n
    ensures SkipWs(k, p) == SkipWs(j, p)
    decreases n - p
  {
    hide SameStart;
    StartBound(j, k, n);
    if p < n {
      StartAt(j, k, n, p);
      if IsSpace(j[p]) {
        SkipKept(j, k, n, p + 1);
      }
    }
  }

  lemma StartBound(j: string, k: string, n: nat)
    requires SameStart(j, k, n)
    ensures n <= |j| && n <= |k|
  {
  }

  lemma {:induction false} StringKept(j: string, k: string, n: nat, p: nat)
    requires SameStart(j, k, n) && ScanString(j, p).Stop? && ScanString(j, p).pos <= n
    ensures ScanString(k, p) == ScanString(j, p)
    decreases n - p
  {
    hide SameStart;
    StartBound(j, k, n);
    StartAt(j, k, n, p);
    var c := CharAt(j, p);
    if c != '\0' && c != '"' {
      StringKept(j, k, n, if c == '\\' then p + 2 else p + 1);
    }
  }

  lemma {:induction false} NumberKept(j: string, k: string, n: nat, p: nat)
    requires SameStart(j, k, n) && p <= ScanNumber(j, p) <= n && (ScanNumber(j, p) == n ==> NumberEnds(k, n))
    ensures ScanNumber(k, p) == ScanNumber(j, p)
    decreases n - p
  {
    hide SameStart;
    StartBound(j, k, n);
    if p < n {
      StartAt(j, k, n, p);
      if NumberChar(j[p]) {
        NumberKept(j, k, n, p + 1);
      }
    }
  }

  lemma StepAtKept(j: string, k: string, n: nat, p: nat, st: State)
    requires SameStart(j, k, n) && p < n && NumberEnds(k, n)
    requires StepAt(j, p, st).Next? && StepAt(j, p, st).st.pos <= n
    ensures StepAt(k, p, st) == StepAt(j, p, st)
  {
    hide SameStart, ScanString, ScanNumber, Popped, Top, NumberEnds;
    StartBound(j, k, n);
    StartAt(j, k, n, p);
    var r := StepAt(j, p, st);
    if r.kind == NUMBER {
      NumberKept(j, k, n, p + 1);
      SliceKept(j, k, n, p, r.st.pos);
    } else if r.kind == PAIR_NAME || r.kind == '"' {
      StringKept(j, k, n, p + 1);
      SliceKept(j, k, n, p + 1, r.st.pos - 1);
    }
  }

  lemma SliceKept(j: string, k: string, n: nat, a: nat, b: nat)
    requires SameStart(j, k, n) && a <= b <= n
    ensures j[a..b] == k[a..b]
  {
    SliceOfSlice(j, 0, n, a, b);
    SliceOfSlice(k, 0, n, a, b);
    assert j[0..n] == j[..n] && k[0..n] == k[..n];
  }

  lemma {:induction false} CallsKept(j: string, k: string, st: State, ts: seq<Token>, end: State)
    requires CallsTo(j, st, ts, end) && SameStart(j, k, end.pos) && NumberEnds(k, end.pos)
    ensures CallsTo(k, st, ts, end)
    decreases |ts|
  {
    hide SameStart, NumberEnds, StepAt, SkipWs;
    if ts != [] {
      var r := StepFrom(j, st);
      StartBound(j, k, end.pos);
      CallsForward(j, r.st, ts[1..], end);
      StepBehind(j, SkipWs(j, st.pos), st);
      SkipKept(j, k, end.pos, st.pos);
      StepAtKept(j, k, end.pos, SkipWs(j, st.pos), st);
      CallsKept(j, k, r.st, ts[1..], end);
    }
  }

  lemma StepBehind(json: string, p: nat, st: State)
    requires p <= |json|
    ensures StepAt(json, p, st).Next? ==> p < StepAt(json, p, st).st.pos
  {
    hide Popped, Top;
  }

  /**
   White space put into a text between two calls, but not at its end, changes nothing: neither the tokens in front of it
   nor what follows.
  */
  lemma SpaceBetween(a: string, ws: string, b: string, st: State, ts: seq<Token>, end: State)
    requires CallsTo(a + b, st, ts, end) && end.pos == |a| && Spaces(ws) && b != ""
    ensures Run(a + ws + b, st) == Run(a + b, st)
  {
    hide CallsTo, Run;
    if ws == "" {
      assert a + ws + b == a + b;
    } else {
      var j, k := a + b, a + ws + b;
      assert j[..|a|] == a == k[..|a|];
      assert k[|a|] == ws[0];
      CallsKept(j, k, st, ts, end);
      CallsLead(j, st, ts, end);
      CallsLead(k, st, ts, end);
      SpaceInFront(a, ws, b, end);
    }
  }

  // ---------------------------------------------------------------- any layout of the same tokens

  /** A token as it is written. */
  function TokenText(t: Token): string {
    if t.kind == NUMBER then t.text
    else if t.kind == PAIR_NAME || t.kind == '"' then ['"'] + t.text + ['"']
    else [t.kind]
  }

  /** The tokens with white space in front of each: gaps(i) in front of the token with index i. */
  function Layout(ts: seq<Token>, gaps: nat -> string, i: nat): string
    decreases |ts|
  {
    if ts == [] then "" else gaps(i) + TokenText(ts[0]) + Layout(ts[1..], gaps, i + 1)
  }

  ghost predicate AllSpaces(gaps: nat -> string) {
    forall i :: Spaces(gaps(i))
  }

  /** No token is empty, and nothing that a number would go on with stands behind a number. */
  predicate Separate(ts: seq<Token>) {
    && (forall i | 0 <= i < |ts| :: ts[i].kind != '\0')
    && forall i | 0 <= i < |ts| - 1 :: !(ts[i].kind == NUMBER && NumberChar(ts[i + 1].kind))
  }

  lemma NumberText(json: string, p: nat, st: State)
    requires p < |json| && '0' <= json[p] <= '9' && StepAt(json, p, st).Next? && StepAt(json, p, st).kind != '\0'
    ensures var r := StepAt(json, p, st);
            r.kind == NUMBER && r.text != "" && r.text[0] == json[p] && AllNumber(r.text)
  {
    hide ScanNumber, Top;
    DigitsAll(json, p + 1);
  }

  lemma StringText(json: string, p: nat, st: State)
    requires p < |json| && json[p] == '"' && StepAt(json, p, st).Next?
    ensures var r := StepAt(json, p, st);
            && (r.kind == PAIR_NAME || r.kind == '"') && ScanString(json, p + 1).Stop?
            && r.text == json[p + 1..ScanString(json, p + 1).pos - 1]
  {
    hide ScanString, ScanNumber, Popped, Top;
  }

  lemma MarkText(json: string, p: nat, st: State)
    requires p <= |json| && (p < |json| ==> json[p] != '"' && !('0' <= json[p] <= '9'))
    requires StepAt(json, p, st).Next? && StepAt(json, p, st).kind != '\0'
    ensures p < |json| && StepAt(json, p, st).kind == json[p] && StepAt(json, p, st).text == ""
    ensures json[p] in "{}[]:,"
  {
    hide ScanNumber, ScanString, Popped, Top;
  }

  /** What a call that gives a token has read. */
  lemma StepText(json: string, p: nat, st: State)
    requires p <= |json| && StepAt(json, p, st).Next? && StepAt(json, p, st).kind != '\0'
    ensures p < |json| && !IsSpace(json[p])
    ensures var r := StepAt(json, p, st);
            && (r.kind == NUMBER <==> '0' <= json[p] <= '9')
            && (r.kind == NUMBER ==> r.text != "" && r.text[0] == json[p] && AllNumber(r.text))
            && (r.kind == PAIR_NAME || r.kind == '"' <==> json[p] == '"')
            && (json[p] == '"' ==> ScanString(json, p + 1).Stop?
                                   && r.text == json[p + 1..ScanString(json, p + 1).pos - 1])
            && (r.kind != NUMBER && json[p] != '"' ==> r.kind == json[p] && r.text == "")
  {
    hide StepAt, ScanString, AllNumber;
    if p < |json| && json[p] == '"' {
      StringText(json, p, st);
    } else if p < |json| && '0' <= json[p] <= '9' {
      NumberText(json, p, st);
    } else {
      MarkText(json, p, st);
    }
  }

  predicate AllNumber(s: string) {
    forall i | 0 <= i < |s| :: NumberChar(s[i])
  }

  lemma {:induction false} DigitsAll(json: string, p: nat)
    requires p <= |json|
    ensures forall i | p <= i < ScanNumber(json, p) :: NumberChar(json[i])
    decreases |json| - p
  {
    if p < |json| && NumberChar(json[p]) {
      DigitsAll(json, p + 1);
    }
  }

  /** A scanned text with a quotation mark behind it is scanned to that mark, whatever ended it before. */
  lemma {:induction false} Rescanned(json: string, p: nat, k: string, q: nat)
    requires ScanString(json, p).Stop? && p <= |json|
    requires HasAt(k, q, json[p..ScanString(json, p).pos - 1] + ['"'])
    ensures ScanString(k, q) == Stop(ScanString(json, p).pos - p + q)
    decreases |json| - p
  {
    hide HasAt;
    var end := ScanString(json, p).pos - 1;
    var text := json[p..end] + ['"'];
    HasFirst(k, q, text);
    var c := CharAt(json, p);
    if c != '\0' && c != '"' {
      var n := if c == '\\' then 2 else 1;
      assert text == json[p..p + n] + (json[p + n..end] + ['"']);
      HasParts(k, q, json[p..p + n], json[p + n..end] + ['"']);
      Rescanned(json, p + n, k, q + n);
    }
  }

  /** A call makes the same of the token wherever it is written, with any white space in front of it. */
  lemma StepRelaid(json: string, st: State, k: string, pos: nat, g: string)
    requires st.pos < |json| && StepFrom(json, st).Next? && StepFrom(json, st).kind != '\0' && Spaces(g)
    requires var r := StepFrom(json, st);
             var text := TokenText(Token(r.kind, r.text));
             HasAt(k, pos, g + text) && (r.kind == NUMBER ==> NumberEnds(k, pos + |g| + |text|))
    ensures var r := StepFrom(json, st);
            StepFrom(k, State(pos, st.stack, st.vtype))
            == Next(r.kind, r.text, State(pos + |g| + |TokenText(Token(r.kind, r.text))|, r.st.stack, r.st.vtype))
  {
    hide StepAt, ScanString, ScanNumber, SkipWs, Popped, Top, HasAt, NumberEnds;
    var p, q := SkipWs(json, st.pos), pos + |g|;
    var r := StepAt(json, p, st);
    var text := TokenText(Token(r.kind, r.text));
    StepText(json, p, st);
    HasParts(k, pos, g, text);
    HasFirst(k, q, text);
    assert k[q] == json[p];
    SkipSpaces(k, pos, g);
    NoSpaceAt(k, q);
    if json[p] == '"' {
      QuotedAt(json, p, k, q, r.text);
      QuotedStep(json, p, k, q, st, State(pos, st.stack, st.vtype));
    } else if r.kind == NUMBER {
      NumberAt(k, q, r.text);
      NumberStep(json, p, k, q, st, State(pos, st.stack, st.vtype));
    } else {
      MarkStep(json, p, k, q, st, State(pos, st.stack, st.vtype));
    }
  }

  lemma NoSpaceAt(k: string, q: nat)
    requires q < |k| && !IsSpace(k[q])
    ensures SkipWs(k, q) == q
  {
  }

  lemma QuotedAt(json: string, p: nat, k: string, q: nat, text: string)
    requires p < |json| && ScanString(json, p + 1).Stop? && text == json[p + 1..ScanString(json, p + 1).pos - 1]
    requires HasAt(k, q, ['"'] + text + ['"'])
    ensures q < |k| && ScanString(k, q + 1) == Stop(q + |text| + 2) && q + 1 + |text| <= |k|
    ensures k[q + 1..q + 1 + |text|] == text
  {
    hide HasAt;
    assert ['"'] + text + ['"'] == ['"'] + (text + ['"']);
    HasParts(k, q, ['"'], text + ['"']);
    HasFirst(k, q, ['"']);
    Rescanned(json, p + 1, k, q + 1);
    HasParts(k, q + 1, text, ['"']);
    HasText(k, q + 1, text);
  }

  lemma HasText(k: string, q: nat, text: string)
    requires HasAt(k, q, text)
    ensures q + |text| <= |k| && k[q..q + |text|] == text
  {
  }

  lemma NumberAt(k: string, q: nat, text: string)
    requires text != "" && AllNumber(text) && HasAt(k, q, text) && NumberEnds(k, q + |text|)
    ensures q < |k| && ScanNumber(k, q + 1) == q + |text| <= |k| && k[q..q + |text|] == text
  {
    hide HasAt, NumberEnds;
    HasText(k, q, text);
    assert text == [text[0]] + text[1..];
    HasParts(k, q, [text[0]], text[1..]);
    ScanDigits(k, q + 1, text[1..]);
  }

  /** The same call on a quotation mark, a digit or another mark at two places. */
  lemma QuotedStep(json: string, p: nat, k: string, q: nat, st: State, st2: State)
    requires p < |json| && q < |k| && json[p] == '"' == k[q] && st.stack == st2.stack && st.vtype == st2.vtype
    requires StepAt(json, p, st).Next? && ScanString(json, p + 1).Stop? && ScanString(k, q + 1).Stop?
    ensures var r := StepAt(json, p, st);
            var end := ScanString(k, q + 1).pos;
            StepAt(k, q, st2) == Next(r.kind, k[q + 1..end - 1], State(end, r.st.stack, r.st.vtype))
  {
    hide ScanString, Popped, Top;
  }

  lemma NumberStep(json: string, p: nat, k: string, q: nat, st: State, st2: State)
    requires p < |json| && q < |k| && json[p] == k[q] && st.stack == st2.stack && st.vtype == st2.vtype
    requires StepAt(json, p, st).Next? && StepAt(json, p, st).kind == NUMBER && '0' <= json[p] <= '9'
    ensures var r := StepAt(json, p, st);
            StepAt(k, q, st2)
            == Next(NUMBER, k[q..ScanNumber(k, q + 1)], State(ScanNumber(k, q + 1), r.st.stack, r.st.vtype))
  {
    hide ScanNumber, ScanString, Popped, Top;
  }

  lemma MarkStep(json: string, p: nat, k: string, q: nat, st: State, st2: State)
    requires p < |json| && q < |k| && json[p] == k[q] != '"' && st.stack == st2.stack && st.vtype == st2.vtype
    requires StepAt(json, p, st).Next? && StepAt(json, p, st).kind !in {NUMBER, '\0'}
    ensures var r := StepAt(json, p, st);
            StepAt(k, q, st2) == Next(r.kind, r.text, State(q + 1, r.st.stack, r.st.vtype))
  {
    hide ScanNumber, ScanString, Popped, Top;
  }

  // ---------------------------------------------------------------- all layouts

  lemma SeparateRest(ts: seq<Token>)
    requires Separate(ts) && ts != []
    ensures Separate(ts[1..]) && ts[0].kind != '\0'
    ensures |ts| > 1 && ts[0].kind == NUMBER ==> !NumberChar(ts[1].kind)
  {
    forall i | 0 <= i < |ts| - 2
      ensures !(ts[1..][i].kind == NUMBER && NumberChar(ts[1..][i + 1].kind))
    {
      assert ts[1..][i] == ts[i + 1] && ts[1..][i + 1] == ts[i + 2];
    }
    assert |ts| > 1 ==> !(ts[0].kind == NUMBER && NumberChar(ts[0 + 1].kind));
  }

  /** What is written behind a number ends it. */
  lemma LayoutEndsNumber(ts: seq<Token>, gaps: nat -> string, i: nat)
    requires AllSpaces(gaps) && (ts != [] ==> !NumberChar(ts[0].kind))
    ensures Layout(ts, gaps, i) != "" ==> !NumberChar(Layout(ts, gaps, i)[0])
  {
    if ts != [] {
      var g := gaps(i);
      assert Spaces(g);
      if g != "" {
        assert IsSpace(g[0]);
        assert Layout(ts, gaps, i)[0] == g[0];
      } else {
        assert Layout(ts, gaps, i)[0] == TokenText(ts[0])[0];
      }
    }
  }

  lemma LayoutParts(k: string, pos: nat, ts: seq<Token>, gaps: nat -> string, i: nat)
    requires ts != [] && pos <= |k| && k[pos..] == Layout(ts, gaps, i)
    ensures var text := gaps(i) + TokenText(ts[0]);
            HasAt(k, pos, text) && k[pos + |text|..] == Layout(ts[1..], gaps, i + 1)
  {
    var text := gaps(i) + TokenText(ts[0]);
    var rest := Layout(ts[1..], gaps, i + 1);
    assert k[pos..] == text + rest;
    assert k[pos..pos + |text|] == k[pos..][..|text|];
    assert k[pos + |text|..] == k[pos..][|text|..];
  }

  /** If the calls on some text give these tokens to its end, so do the calls on every layout of them. */
  lemma {:induction false} LayoutRuns(
    json: string, st: State, ts: seq<Token>, d: nat, k: string, pos: nat, gaps: nat -> string, i: nat)
    requires Run(json, st) == Done(ts, d) && Separate(ts) && AllSpaces(gaps)
    requires pos <= |k| && k[pos..] == Layout(ts, gaps, i)
    ensures Run(k, State(pos, st.stack, st.vtype)) == Done(ts, d)
    decreases |ts|
  {
    hide StepFrom, Separate, TokenText, HasAt, NumberEnds, AllSpaces, Layout;
    if st.pos >= |json| {
      NothingLaidOut(gaps, i);
      assert |k[pos..]| == 0;
    } else {
      var r := StepFrom(json, st);
      var g, text := gaps(i), TokenText(Token(r.kind, r.text));
      FirstOf(json, st, ts, d);
      SeparateRest(ts);
      SpacesAt(gaps, i);
      LayoutParts(k, pos, ts, gaps, i);
      var next := pos + |g| + |text|;
      HasLength(k, pos, g + text);
      if r.kind == NUMBER {
        LayoutEndsNumber(ts[1..], gaps, i + 1);
        EndsAt(k, next);
      }
      StepRelaid(json, st, k, pos, g);
      TextThere(Token(r.kind, r.text), json, st);
      LayoutRuns(json, r.st, ts[1..], d, k, next, gaps, i + 1);
      assert [ts[0]] + ts[1..] == ts;
    }
  }

  lemma NothingLaidOut(gaps: nat -> string, i: nat)
    ensures Layout([], gaps, i) == ""
  {
  }

  lemma FirstOf(json: string, st: State, ts: seq<Token>, d: nat)
    requires st.pos < |json| && Run(json, st) == Done(ts, d)
    ensures var r := StepFrom(json, st);
            r.Next? && ts != [] && ts[0] == Token(r.kind, r.text) && Run(json, r.st) == Done(ts[1..], d)
  {
    hide StepFrom;
  }

  lemma SpacesAt(gaps: nat -> string, i: nat)
    requires AllSpaces(gaps)
    ensures Spaces(gaps(i))
  {
  }

  lemma HasLength(k: string, pos: nat, x: string)
    requires HasAt(k, pos, x)
    ensures pos + |x| <= |k|
  {
  }

  lemma EndsAt(k: string, p: nat)
    requires p <= |k| && (k[p..] != "" ==> !NumberChar(k[p..][0]))
    ensures NumberEnds(k, p)
  {
  }

  /** A token that a call gives is written with at least one character. */
  lemma TextThere(t: Token, json: string, st: State)
    requires st.pos < |json| && StepFrom(json, st).Next? && t == Token(StepFrom(json, st).kind, StepFrom(json, st).text)
    requires t.kind != '\0'
    ensures TokenText(t) != ""
  {
    hide StepAt, SkipWs;
    StepText(json, SkipWs(json, st.pos), st);
  }

  /** Every layout of the tokens of a text gives these tokens again. */
  lemma LayoutsAgree(json: string, ts: seq<Token>, d: nat, gaps: nat -> string)
    requires Run(json, State(0, "", '\0')) == Done(ts, d) && Separate(ts) && AllSpaces(gaps)
    ensures Run(Layout(ts, gaps, 0), State(0, "", '\0')) == Done(ts, d)
  {
    hide Run, Separate, AllSpaces, Layout;
    var k := Layout(ts, gaps, 0);
    assert k[0..] == k;
    LayoutRuns(json, State(0, "", '\0'), ts, d, k, 0, gaps, 0);
  }

  // ---------------------------------------------------------------- layouts of trees

  lemma SeparateConcat(x: seq<Token>, y: seq<Token>)
    requires Separate(x) && Separate(y)
    requires x != [] && y != [] ==> !(x[|x| - 1].kind == NUMBER && NumberChar(y[0].kind))
    ensures Separate(x + y)
  {
    var z := x + y;
    forall i | 0 <= i < |z| - 1
      ensures !(z[i].kind == NUMBER && NumberChar(z[i + 1].kind))
    {
      if i + 1 < |x| {
        assert z[i] == x[i] && z[i + 1] == x[i + 1];
      } else if i >= |x| {
        assert z[i] == y[i - |x|] && z[i + 1] == y[i - |x| + 1];
      }
    }
  }

  lemma HeadSeparate(v: Value, i: nat)
    requires i < Count(v)
    ensures Separate(TokenHead(v, i)) && TokenHead(v, i) != [] && !NumberChar(TokenHead(v, i)[0].kind)
    ensures TokenHead(v, i)[|TokenHead(v, i)| - 1].kind != NUMBER
  {
    hide Escape;
  }

  lemma FootSeparate(v: Value)
    ensures Separate(TokenFoot(v)) && TokenFoot(v) != [] && !NumberChar(TokenFoot(v)[0].kind)
  {
  }

  lemma {:induction false} TokensSeparate(v: Value)
    ensures Separate(Tokens(v))
    decreases v, Count(v) + 1
  {
    hide Separate, TokensFrom, Escape, IntText;
    if v.Obj? || v.Arr? {
      FromSeparate(v, 0);
    } else {
      OneSeparate(Tokens(v)[0]);
    }
  }

  lemma OneSeparate(t: Token)
    requires t.kind != '\0'
    ensures Separate([t])
  {
  }

  lemma {:induction false} FromSeparate(v: Value, i: nat)
    requires i <= Count(v)
    ensures Separate(TokensFrom(v, i)) && TokensFrom(v, i) != [] && !NumberChar(TokensFrom(v, i)[0].kind)
    decreases v, Count(v) - i
  {
    hide Separate, TokenHead, TokenFoot, Tokens, NumberChar;
    if i == Count(v) {
      FootSeparate(v);
    } else {
      var head, child, rest := TokenHead(v, i), Tokens(Child(v, i)), TokensFrom(v, i + 1);
      HeadSeparate(v, i);
      TokensSeparate(Child(v, i));
      FromSeparate(v, i + 1);
      SeparateConcat(head, child);
      SeparateConcat(head + child, rest);
    }
  }

  /** A readable object is read back from any layout of its tokens, compact or with any spaces and line feeds. */
  lemma ReadableLayouts(v: Value, gaps: nat -> string)
    requires CStrings(v) && v.Obj? && Readable(v, 0) && AllSpaces(gaps)
    ensures Run(Layout(Tokens(v), gaps, 0), State(0, "", '\0')) == Done(Tokens(v), 0)
  {
    hide *;
    RoundTrip(v);
    TokensSeparate(v);
    LayoutsAgree(Render(v), Tokens(v), 0, gaps);
  }

  lemma PairTokens()
    ensures var v := Obj([Pair("a", Int(1))]);
            && CStrings(v) && Readable(v, 0)
            && Tokens(v) == [Token('{', ""), Token(PAIR_NAME, "a"), Token(':', ""), Token(NUMBER, "1"), Token('}', "")]
  {
    var v := Obj([Pair("a", Int(1))]);
    EscapeCons("a");
    assert Escape("a") == "a";
    assert Readable(Child(v, 0), 2);
    assert Tokens(Child(v, 0)) == [Token(NUMBER, "1")];
    assert TokensFrom(v, 1) == [Token('}', "")];
    assert TokensFrom(v, 0) == TokenHead(v, 0) + Tokens(Child(v, 0)) + TokensFrom(v, 1);
  }

  lemma PairLayout(gaps: nat -> string)
    requires gaps(0) == gaps(1) == gaps(2) == gaps(4) == "" && gaps(3) == " "
    ensures Layout([Token('{', ""), Token(PAIR_NAME, "a"), Token(':', ""), Token(NUMBER, "1"), Token('}', "")], gaps, 0)
         == "{\"a\": 1}"
  {
    assert Layout([Token('}', "")], gaps, 4) == "}";
    assert Layout([Token(NUMBER, "1"), Token('}', "")], gaps, 3) == " 1}";
    assert Layout([Token(':', ""), Token(NUMBER, "1"), Token('}', "")], gaps, 2) == ": 1}";
  }

  /** A space behind a colon is no token. */
  lemma SpacedPair()
    ensures Run("{\"a\": 1}", State(0, "", '\0'))
         == Done([Token('{', ""), Token(PAIR_NAME, "a"), Token(':', ""), Token(NUMBER, "1"), Token('}', "")], 0)
  {
    hide Run, Tokens, Readable, CStrings, Layout;
    var v := Obj([Pair("a", Int(1))]);
    var gaps: nat -> string := i => if i == 3 then " " else "";
    PairTokens();
    PairLayout(gaps);
    ReadableLayouts(v, gaps);
  }
}
