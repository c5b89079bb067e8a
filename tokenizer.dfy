/** The content-stream tokenizer of scan_content_stream: a character-level state
    machine that splits on whitespace, makes `[` and `]` tokens of their own and
    keeps a parenthesised string, nested parentheses included, as one token.
    Backslash escapes are not recognised. */
module ContentTokens {
  import opened PdfObject

  predicate IsWhitespace(c: char) {
    c == ' ' || c == '\t' || c == '\n' || c == '\r'
  }

  predicate IsBracket(c: char) {
    c == '[' || c == ']'
  }

  /** String::from_utf8_lossy on content bytes, modelled one character per byte;
      every delimiter the tokenizer looks at is ASCII. */
  function DecodeText(b: Bytes): (s: string)
    ensures |s| == |b|
    ensures forall i :: 0 <= i < |b| ==> s[i] as int == b[i] as int
  {
    seq(|b|, i requires 0 <= i < |b| => b[i] as int as char)
  }

  /** The loop's variables: tokens so far, the token being built, in_string and
      paren_depth, unbounded here. */
  datatype LexState = LexState(tokens: seq<string>, current: string, inString: bool, depth: int)

  const Start: LexState := LexState([], "", false, 0)

  /** Push the current token when it is non-empty. */
  function Emit(tokens: seq<string>, current: string): seq<string> {
    if current == "" then tokens else tokens + [current]
  }

  /** One iteration of the character loop. */
  function Step(st: LexState, ch: char): LexState {
    if st.inString then
      var cur := st.current + [ch];
      if ch == '(' then LexState(st.tokens, cur, true, st.depth + 1)
      else if ch == ')' then
        if st.depth - 1 == 0 then LexState(st.tokens + [cur], "", false, 0)
        else LexState(st.tokens, cur, true, st.depth - 1)
      else LexState(st.tokens, cur, true, st.depth)
    else if ch == '(' then LexState(Emit(st.tokens, st.current), "(", true, 1)
    else if IsWhitespace(ch) then LexState(Emit(st.tokens, st.current), "", false, st.depth)
    else if IsBracket(ch) then LexState(Emit(st.tokens, st.current) + [[ch]], "", false, st.depth)
    else LexState(st.tokens, st.current + [ch], false, st.depth)
  }

  /** The state after feeding s to the loop, starting from st. */
  function LexFrom(st: LexState, s: string): LexState
    decreases |s|
  {
    if s == [] then st else Step(LexFrom(st, s[..|s| - 1]), s[|s| - 1])
  }

  function Lex(s: string): LexState {
    LexFrom(Start, s)
  }

  /** The tokens of a content stream: the loop's tokens plus the trailing token. */
  function Tokens(s: string): seq<string> {
    Emit(Lex(s).tokens, Lex(s).current)
  }

  /** The tokenizer as the source writes it: a loop over the characters. */
  method Tokenize(text: string) returns (tokens: seq<string>)
    ensures tokens == Tokens(text)
  {
    tokens := [];
    var current: string := "";
    var inString := false;
    var depth: int := 0;
    for k := 0 to |text|
      invariant LexState(tokens, current, inString, depth) == Lex(text[..k])
    {
      var ch := text[k];
      assert text[..k + 1][..k] == text[..k];
      if inString {
        current := current + [ch];
        if ch == '(' {
          depth := depth + 1;
        } else if ch == ')' {
          depth := depth - 1;
          if depth == 0 {
            inString := false;
            tokens := tokens + [current];
            current := "";
          }
        }
      } else if ch == '(' {
        if current != "" {
          tokens := tokens + [current];
          current := "";
        }
        inString := true;
        depth := 1;
        current := current + [ch];
      } else if IsWhitespace(ch) {
        if current != "" {
          tokens := tokens + [current];
          current := "";
        }
      } else if IsBracket(ch) {
        if current != "" {
          tokens := tokens + [current];
          current := "";
        }
        tokens := tokens + [[ch]];
      } else {
        current := current + [ch];
      }
    }
    assert text[..|text|] == text;
    if current != "" {
      tokens := tokens + [current];
    }
  }

  // ---------------------------------------------------------------------------
  // An independent description of the same text: how deep inside parentheses
  // each character sits, and the text with the separating whitespace removed.

  /** The parenthesis depth after reading s: 0 outside a string; inside, one more
      per `(` and one less per `)`, the string ending when it comes back to 0. */
  function Depth(s: string): int
    decreases |s|
  {
    if s == [] then 0
    else
      var d := Depth(s[..|s| - 1]);
      var c := s[|s| - 1];
      if d > 0 then (if c == '(' then d + 1 else if c == ')' then d - 1 else d)
      else if c == '(' then 1
      else 0
  }

  /** s with every whitespace character outside a string removed. */
  function Visible(s: string): string
    decreases |s|
  {
    if s == [] then []
    else
      var init := s[..|s| - 1];
      var c := s[|s| - 1];
      Visible(init) + (if Depth(init) == 0 && IsWhitespace(c) then [] else [c])
  }

  function Concat(ts: seq<string>): string
    decreases |ts|
  {
    if ts == [] then [] else Concat(ts[..|ts| - 1]) + ts[|ts| - 1]
  }

  /** No character that ends or splits a token outside a string. */
  predicate Plain(t: string) {
    forall i :: 0 <= i < |t| ==> !IsWhitespace(t[i]) && t[i] != '(' && !IsBracket(t[i])
  }

  /** What every token is: non-empty, and either a string (opening with `(`), a
      lone bracket, or a run of plain characters. */
  predicate WellFormed(t: string) {
    |t| > 0 && (t[0] == '(' || t == "[" || t == "]" || Plain(t))
  }

  /** A string token that was closed ends with the `)` that closed it. */
  predicate Closed(t: string) {
    |t| > 0 && (t[0] == '(' ==> t[|t| - 1] == ')')
  }

  /** Taken on its own, every prefix of t of length 1 to n is inside a string. */
  predicate OpenThrough(t: string, n: nat) {
    n <= |t| && forall k :: 0 < k <= n ==> Depth(t[..k]) > 0
  }

  /** A string token is open on every proper prefix: it closes, if at all, at its
      last character, so nothing that follows its closing parenthesis joins it. */
  predicate OpenUntilLast(t: string) {
    |t| > 0 && (t[0] == '(' ==> OpenThrough(t, |t| - 1))
  }

  predicate LexInvariant(s: string, st: LexState) {
    && st.depth == Depth(s)
    && (st.inString <==> st.depth > 0)
    && st.depth >= 0
    && Concat(st.tokens) + st.current == Visible(s)
    && (forall i :: 0 <= i < |st.tokens| ==> WellFormed(st.tokens[i]) && Closed(st.tokens[i]))
    && (st.inString ==> |st.current| > 0 && st.current[0] == '(')
    && (!st.inString ==> Plain(st.current))
    && StringsNest(st)
  }

  /** The nesting part of the invariant: emitted tokens close at most at their end,
      and the string being read is open throughout, at the loop's depth. */
  predicate StringsNest(st: LexState) {
    && (forall i :: 0 <= i < |st.tokens| ==> OpenUntilLast(st.tokens[i]))
    && (st.inString ==> OpenThrough(st.current, |st.current|) && Depth(st.current) == st.depth)
  }

  lemma ConcatAppend(ts: seq<string>, t: string)
    ensures Concat(ts + [t]) == Concat(ts) + t
  {
    assert (ts + [t])[..|ts|] == ts;
  }

  lemma ConcatEmit(ts: seq<string>, t: string)
    ensures Concat(Emit(ts, t)) == Concat(ts) + t
  {
    if t != "" {
      ConcatAppend(ts, t);
    }
  }

  /** The loop keeps the tokenizer's invariant: paren_depth is at least 1 exactly
      while in_string (and 0 otherwise), every emitted token is well formed, and the
      tokens so far followed by the current token spell the input without its
      separating whitespace. */
  lemma {:induction false} LexKeepsInvariant(s: string)
    ensures LexInvariant(s, Lex(s))
    decreases |s|
  {
    if s != [] {
      var init, c := s[..|s| - 1], s[|s| - 1];
      assert s == init + [c];
      LexKeepsInvariant(init);
      StepKeepsInvariant(init, c, Lex(init));
    }
  }

  lemma StepKeepsInvariant(init: string, c: char, st: LexState)
    requires LexInvariant(init, st)
    ensures LexInvariant(init + [c], Step(st, c))
  {
    var s := init + [c];
    assert s[..|s| - 1] == init && s[|s| - 1] == c;
    assert Depth(s) == Step(st, c).depth;
    var vis := Visible(init) + (if Depth(init) == 0 && IsWhitespace(c) then [] else [c]);
    assert Visible(s) == vis;
    StepSpells(st, c, Visible(init));
    StepTokensWellFormed(st, c);
    StepNests(st, c);
  }

  /** The spelling part of the invariant across one character. */
  lemma StepSpells(st: LexState, c: char, vis: string)
    requires Concat(st.tokens) + st.current == vis
    requires st.inString <==> st.depth > 0
    ensures var nx := Step(st, c);
            Concat(nx.tokens) + nx.current
              == vis + (if st.depth <= 0 && IsWhitespace(c) then [] else [c])
  {
    if st.inString {
      StringStepSpells(st, c);
    } else {
      PlainStepSpells(st, c);
    }
  }

  /** Inside a string every character is kept. */
  lemma StringStepSpells(st: LexState, c: char)
    requires st.inString
    ensures Concat(Step(st, c).tokens) + Step(st, c).current == Concat(st.tokens) + st.current + [c]
  {
    var nx := Step(st, c);
    ConcatAppend(st.tokens, st.current + [c]);
    assert Concat(nx.tokens) + nx.current == Concat(st.tokens) + (st.current + [c]);
  }

  /** Outside a string only whitespace is dropped. */
  lemma PlainStepSpells(st: LexState, c: char)
    requires !st.inString
    ensures Concat(Step(st, c).tokens) + Step(st, c).current
              == Concat(st.tokens) + st.current + (if IsWhitespace(c) then [] else [c])
  {
    var nx := Step(st, c);
    ConcatEmit(st.tokens, st.current);
    var emitted := Emit(st.tokens, st.current);
    if c == '(' {
      assert nx.tokens == emitted && nx.current == "(";
    } else if IsWhitespace(c) {
      assert nx.tokens == emitted && nx.current == "";
    } else if IsBracket(c) {
      ConcatAppend(emitted, [c]);
      assert nx.tokens == emitted + [[c]] && nx.current == "";
    } else {
      assert nx.tokens == st.tokens && nx.current == st.current + [c];
    }
  }

  /** The token-shape part of the invariant across one character. */
  lemma StepTokensWellFormed(st: LexState, c: char)
    requires forall i :: 0 <= i < |st.tokens| ==> WellFormed(st.tokens[i]) && Closed(st.tokens[i])
    requires st.inString ==> |st.current| > 0 && st.current[0] == '('
    requires !st.inString ==> Plain(st.current)
    ensures var nx := Step(st, c);
            && (forall i :: 0 <= i < |nx.tokens| ==> WellFormed(nx.tokens[i]) && Closed(nx.tokens[i]))
            && (nx.inString ==> |nx.current| > 0 && nx.current[0] == '(')
            && (!nx.inString ==> Plain(nx.current))
  {
    var nx := Step(st, c);
    if !st.inString && st.current != "" {
      assert WellFormed(st.current) && Closed(st.current);
    }
  }

  /** The nesting part of the invariant across one character. */
  lemma StepNests(st: LexState, c: char)
    requires StringsNest(st) && (st.inString <==> st.depth > 0)
    requires !st.inString ==> Plain(st.current)
    ensures StringsNest(Step(st, c))
  {
    if st.inString {
      StringStepNests(st, c);
    } else {
      PlainStepNests(st, c);
    }
  }

  /** Inside a string: the character extends a string that is open throughout, and
      the string is emitted only when it closes at that character. */
  lemma StringStepNests(st: LexState, c: char)
    requires StringsNest(st) && st.inString && st.depth > 0
    ensures StringsNest(Step(st, c))
  {
    var cur := st.current + [c];
    assert cur[..|cur| - 1] == st.current;
    forall k | 0 < k <= |st.current|
      ensures Depth(cur[..k]) > 0
    {
      assert cur[..k] == st.current[..k];
    }
    assert OpenThrough(cur, |cur| - 1);
    var nx := Step(st, c);
    if nx.inString {
      assert nx.current == cur && nx.tokens == st.tokens;
      assert cur[..|cur|] == cur;
      assert Depth(cur) == nx.depth;
    } else {
      assert nx.tokens == st.tokens + [cur] && nx.current == "";
    }
  }

  /** Outside a string: the tokens emitted are a plain run or a bracket, and a `(`
      opens a string of depth 1. */
  lemma PlainStepNests(st: LexState, c: char)
    requires StringsNest(st) && !st.inString && Plain(st.current)
    ensures StringsNest(Step(st, c))
  {
    var emitted := Emit(st.tokens, st.current);
    if st.current != "" {
      assert st.current[0] != '(';
    }
    assert forall i :: 0 <= i < |emitted| ==> OpenUntilLast(emitted[i]);
    if c == '(' {
      assert Depth("(") == 1 by {
        assert "("[..0] == [];
      }
      assert "("[..1] == "(";
    } else if IsBracket(c) {
      assert OpenUntilLast([c]);
    }
  }

  /** What the tokenizer guarantees: every token is non-empty and well formed, the
      tokens spell the input with the whitespace between tokens removed, and a
      string token is open on every proper prefix, so a `[`, `]` or anything else
      after its closing parenthesis starts a new token; when the input ends
      outside a string, every string token ends with its closing parenthesis. */
  lemma TokensAreWellFormed(s: string)
    ensures forall i :: 0 <= i < |Tokens(s)| ==> WellFormed(Tokens(s)[i])
    ensures Concat(Tokens(s)) == Visible(s)
    ensures forall i :: 0 <= i < |Tokens(s)| ==> OpenUntilLast(Tokens(s)[i])
    ensures Depth(s) == 0 ==> forall i :: 0 <= i < |Tokens(s)| ==> Closed(Tokens(s)[i])
  {
    LexKeepsInvariant(s);
    var st := Lex(s);
    ConcatEmit(st.tokens, st.current);
    if st.current != "" {
      assert Tokens(s) == st.tokens + [st.current];
      assert !st.inString ==> WellFormed(st.current);
      assert st.current[0] == '(' ==> st.inString;
    }
  }

  /** A string closed before the end of a token would take in what follows it, as
      `(a)[b)` read as one token does; no token of the tokenizer is like that. */
  lemma ClosedStringEndsToken()
    ensures !OpenUntilLast("(a)[b)")
  {
    var t := "(a)[b)";
    assert "("[..0] == [] && "(a"[..1] == "(" && "(a)"[..2] == "(a";
    assert Depth("(") == 1;
    assert Depth("(a") == 1;
    assert t[..3] == "(a)" && Depth("(a)") == 0;
  }

  // ---------------------------------------------------------------------------
  // Joining content streams.  get_content_data puts a newline after each stream
  // of a page's Contents array; a stream that ends outside a string then
  // tokenizes on its own.

  lemma {:induction false} LexFromAppend(st: LexState, a: string, b: string)
    ensures LexFrom(st, a + b) == LexFrom(LexFrom(st, a), b)
    decreases |b|
  {
    if b == [] {
      assert a + b == a;
    } else {
      var ab := a + b;
      assert ab[..|ab| - 1] == a + b[..|b| - 1];
      assert ab[|ab| - 1] == b[|b| - 1];
      LexFromAppend(st, a, b[..|b| - 1]);
    }
  }

  function WithPrefix(t: seq<string>, st: LexState): LexState {
    LexState(t + st.tokens, st.current, st.inString, st.depth)
  }

  /** Tokens already emitted do not influence what comes next. */
  lemma {:induction false} LexFromPrefix(t: seq<string>, st: LexState, b: string)
    ensures LexFrom(WithPrefix(t, st), b) == WithPrefix(t, LexFrom(st, b))
    decreases |b|
  {
    if b != [] {
      LexFromPrefix(t, st, b[..|b| - 1]);
      var mid := LexFrom(st, b[..|b| - 1]);
      var c := b[|b| - 1];
      assert Emit(t + mid.tokens, mid.current) == t + Emit(mid.tokens, mid.current);
      assert Step(WithPrefix(t, mid), c) == WithPrefix(t, Step(mid, c)) by {
        if mid.inString && c == ')' && mid.depth - 1 == 0 {
          assert (t + mid.tokens) + [mid.current + [c]] == t + (mid.tokens + [mid.current + [c]]);
        } else if !mid.inString && IsBracket(c) {
          assert Emit(t + mid.tokens, mid.current) + [[c]] == t + (Emit(mid.tokens, mid.current) + [[c]]);
        }
      }
    }
  }

  /** Text that ends outside a string, followed by a newline, leaves the loop in its
      starting state except for the tokens it emitted. */
  lemma NewlineFlushes(a: string)
    requires Depth(a) == 0
    ensures Lex(a + "\n") == WithPrefix(Tokens(a), Start)
  {
    LexKeepsInvariant(a);
    var s := a + "\n";
    assert s[..|s| - 1] == a;
  }

  /** Tokenizing two texts joined by a newline gives the tokens of the first followed
      by the tokens of the second, provided the first ends outside a string. */
  lemma TokensOfJoined(a: string, b: string)
    requires Depth(a) == 0
    ensures Tokens(a + "\n" + b) == Tokens(a) + Tokens(b)
  {
    LexFromAppend(Start, a + "\n", b);
    NewlineFlushes(a);
    LexFromPrefix(Tokens(a), Start, b);
    var st := Lex(b);
    assert Emit(Tokens(a) + st.tokens, st.current) == Tokens(a) + Emit(st.tokens, st.current);
  }
}
