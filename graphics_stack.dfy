/** The graphics-state part of scan_content_stream's token loop: the matrix stack
    that `q`, `Q` and `cm` change.  The loop itself lives in the scanner (it also
    records images and enters forms); this module says what the stack is after
    any number of tokens and proves what the operators do to it. */
module GraphicsStack {
  import opened Wrappers
  import opened Matrix

  /** parse_number: `str::parse::<f32>`, supplied by the caller. */
  type NumberParser = string -> Option<real>

  /** The six operands of a `cm` at token i, when there are six and all parse. */
  function CmOperand(parse: NumberParser, tokens: seq<string>, i: nat): (r: Option<Matrix>)
    requires i < |tokens|
    ensures r.Some? <==> i >= 6 && forall k :: i - 6 <= k < i ==> parse(tokens[k]).Some?
    ensures r.Some? ==> r.value == Matrix(
              parse(tokens[i - 6]).value, parse(tokens[i - 5]).value, parse(tokens[i - 4]).value,
              parse(tokens[i - 3]).value, parse(tokens[i - 2]).value, parse(tokens[i - 1]).value)
  {
    if i < 6 then None
    else
      var a, b, c := parse(tokens[i - 6]), parse(tokens[i - 5]), parse(tokens[i - 4]);
      var d, e, f := parse(tokens[i - 3]), parse(tokens[i - 2]), parse(tokens[i - 1]);
      if a.Some? && b.Some? && c.Some? && d.Some? && e.Some? && f.Some? then
        Some(Matrix(a.value, b.value, c.value, d.value, e.value, f.value))
      else
        assert !(parse(tokens[i - 6]).Some? && parse(tokens[i - 5]).Some? && parse(tokens[i - 4]).Some?
                 && parse(tokens[i - 3]).Some? && parse(tokens[i - 2]).Some? && parse(tokens[i - 1]).Some?);
        None
  }

  /** matrix_stack.last().copied().unwrap_or(Matrix::identity()). */
  function Top(stack: seq<Matrix>): Matrix {
    if |stack| > 0 then stack[|stack| - 1] else Identity()
  }

  /** What token i does to the stack. */
  function TokenEffect(parse: NumberParser, stack: seq<Matrix>, tokens: seq<string>, i: nat): seq<Matrix>
    requires i < |tokens|
  {
    var t := tokens[i];
    if t == "q" then
      (if |stack| > 0 then stack + [stack[|stack| - 1]] else stack)
    else if t == "Q" then
      (if |stack| > 1 then stack[..|stack| - 1] else stack)
    else if t == "cm" then
      match CmOperand(parse, tokens, i)
      case Some(m) =>
        if |stack| > 0 then stack[..|stack| - 1] + [Concat(stack[|stack| - 1], m)] else stack
      case None => stack
    else stack
  }

  /** The stack after the first n tokens, seeded with the initial matrix. */
  function StackAfter(parse: NumberParser, init: Matrix, tokens: seq<string>, n: nat): seq<Matrix>
    requires n <= |tokens|
    decreases n
  {
    if n == 0 then [init]
    else TokenEffect(parse, StackAfter(parse, init, tokens, n - 1), tokens, n - 1)
  }

  /** An independent count of the saved states: one to start, one more per `q`, one
      fewer per `Q` that finds more than one. */
  function SaveDepth(tokens: seq<string>, n: nat): (d: nat)
    requires n <= |tokens|
    ensures d >= 1
    decreases n
  {
    if n == 0 then 1
    else
      var d := SaveDepth(tokens, n - 1);
      if tokens[n - 1] == "q" then d + 1
      else if tokens[n - 1] == "Q" && d > 1 then d - 1
      else d
  }

  /** The stack is never empty; its size is exactly the save depth. */
  lemma {:induction false} StackDepthIsSaveDepth(parse: NumberParser, init: Matrix, tokens: seq<string>, n: nat)
    requires n <= |tokens|
    ensures |StackAfter(parse, init, tokens, n)| == SaveDepth(tokens, n)
    ensures |StackAfter(parse, init, tokens, n)| >= 1
    decreases n
  {
    if n > 0 {
      StackDepthIsSaveDepth(parse, init, tokens, n - 1);
    }
  }

  /** `q` pushes a copy of the current matrix. */
  lemma SavePushesCopy(parse: NumberParser, init: Matrix, tokens: seq<string>, n: nat)
    requires n < |tokens| && tokens[n] == "q"
    ensures var before := StackAfter(parse, init, tokens, n);
            StackAfter(parse, init, tokens, n + 1) == before + [Top(before)]
  {
    StackDepthIsSaveDepth(parse, init, tokens, n);
  }

  /** `Q` pops when more than one entry remains, and is a no-op otherwise. */
  lemma RestorePops(parse: NumberParser, init: Matrix, tokens: seq<string>, n: nat)
    requires n < |tokens| && tokens[n] == "Q"
    ensures var before := StackAfter(parse, init, tokens, n);
            StackAfter(parse, init, tokens, n + 1)
              == if |before| > 1 then before[..|before| - 1] else before
  {
  }

  /** `cm` with six parsed operands replaces the current matrix by CTM x M and leaves
      the saved ones alone; without them it changes nothing. */
  lemma ConcatReplacesTop(parse: NumberParser, init: Matrix, tokens: seq<string>, n: nat)
    requires n < |tokens| && tokens[n] == "cm"
    ensures var before := StackAfter(parse, init, tokens, n);
            var after := StackAfter(parse, init, tokens, n + 1);
            && |before| >= 1
            && |after| == |before|
            && after[..|after| - 1] == before[..|before| - 1]
            && Top(after) == (match CmOperand(parse, tokens, n)
                              case Some(m) => Concat(Top(before), m)
                              case None => Top(before))
  {
    StackDepthIsSaveDepth(parse, init, tokens, n);
  }

  /** The entries below level l are untouched by any token while the stack holds
      more than l entries. */
  lemma {:induction false} LowerEntriesKept(parse: NumberParser, init: Matrix, tokens: seq<string>,
                                            a: nat, b: nat, l: nat)
    requires a <= b <= |tokens|
    requires forall m :: a <= m < b ==> SaveDepth(tokens, m) > l
    requires SaveDepth(tokens, a) > l
    ensures && |StackAfter(parse, init, tokens, a)| > l
            && |StackAfter(parse, init, tokens, b)| >= l
            && StackAfter(parse, init, tokens, b)[..l] == StackAfter(parse, init, tokens, a)[..l]
    decreases b - a
  {
    StackDepthIsSaveDepth(parse, init, tokens, a);
    if a < b {
      LowerEntriesKept(parse, init, tokens, a, b - 1, l);
      StackDepthIsSaveDepth(parse, init, tokens, b - 1);
      StackDepthIsSaveDepth(parse, init, tokens, b);
      var s := StackAfter(parse, init, tokens, b - 1);
      var t := StackAfter(parse, init, tokens, b);
      assert t[..l] == s[..l];
    }
  }

  /** A `Q` that matches a `q` restores the whole stack as it was before the `q`: every
      `cm` in between is undone. */
  lemma RestoreUndoesSave(parse: NumberParser, init: Matrix, tokens: seq<string>, j: nat, k: nat)
    requires j < k < |tokens|
    requires tokens[j] == "q" && tokens[k] == "Q"
    requires forall m :: j < m <= k ==> SaveDepth(tokens, m) > SaveDepth(tokens, j)
    requires SaveDepth(tokens, k) == SaveDepth(tokens, j) + 1
    ensures StackAfter(parse, init, tokens, k + 1) == StackAfter(parse, init, tokens, j)
  {
    var l := SaveDepth(tokens, j);
    StackDepthIsSaveDepth(parse, init, tokens, j);
    StackDepthIsSaveDepth(parse, init, tokens, k);
    SavePushesCopy(parse, init, tokens, j);
    LowerEntriesKept(parse, init, tokens, j + 1, k, l);
    var before := StackAfter(parse, init, tokens, j);
    assert StackAfter(parse, init, tokens, j + 1)[..l] == before;
  }
}
