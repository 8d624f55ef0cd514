/**
 * The layout-preserving text emitter of the dump visitor (`SourcePrinter`).
 *
 * A printer holds the text emitted so far and a cursor (line, column) that
 * starts at (1, 1). `print(s, start, col)` first appends newlines until the
 * cursor line reaches `start`, then spaces until the cursor column reaches
 * `col`, then `s` itself. The cursor is advanced by the padding and by `|s|`
 * columns; newlines inside `s` are not counted.
 */
module Printer {

  /** The arguments of one `print` call: a text aimed at a target position. */
  datatype Token = Token(text: string, line: int, col: int)

  /** The printer's fields: the buffer and the cursor. */
  datatype PrinterState = PrinterState(buf: string, line: int, column: int)

  /** A freshly constructed printer: empty buffer, cursor at (1, 1). */
  const Initial := PrinterState([], 1, 1)

  function Max(a: int, b: int): int { if a < b then b else a }

  function Repeat(c: char, n: nat): (r: string)
    ensures |r| == n
  {
    if n == 0 then [] else Repeat(c, n - 1) + [c]
  }

  /** How many times the first loop of `print` runs. */
  function NewlinesBefore(line: int, start: int): nat
  {
    if line < start then start - line else 0
  }

  /** How many times the second loop of `print` runs, given the column after the first. */
  function SpacesBefore(column: int, col: int): nat
  {
    if column < col then col - column else 0
  }

  /** The effect of one `print(t.text, t.line, t.col)` call on the printer's fields. */
  function Step(st: PrinterState, t: Token): PrinterState
  {
    var nl := NewlinesBefore(st.line, t.line);
    var line1 := if nl > 0 then t.line else st.line;
    var column1 := if nl > 0 then 1 else st.column;
    var sp := SpacesBefore(column1, t.col);
    PrinterState(st.buf + Repeat('\n', nl) + Repeat(' ', sp) + t.text, line1, column1 + sp + |t.text|)
  }

  /**
   * A sequence of `print` calls, oldest first: `Then(before, t)` is the calls
   * in `before` followed by the call `t`.
   */
  datatype Trace = Empty | Then(before: Trace, last: Token)

  /** The calls of `a` followed by the calls of `b`. */
  function Append(a: Trace, b: Trace): Trace
  {
    match b
    case Empty => a
    case Then(b1, t) => Then(Append(a, b1), t)
  }

  /** The calls of a trace as a list, oldest first. */
  function Calls(tr: Trace): seq<Token>
  {
    match tr
    case Empty => []
    case Then(before, t) => Calls(before) + [t]
  }

  /** The effect of a sequence of `print` calls, performed in order. */
  function Run(st: PrinterState, tr: Trace): PrinterState
  {
    match tr
    case Empty => st
    case Then(before, t) => Step(Run(st, before), t)
  }

  // ---------------------------------------------------------------------
  // Reading positions off the emitted text

  /** Number of newline characters in `s`. */
  ghost function CountNewlines(s: string): nat
  {
    if s == [] then 0
    else CountNewlines(s[..|s| - 1]) + (if s[|s| - 1] == '\n' then 1 else 0)
  }

  /** Length of the text after the last newline of `s` (all of `s` if it has none). */
  ghost function LastLineLength(s: string): nat
  {
    if s == [] || s[|s| - 1] == '\n' then 0 else LastLineLength(s[..|s| - 1]) + 1
  }

  /** The 1-based line on which the character at index `i` of `buf` appears. */
  ghost function LineAt(buf: string, i: nat): int
    requires i <= |buf|
  {
    1 + CountNewlines(buf[..i])
  }

  /** The 1-based column at which the character at index `i` of `buf` appears. */
  ghost function ColumnAt(buf: string, i: nat): int
    requires i <= |buf|
  {
    1 + LastLineLength(buf[..i])
  }

  /** The cursor describes where the next character of the buffer will appear. */
  ghost predicate Agrees(st: PrinterState)
  {
    st.line == LineAt(st.buf, |st.buf|) && st.column == ColumnAt(st.buf, |st.buf|)
  }

  /** The printer's cursor is not already beyond the target of `t`. */
  ghost predicate NotPast(st: PrinterState, t: Token)
  {
    (st.line < t.line && 1 <= t.col) || (st.line == t.line && st.column <= t.col)
  }

  // ---------------------------------------------------------------------
  // Lemmas about the text measures

  lemma {:induction false} CountNewlinesAppend(a: string, b: string)
    ensures CountNewlines(a + b) == CountNewlines(a) + CountNewlines(b)
    decreases |b|
  {
    if b != [] {
      assert (a + b)[..|a + b| - 1] == a + b[..|b| - 1];
      CountNewlinesAppend(a, b[..|b| - 1]);
    } else {
      assert a + b == a;
    }
  }

  lemma {:induction false} CountNewlinesFlat(s: string)
    requires '\n' !in s
    ensures CountNewlines(s) == 0
    decreases |s|
  {
    if s != [] {
      assert s[|s| - 1] in s;
      assert forall c :: c in s[..|s| - 1] ==> c in s;
      CountNewlinesFlat(s[..|s| - 1]);
    }
  }

  lemma {:induction false} CountNewlinesRepeat(n: nat)
    ensures CountNewlines(Repeat('\n', n)) == n
    decreases n
  {
    if n > 0 {
      CountNewlinesAppend(Repeat('\n', n - 1), ['\n']);
      assert CountNewlines(['\n']) == 1 by {
        assert ['\n'][..0] == [];
      }
      CountNewlinesRepeat(n - 1);
    }
  }

  lemma {:induction false} LastLineAppendFlat(a: string, b: string)
    requires '\n' !in b
    ensures LastLineLength(a + b) == LastLineLength(a) + |b|
    decreases |b|
  {
    if b != [] {
      assert (a + b)[..|a + b| - 1] == a + b[..|b| - 1];
      assert b[|b| - 1] in b;
      assert forall c :: c in b[..|b| - 1] ==> c in b;
      LastLineAppendFlat(a, b[..|b| - 1]);
    } else {
      assert a + b == a;
    }
  }

  lemma LastLineAfterNewline(a: string, n: nat)
    requires n > 0
    ensures LastLineLength(a + Repeat('\n', n)) == 0
  {
    var s := a + Repeat('\n', n);
    assert s[|s| - 1] == '\n';
  }

  lemma {:induction false} NoNewlineInSpaces(m: nat)
    ensures '\n' !in Repeat(' ', m)
    decreases m
  {
    if m > 0 {
      NoNewlineInSpaces(m - 1);
    }
  }

  // ---------------------------------------------------------------------
  // One print call

  /**
   * `print` only appends: one newline per line it is short of the target,
   * then one space per column it is short of the target on the line it has
   * reached, then exactly the text.
   */
  lemma StepAppendsPaddingThenText(st: PrinterState, t: Token)
    ensures var column1 := if st.line < t.line then 1 else st.column;
            Step(st, t).buf == st.buf + Repeat('\n', Max(0, t.line - st.line))
                               + Repeat(' ', Max(0, t.col - column1)) + t.text
    ensures st.buf <= Step(st, t).buf
    ensures Step(st, t).buf[|Step(st, t).buf| - |t.text|..] == t.text
  {
  }

  /**
   * The cursor never retreats: the line becomes the larger of the old line and
   * the target line; the column restarts at 1 only when a newline was emitted
   * and otherwise ends at the larger of the old column and the target, plus |s|.
   */
  lemma StepCursorNeverRetreats(st: PrinterState, t: Token)
    ensures Step(st, t).line == Max(st.line, t.line)
    ensures st.line < t.line ==> Step(st, t).column == Max(1, t.col) + |t.text|
    ensures st.line >= t.line ==> Step(st, t).column == Max(st.column, t.col) + |t.text|
  {
  }

  /** A glue token aimed at (0, 0) is appended with no padding at all. */
  lemma GlueAppendsDirectly(st: PrinterState, s: string)
    requires st.line >= 1 && st.column >= 1
    ensures Step(st, Token(s, 0, 0)) == PrinterState(st.buf + s, st.line, st.column + |s|)
  {
    assert Repeat('\n', 0) == [] && Repeat(' ', 0) == [];
    assert st.buf + [] + [] + s == st.buf + s;
  }

  /** Printing a text without newlines keeps the cursor in agreement with the buffer. */
  lemma StepKeepsAgreement(st: PrinterState, t: Token)
    requires Agrees(st)
    requires '\n' !in t.text
    ensures Agrees(Step(st, t))
  {
    var nl := NewlinesBefore(st.line, t.line);
    var column1 := if nl > 0 then 1 else st.column;
    var sp := SpacesBefore(column1, t.col);
    var a := st.buf + Repeat('\n', nl);
    var b := a + Repeat(' ', sp);
    var r := Step(st, t);
    assert r.buf == b + t.text;
    assert st.buf[..|st.buf|] == st.buf;
    assert r.buf[..|r.buf|] == r.buf;
    CountNewlinesAppend(st.buf, Repeat('\n', nl));
    CountNewlinesRepeat(nl);
    NoNewlineInSpaces(sp);
    CountNewlinesFlat(Repeat(' ', sp));
    CountNewlinesAppend(a, Repeat(' ', sp));
    CountNewlinesFlat(t.text);
    CountNewlinesAppend(b, t.text);
    LastLineAppendFlat(a, Repeat(' ', sp));
    LastLineAppendFlat(b, t.text);
    if nl > 0 {
      LastLineAfterNewline(st.buf, nl);
    } else {
      assert a == st.buf;
    }
  }

  /**
   * Placement: when the cursor is not past the target, the text starts exactly
   * at line `t.line`, column `t.col` of the emitted buffer.
   */
  lemma StepPlacement(st: PrinterState, t: Token)
    requires Agrees(st)
    requires NotPast(st, t)
    ensures var b := Step(st, t).buf;
            var p := |b| - |t.text|;
            b[p..] == t.text && LineAt(b, p) == t.line && ColumnAt(b, p) == t.col
  {
    var nl := NewlinesBefore(st.line, t.line);
    var column1 := if nl > 0 then 1 else st.column;
    var sp := SpacesBefore(column1, t.col);
    var a := st.buf + Repeat('\n', nl);
    var pad := a + Repeat(' ', sp);
    var b := Step(st, t).buf;
    var p := |b| - |t.text|;
    assert b == pad + t.text;
    assert b[..p] == pad;
    assert st.buf[..|st.buf|] == st.buf;
    CountNewlinesAppend(st.buf, Repeat('\n', nl));
    CountNewlinesRepeat(nl);
    NoNewlineInSpaces(sp);
    CountNewlinesFlat(Repeat(' ', sp));
    CountNewlinesAppend(a, Repeat(' ', sp));
    LastLineAppendFlat(a, Repeat(' ', sp));
    if nl > 0 {
      LastLineAfterNewline(st.buf, nl);
    } else {
      assert a == st.buf;
    }
  }

  /**
   * The newline quirk: a text that itself contains a newline (a block comment
   * or a javadoc spanning lines) leaves the cursor line behind the buffer.
   */
  lemma MultiLineTextDesynchronises()
    ensures Agrees(Initial)
    ensures !Agrees(Step(Initial, Token("/*\n*/", 1, 1)))
  {
    assert Initial.buf[..0] == [];
    var b := Step(Initial, Token("/*\n*/", 1, 1)).buf;
    assert b == "/*" + "\n" + "*/";
    assert b[..|b|] == b;
    CountNewlinesFlat("/*");
    CountNewlinesFlat("*/");
    CountNewlinesRepeat(1);
    assert Repeat('\n', 1) == "\n";
    CountNewlinesAppend("/*", "\n");
    CountNewlinesAppend("/*" + "\n", "*/");
  }

  // ---------------------------------------------------------------------
  // Sequences of print calls

  lemma {:induction false} AppendCalls(a: Trace, b: Trace)
    ensures Calls(Append(a, b)) == Calls(a) + Calls(b)
    decreases b
  {
    match b
    case Empty =>
      assert Calls(a) + [] == Calls(a);
    case Then(b1, t) =>
      AppendCalls(a, b1);
      assert Calls(a) + Calls(b1) + [t] == Calls(a) + (Calls(b1) + [t]);
  }

  lemma {:induction false} AppendAssoc(a: Trace, b: Trace, c: Trace)
    ensures Append(Append(a, b), c) == Append(a, Append(b, c))
    decreases c
  {
    match c
    case Empty =>
    case Then(c1, t) => AppendAssoc(a, b, c1);
  }

  lemma {:induction false} AppendEmptyLeft(b: Trace)
    ensures Append(Empty, b) == b
    decreases b
  {
    match b
    case Empty =>
    case Then(b1, t) => AppendEmptyLeft(b1);
  }

  lemma {:induction false} RunConcat(st: PrinterState, a: Trace, b: Trace)
    ensures Run(st, Append(a, b)) == Run(Run(st, a), b)
    decreases b
  {
    match b
    case Empty =>
    case Then(b1, t) => RunConcat(st, a, b1);
  }

  /** The emitted text only grows and the cursor line never decreases. */
  lemma {:induction false} RunAppendOnly(st: PrinterState, tr: Trace)
    ensures st.buf <= Run(st, tr).buf
    ensures st.line <= Run(st, tr).line
    decreases tr
  {
    match tr
    case Empty =>
    case Then(before, t) =>
      RunAppendOnly(st, before);
      StepAppendsPaddingThenText(Run(st, before), t);
      StepCursorNeverRetreats(Run(st, before), t);
  }

  /** From a fresh printer the cursor stays at line >= 1 and column >= 1. */
  lemma {:induction false} RunFromInitialCursor(tr: Trace)
    ensures Run(Initial, tr).line >= 1 && Run(Initial, tr).column >= 1
    decreases tr
  {
    match tr
    case Empty =>
    case Then(before, t) => RunFromInitialCursor(before);
  }

  /** No call of the trace prints a text containing a newline. */
  ghost predicate NewlineFree(tr: Trace)
  {
    match tr
    case Empty => true
    case Then(before, t) => NewlineFree(before) && '\n' !in t.text
  }

  /** A run of newline-free texts keeps the cursor in agreement with the buffer. */
  lemma {:induction false} RunKeepsAgreement(st: PrinterState, tr: Trace)
    requires Agrees(st)
    requires NewlineFree(tr)
    ensures Agrees(Run(st, tr))
    decreases tr
  {
    match tr
    case Empty =>
    case Then(before, t) =>
      RunKeepsAgreement(st, before);
      StepKeepsAgreement(Run(st, before), t);
  }

  /** Text placed at index `p` of a buffer stays there once more text is appended. */
  lemma PlacementPersists(b: string, c: string, p: nat, t: Token)
    requires b <= c && p + |t.text| == |b|
    requires b[p..] == t.text && LineAt(b, p) == t.line && ColumnAt(b, p) == t.col
    ensures c[p..p + |t.text|] == t.text && LineAt(c, p) == t.line && ColumnAt(c, p) == t.col
  {
    assert c[..p] == b[..p];
    assert c[p..p + |t.text|] == b[p..];
  }

  /**
   * Layout of a whole run: if every earlier text is newline-free and the cursor
   * is not past the target of a call when it is made, then that call's text
   * appears in the final buffer at exactly its target line and column, however
   * many calls follow it.
   */
  lemma RunPlacement(st: PrinterState, before: Trace, t: Token, after: Trace)
    requires Agrees(st)
    requires NewlineFree(before)
    requires NotPast(Run(st, before), t)
    ensures var b := Run(st, Append(Then(before, t), after)).buf;
            var p := |Run(st, Then(before, t)).buf| - |t.text|;
            0 <= p && p + |t.text| <= |b| && b[p..p + |t.text|] == t.text
            && LineAt(b, p) == t.line && ColumnAt(b, p) == t.col
  {
    var mid := Run(st, Then(before, t));
    var p := |mid.buf| - |t.text|;
    assert mid.buf[p..] == t.text && LineAt(mid.buf, p) == t.line && ColumnAt(mid.buf, p) == t.col
      && p >= 0 by {
      RunKeepsAgreement(st, before);
      StepPlacement(Run(st, before), t);
    }
    var fin := Run(st, Append(Then(before, t), after));
    assert mid.buf <= fin.buf by {
      RunConcat(st, Then(before, t), after);
      RunAppendOnly(mid, after);
    }
    PlacementPersists(mid.buf, fin.buf, p, t);
  }

  /** What the two padding loops of `print` leave behind is one `Step`. */
  lemma StepFromLoops(st: PrinterState, t: Token, sp: nat, r: PrinterState)
    requires var nl := NewlinesBefore(st.line, t.line);
             var column1 := if nl > 0 then 1 else st.column;
             && sp == SpacesBefore(column1, t.col)
             && r.buf == st.buf + Repeat('\n', nl) + Repeat(' ', sp) + t.text
             && r.line == Max(st.line, t.line)
             && r.column == column1 + sp + |t.text|
    ensures r == Step(st, t)
    ensures st.buf <= r.buf
  {
  }

  // ---------------------------------------------------------------------
  // The printer object

  class SourcePrinter {
    var buf: string
    var line: int
    var column: int
    /** Every `print` call made on this printer so far, in order. */
    ghost var trace: Trace

    ghost function State(): PrinterState
      reads this
    {
      PrinterState(buf, line, column)
    }

    /** The fields are exactly what the recorded calls produce from a fresh printer. */
    ghost predicate Valid()
      reads this
    {
      PrinterState(buf, line, column) == Run(Initial, trace)
    }

    constructor ()
      ensures Valid() && trace == Empty
      ensures buf == [] && line == 1 && column == 1
    {
      buf := [];
      line := 1;
      column := 1;
      trace := Empty;
    }

    method Print(s: string, start: int, col: int)
      requires Valid()
      modifies this
      ensures Valid() && trace == Then(old(trace), Token(s, start, col))
    {
      buf, line, column := Pad(buf, line, column, s, start, col);
      trace := Then(trace, Token(s, start, col));
    }

    /** The two padding loops of `print` and the final append, on the values of the fields. */
    static method Pad(buf: string, line: int, column: int, s: string, start: int, col: int)
      returns (b: string, l: int, c: int)
      ensures PrinterState(b, l, c) == Step(PrinterState(buf, line, column), Token(s, start, col))
      ensures l == Max(line, start) && buf <= b
    {
      ghost var st := PrinterState(buf, line, column);
      b, l, c := buf, line, column;
      while l < start
        invariant st.line <= l && (st.line < start ==> l <= start)
        invariant st.line >= start ==> l == st.line
        invariant b == st.buf + Repeat('\n', l - st.line)
        invariant c == if l > st.line then 1 else st.column
        decreases start - l
      {
        b := b + "\n";
        l := l + 1;
        c := 1;
      }
      ghost var column1 := c;
      assert l - st.line == NewlinesBefore(st.line, start);
      assert b + Repeat(' ', 0) == b;
      while c < col
        invariant column1 <= c && (column1 < col ==> c <= col)
        invariant column1 >= col ==> c == column1
        invariant b == st.buf + Repeat('\n', NewlinesBefore(st.line, start)) + Repeat(' ', c - column1)
        decreases col - c
      {
        b := b + " ";
        c := c + 1;
      }
      b := b + s;
      c := c + |s|;
      StepFromLoops(st, Token(s, start, col), c - column1 - |s|, PrinterState(b, l, c));
    }

    method GetSource() returns (s: string)
      ensures s == buf
    {
      s := buf;
    }
  }
}
