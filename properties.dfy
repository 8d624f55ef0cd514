/**
 * Properties of what the dump visitor prints, stated against reference
 * definitions that are independent of the visit functions: the modifier
 * order as a list, operator parsers, and the shape of the orphan-comment
 * runs.
 */
module Properties {
  import opened Wrappers
  import opened Ast
  import opened Printer
  import opened Emission
  import opened Composition

  // ---------------------------------------------------------------------
  // Modifiers

  /** The order in which `printModifiers` tests the modifier flags. */
  const ModifierOrder: seq<Modifier> :=
    [Private, Protected, Public, Abstract, Static, Final, Native, Strictfp, Synchronized, Transient, Volatile]

  /** The position of a modifier in `ModifierOrder`. */
  function Rank(m: Modifier): nat
  {
    match m
    case Private => 0
    case Protected => 1
    case Public => 2
    case Abstract => 3
    case Static => 4
    case Final => 5
    case Native => 6
    case Strictfp => 7
    case Synchronized => 8
    case Transient => 9
    case Volatile => 10
  }

  /** The keyword `printModifiers` prints for a modifier, with its trailing blank. */
  function ModifierKeyword(m: Modifier): string
  {
    match m
    case Private => "private "
    case Protected => "protected "
    case Public => "public "
    case Abstract => "abstract "
    case Static => "static "
    case Final => "final "
    case Native => "native "
    case Strictfp => "strictfp "
    case Synchronized => "synchronized "
    case Transient => "transient "
    case Volatile => "volatile "
  }

  /** The modifiers of `ms` that are set in `mods`, in the order of `ms`. */
  function SetModifiers(mods: Modifiers, ms: seq<Modifier>): seq<Modifier>
  {
    if ms == [] then []
    else SetModifiers(mods, ms[..|ms| - 1]) + (if Has(mods, ms[|ms| - 1]) then [ms[|ms| - 1]] else [])
  }

  /** The keyword calls for a list of modifiers, all aimed at `p`. */
  function KeywordCalls(ms: seq<Modifier>, p: Pos): (r: seq<Token>)
    ensures |r| == |ms|
  {
    seq(|ms|, i requires 0 <= i < |ms| => At(ModifierKeyword(ms[i]), p))
  }

  ghost predicate StrictlyRanked(ms: seq<Modifier>)
  {
    forall i, j :: 0 <= i < j < |ms| ==> Rank(ms[i]) < Rank(ms[j])
  }

  lemma ModifierOrderRanks()
    ensures |ModifierOrder| == 11
    ensures forall i :: 0 <= i < |ModifierOrder| ==> Rank(ModifierOrder[i]) == i
    ensures forall m :: m in ModifierOrder
  {
    forall m
      ensures m in ModifierOrder
    {
      assert ModifierOrder[Rank(m)] == m;
    }
  }

  lemma KeywordCallsSnoc(ms: seq<Modifier>, m: Modifier, p: Pos)
    ensures KeywordCalls(ms + [m], p) == KeywordCalls(ms, p) + [At(ModifierKeyword(m), p)]
  {
    var l, r := KeywordCalls(ms + [m], p), KeywordCalls(ms, p) + [At(ModifierKeyword(m), p)];
    forall i | 0 <= i < |l|
      ensures l[i] == r[i]
    {
      if i < |ms| {
        assert (ms + [m])[i] == ms[i];
      }
    }
  }

  /** The keyword tests for the modifiers `ms`, one after the other, as `printModifiers` makes them. */
  function EmitKeywords(tr: Trace, mods: Modifiers, ms: seq<Modifier>, p: Pos): Trace
  {
    if ms == [] then tr
    else EmitWhen(EmitKeywords(tr, mods, ms[..|ms| - 1], p), Has(mods, ms[|ms| - 1]), At(ModifierKeyword(ms[|ms| - 1]), p))
  }

  lemma EmitKeywordsSnoc(tr: Trace, mods: Modifiers, ms: seq<Modifier>, m: Modifier, p: Pos)
    ensures EmitKeywords(tr, mods, ms + [m], p) == EmitWhen(EmitKeywords(tr, mods, ms, p), Has(mods, m), At(ModifierKeyword(m), p))
  {
    assert (ms + [m])[..|ms|] == ms;
  }

  /** The keyword tests print the keywords of the set modifiers, in list order. */
  lemma {:induction false} EmitKeywordsCalls(tr: Trace, mods: Modifiers, ms: seq<Modifier>, p: Pos)
    ensures Calls(EmitKeywords(tr, mods, ms, p)) == Calls(tr) + KeywordCalls(SetModifiers(mods, ms), p)
  {
    if ms != [] {
      var init, m := ms[..|ms| - 1], ms[|ms| - 1];
      EmitKeywordsCalls(tr, mods, init, p);
      var r := SetModifiers(mods, init);
      if Has(mods, m) {
        KeywordCallsSnoc(r, m, p);
        calc {
          Calls(EmitKeywords(tr, mods, ms, p));
          Calls(EmitKeywords(tr, mods, init, p)) + [At(ModifierKeyword(m), p)];
          Calls(tr) + KeywordCalls(r, p) + [At(ModifierKeyword(m), p)];
          Calls(tr) + (KeywordCalls(r, p) + [At(ModifierKeyword(m), p)]);
        }
      } else {
        assert SetModifiers(mods, ms) == r;
      }
    }
  }

  /** The keyword tests over one more modifier of a list. */
  lemma KeywordTestStep(tr: Trace, mods: Modifiers, ms: seq<Modifier>, k: nat, m: Modifier, p: Pos)
    requires k < |ms| && ms[k] == m
    ensures EmitKeywords(tr, mods, ms[..k + 1], p)
            == EmitWhen(EmitKeywords(tr, mods, ms[..k], p), Has(mods, m), At(ModifierKeyword(m), p))
  {
    EmitKeywordsSnoc(tr, mods, ms[..k], m, p);
    assert ms[..k] + [m] == ms[..k + 1];
  }

  /** The keyword tests for modifiers 0 to 2 of `ModifierOrder`. */
  lemma KeywordTests1(tr: Trace, mods: Modifiers, p: Pos)
    ensures EmitKeywords(tr, mods, ModifierOrder[..3], p)
            == EmitWhen(EmitWhen(EmitWhen(tr, mods.isPrivate, At("private ", p)), mods.isProtected, At("protected ", p)), mods.isPublic, At("public ", p))
  {
    assert ModifierOrder[..0] == [];
    KeywordTestStep(tr, mods, ModifierOrder, 0, Private, p);
    KeywordTestStep(tr, mods, ModifierOrder, 1, Protected, p);
    KeywordTestStep(tr, mods, ModifierOrder, 2, Public, p);
  }

  /** The keyword tests for modifiers 3 to 5 of `ModifierOrder`. */
  lemma KeywordTests2(tr: Trace, mods: Modifiers, p: Pos)
    ensures EmitKeywords(tr, mods, ModifierOrder[..6], p)
            == EmitWhen(EmitWhen(EmitWhen(EmitKeywords(tr, mods, ModifierOrder[..3], p), mods.isAbstract, At("abstract ", p)), mods.isStatic, At("static ", p)), mods.isFinal, At("final ", p))
  {
    KeywordTestStep(tr, mods, ModifierOrder, 3, Abstract, p);
    KeywordTestStep(tr, mods, ModifierOrder, 4, Static, p);
    KeywordTestStep(tr, mods, ModifierOrder, 5, Final, p);
  }

  /** The keyword tests for modifiers 6 to 8 of `ModifierOrder`. */
  lemma KeywordTests3(tr: Trace, mods: Modifiers, p: Pos)
    ensures EmitKeywords(tr, mods, ModifierOrder[..9], p)
            == EmitWhen(EmitWhen(EmitWhen(EmitKeywords(tr, mods, ModifierOrder[..6], p), mods.isNative, At("native ", p)), mods.isStrictfp, At("strictfp ", p)), mods.isSynchronized, At("synchronized ", p))
  {
    KeywordTestStep(tr, mods, ModifierOrder, 6, Native, p);
    KeywordTestStep(tr, mods, ModifierOrder, 7, Strictfp, p);
    KeywordTestStep(tr, mods, ModifierOrder, 8, Synchronized, p);
  }

  /** The keyword tests for modifiers 9 to 10 of `ModifierOrder`. */
  lemma KeywordTests4(tr: Trace, mods: Modifiers, p: Pos)
    ensures EmitKeywords(tr, mods, ModifierOrder[..11], p)
            == EmitWhen(EmitWhen(EmitKeywords(tr, mods, ModifierOrder[..9], p), mods.isTransient, At("transient ", p)), mods.isVolatile, At("volatile ", p))
  {
    KeywordTestStep(tr, mods, ModifierOrder, 9, Transient, p);
    KeywordTestStep(tr, mods, ModifierOrder, 10, Volatile, p);
  }

  /** `printModifiers` is the keyword tests over `ModifierOrder`. */
  lemma ModifiersAreKeywordTests(tr: Trace, mods: Modifiers, p: Pos)
    ensures EmitModifiers(tr, mods, p) == EmitKeywords(tr, mods, ModifierOrder, p)
  {
    KeywordTests1(tr, mods, p);
    KeywordTests2(tr, mods, p);
    KeywordTests3(tr, mods, p);
    KeywordTests4(tr, mods, p);
    assert ModifierOrder[..11] == ModifierOrder;
  }

  /**
   * `printModifiers` prints the keyword of every set modifier, each at the
   * node's position, in the fixed order and nothing else.
   */
  lemma ModifiersPrintSetKeywordsInOrder(tr: Trace, mods: Modifiers, p: Pos)
    ensures Calls(EmitModifiers(tr, mods, p)) == Calls(tr) + KeywordCalls(SetModifiers(mods, ModifierOrder), p)
  {
    ModifiersAreKeywordTests(tr, mods, p);
    EmitKeywordsCalls(tr, mods, ModifierOrder, p);
  }

  /** Filtering keeps exactly the set members of the list. */
  lemma {:induction false} SetModifiersMembers(mods: Modifiers, ms: seq<Modifier>)
    ensures forall m :: m in SetModifiers(mods, ms) <==> m in ms && Has(mods, m)
  {
    if ms != [] {
      SetModifiersMembers(mods, ms[..|ms| - 1]);
      assert ms == ms[..|ms| - 1] + [ms[|ms| - 1]];
    }
  }

  lemma RankedPrefix(ms: seq<Modifier>)
    requires ms != [] && StrictlyRanked(ms)
    ensures StrictlyRanked(ms[..|ms| - 1])
    ensures forall m :: m in ms[..|ms| - 1] ==> Rank(m) < Rank(ms[|ms| - 1])
  {
    var init := ms[..|ms| - 1];
    forall i, j | 0 <= i < j < |init|
      ensures Rank(init[i]) < Rank(init[j])
    {
      assert init[i] == ms[i] && init[j] == ms[j];
    }
    forall m | m in init
      ensures Rank(m) < Rank(ms[|ms| - 1])
    {
      var i :| 0 <= i < |init| && init[i] == m;
      assert ms[i] == m;
    }
  }

  /** Filtering a strictly ranked list keeps it strictly ranked. */
  lemma {:induction false} SetModifiersRanked(mods: Modifiers, ms: seq<Modifier>)
    requires StrictlyRanked(ms)
    ensures StrictlyRanked(SetModifiers(mods, ms))
  {
    if ms != [] {
      var init, last := ms[..|ms| - 1], ms[|ms| - 1];
      RankedPrefix(ms);
      SetModifiersRanked(mods, init);
      SetModifiersMembers(mods, init);
      var r' := SetModifiers(mods, init);
      if Has(mods, last) {
        var r := r' + [last];
        forall i, j | 0 <= i < j < |r|
          ensures Rank(r[i]) < Rank(r[j])
        {
          if j == |r'| {
            assert r[i] in r';
          } else {
            assert r[i] == r'[i] && r[j] == r'[j];
          }
        }
      }
    }
  }

  /**
   * Every set modifier appears exactly once among the keywords, no unset one
   * appears, and they come in the fixed order.
   */
  lemma ModifiersExactlyOnceInOrder(mods: Modifiers)
    ensures var r := SetModifiers(mods, ModifierOrder);
            && (forall m :: m in r <==> Has(mods, m))
            && (forall i, j :: 0 <= i < j < |r| ==> Rank(r[i]) < Rank(r[j]))
            && (forall i, j :: 0 <= i < j < |r| ==> r[i] != r[j])
  {
    ModifierOrderRanks();
    SetModifiersMembers(mods, ModifierOrder);
    SetModifiersRanked(mods, ModifierOrder);
  }

  /** Reads a modifier back from its keyword. */
  function ParseModifierKeyword(s: string): Option<Modifier>
  {
    if s == "private " then Some(Private)
    else if s == "protected " then Some(Protected)
    else if s == "public " then Some(Public)
    else if s == "abstract " then Some(Abstract)
    else if s == "static " then Some(Static)
    else if s == "final " then Some(Final)
    else if s == "native " then Some(Native)
    else if s == "strictfp " then Some(Strictfp)
    else if s == "synchronized " then Some(Synchronized)
    else if s == "transient " then Some(Transient)
    else if s == "volatile " then Some(Volatile)
    else None
  }

  /** Every keyword reads back as its modifier, so distinct modifiers print distinct keywords. */
  lemma ModifierKeywordRoundTrip(m: Modifier)
    ensures ParseModifierKeyword(ModifierKeyword(m)) == Some(m)
    ensures var k := ModifierKeyword(m); |k| > 1 && k[|k| - 1] == ' '
  {
  }

  lemma ModifierKeywordsDistinct(a: Modifier, b: Modifier)
    ensures ModifierKeyword(a) == ModifierKeyword(b) <==> a == b
  {
    ModifierKeywordRoundTrip(a);
    ModifierKeywordRoundTrip(b);
  }

  // ---------------------------------------------------------------------
  // Operators

  /** Reads an assignment operator back from its text. */
  function ParseAssignOp(s: string): Option<AssignOp>
  {
    if s == "=" then Some(AssignOp.Assign)
    else if s == "&=" then Some(AssignOp.And)
    else if s == "|=" then Some(AssignOp.Or)
    else if s == "^=" then Some(AssignOp.Xor)
    else if s == "+=" then Some(AssignOp.Plus)
    else if s == "-=" then Some(AssignOp.Minus)
    else if s == "%=" then Some(AssignOp.Rem)
    else if s == "/=" then Some(AssignOp.Slash)
    else if s == "*=" then Some(AssignOp.Star)
    else if s == "<<=" then Some(AssignOp.LShift)
    else if s == ">>=" then Some(AssignOp.RSignedShift)
    else if s == ">>>=" then Some(AssignOp.RUnsignedShift)
    else None
  }

  /** Reads a binary operator back from its text. */
  function ParseBinaryOp(s: string): Option<BinaryOp>
  {
    if s == "||" then Some(BinaryOp.Or)
    else if s == "&&" then Some(BinaryOp.And)
    else if s == "|" then Some(BinOr)
    else if s == "&" then Some(BinAnd)
    else if s == "^" then Some(BinaryOp.Xor)
    else if s == "==" then Some(Equals)
    else if s == "!=" then Some(NotEquals)
    else if s == "<" then Some(Less)
    else if s == ">" then Some(Greater)
    else if s == "<=" then Some(LessEquals)
    else if s == ">=" then Some(GreaterEquals)
    else if s == "<<" then Some(BinaryOp.LShift)
    else if s == ">>" then Some(BinaryOp.RSignedShift)
    else if s == ">>>" then Some(BinaryOp.RUnsignedShift)
    else if s == "+" then Some(BinaryOp.Plus)
    else if s == "-" then Some(BinaryOp.Minus)
    else if s == "*" then Some(Times)
    else if s == "/" then Some(Divide)
    else if s == "%" then Some(Remainder)
    else None
  }

  /** The assignment operator table is a bijection onto the texts the parser accepts. */
  lemma AssignOpTextRoundTrip(op: AssignOp)
    ensures ParseAssignOp(AssignOpText(op)) == Some(op)
  {
  }

  /** Whatever the parser accepts is the text of the operator it returns. */
  lemma ParseAssignOpSound(s: string)
    ensures ParseAssignOp(s).Some? ==> AssignOpText(ParseAssignOp(s).value) == s
  {
  }

  /** The binary operator table is a bijection onto the texts the parser accepts. */
  lemma BinaryOpTextRoundTrip(op: BinaryOp)
    ensures ParseBinaryOp(BinaryOpText(op)) == Some(op)
  {
  }

  /** Whatever the parser accepts is the text of the operator it returns. */
  lemma ParseBinaryOpSound(s: string)
    ensures ParseBinaryOp(s).Some? ==> BinaryOpText(ParseBinaryOp(s).value) == s
  {
  }

  /** The binary operator a compound assignment applies. */
  function CompoundOperator(op: AssignOp): Option<BinaryOp>
  {
    match op
    case Assign => None
    case And => Some(BinAnd)
    case Or => Some(BinOr)
    case Xor => Some(BinaryOp.Xor)
    case Plus => Some(BinaryOp.Plus)
    case Minus => Some(BinaryOp.Minus)
    case Rem => Some(Remainder)
    case Slash => Some(Divide)
    case Star => Some(Times)
    case LShift => Some(BinaryOp.LShift)
    case RSignedShift => Some(BinaryOp.RSignedShift)
    case RUnsignedShift => Some(BinaryOp.RUnsignedShift)
  }

  /** Each compound assignment is printed as its binary operator followed by `=`. */
  lemma CompoundAssignText(op: AssignOp)
    ensures CompoundOperator(op).Some? <==> op != AssignOp.Assign
    ensures CompoundOperator(op).Some? ==> AssignOpText(op) == BinaryOpText(CompoundOperator(op).value) + "="
  {
  }

  /** Each unary operator is printed by exactly one of the two switches. */
  lemma UnaryOperatorOneSide(op: UnaryOp)
    ensures UnaryPrefixText(op).Some? != UnaryPostfixText(op).Some?
    ensures UnaryPostfixText(op).Some? <==> op == PosIncrement || op == PosDecrement
  {
  }

  /** The two switches of the unary visit. */
  datatype Fixity = Prefix | Postfix

  /** The text a unary operator has in the switch for one side. */
  function UnaryText(f: Fixity, op: UnaryOp): Option<string>
  {
    if f.Prefix? then UnaryPrefixText(op) else UnaryPostfixText(op)
  }

  /** Reads a unary operator back from its text and the side it stands on. */
  function ParseUnaryOp(f: Fixity, s: string): Option<UnaryOp>
  {
    match f
    case Prefix =>
      if s == "+" then Some(Positive)
      else if s == "-" then Some(Negative)
      else if s == "~" then Some(Inverse)
      else if s == "!" then Some(Not)
      else if s == "++" then Some(PreIncrement)
      else if s == "--" then Some(PreDecrement)
      else None
    case Postfix =>
      if s == "++" then Some(PosIncrement)
      else if s == "--" then Some(PosDecrement)
      else None
  }

  /** A unary operator's text, with its side, reads back as that operator. */
  lemma UnaryTextRoundTrip(f: Fixity, op: UnaryOp)
    ensures UnaryText(f, op).Some? ==> ParseUnaryOp(f, UnaryText(f, op).value) == Some(op)
  {
  }

  /** Whatever the unary parser accepts on a side is the text of its result on that side. */
  lemma ParseUnaryOpSound(f: Fixity, s: string)
    ensures ParseUnaryOp(f, s).Some? ==> UnaryText(f, ParseUnaryOp(f, s).value) == Some(s)
  {
  }

  /** Reads a primitive type back from its keyword. */
  function ParsePrimitiveKeyword(s: string): Option<PrimitiveKind>
  {
    if s == "boolean" then Some(Boolean)
    else if s == "byte" then Some(Byte)
    else if s == "char" then Some(Char)
    else if s == "double" then Some(Double)
    else if s == "float" then Some(Float)
    else if s == "int" then Some(Int)
    else if s == "long" then Some(Long)
    else if s == "short" then Some(Short)
    else None
  }

  /** Every primitive keyword reads back as its kind, so no two kinds share one. */
  lemma PrimitiveKeywordRoundTrip(k: PrimitiveKind)
    ensures ParsePrimitiveKeyword(PrimitiveKeyword(k)) == Some(k)
  {
  }

  /** Whatever the keyword parser accepts is the keyword of its result. */
  lemma ParsePrimitiveKeywordSound(s: string)
    ensures ParsePrimitiveKeyword(s).Some? ==> PrimitiveKeyword(ParsePrimitiveKeyword(s).value) == s
  {
  }

  /** The calls of an operator between blanks, after the calls of its left operand. */
  lemma OperatorCalls(tr: Trace, e: Expr, left: Expr, op: string, right: Expr, pc: bool)
    ensures var l := EmitExpr(EmitOptComment(tr, e.comment, pc), left, pc);
            var m := Then(Then(Then(l, At(" ", e.pos)), At(op, e.pos)), At(" ", e.pos));
            Calls(EmitExpr(m, right, pc))
            == Calls(tr) + Calls(EmitOptComment(Empty, e.comment, pc)) + Calls(EmitExpr(Empty, left, pc))
               + [At(" ", e.pos), At(op, e.pos), At(" ", e.pos)] + Calls(EmitExpr(Empty, right, pc))
  {
    var c := EmitOptComment(tr, e.comment, pc);
    OptCommentIndependent(tr, e.comment, pc);
    AppendCalls(tr, EmitOptComment(Empty, e.comment, pc));
    var l := EmitExpr(c, left, pc);
    ExprIndependent(c, left, pc);
    AppendCalls(c, EmitExpr(Empty, left, pc));
    var m1 := Then(Then(l, At(" ", e.pos)), At(op, e.pos));
    assert Calls(m1) == Calls(l) + [At(" ", e.pos)] + [At(op, e.pos)];
    var m := Then(m1, At(" ", e.pos));
    ExprIndependent(m, right, pc);
    AppendCalls(m, EmitExpr(Empty, right, pc));
  }

  /**
   * An assignment prints its target, the operator from the table between two
   * blanks, and its value, each part as it would print on its own.
   */
  lemma AssignExprCalls(tr: Trace, e: Expr, pc: bool)
    requires e.AssignExpr?
    ensures Calls(EmitAssignExpr(tr, e, pc))
            == Calls(tr) + Calls(EmitOptComment(Empty, e.comment, pc)) + Calls(EmitExpr(Empty, e.target, pc))
               + [At(" ", e.pos), At(AssignOpText(e.assignOp), e.pos), At(" ", e.pos)]
               + Calls(EmitExpr(Empty, e.value, pc))
  {
    OperatorCalls(tr, e, e.target, AssignOpText(e.assignOp), e.value, pc);
  }

  /** A binary expression prints like an assignment, with the binary operator table. */
  lemma BinaryExprCalls(tr: Trace, e: Expr, pc: bool)
    requires e.BinaryExpr?
    ensures Calls(EmitBinaryExpr(tr, e, pc))
            == Calls(tr) + Calls(EmitOptComment(Empty, e.comment, pc)) + Calls(EmitExpr(Empty, e.left, pc))
               + [At(" ", e.pos), At(BinaryOpText(e.binaryOp), e.pos), At(" ", e.pos)]
               + Calls(EmitExpr(Empty, e.right, pc))
  {
    OperatorCalls(tr, e, e.left, BinaryOpText(e.binaryOp), e.right, pc);
  }

  /** The calls of an operator that only some cases of a switch print. */
  function OptionalCalls(text: Option<string>, p: Pos): seq<Token>
  {
    if text.Some? then [At(text.value, p)] else []
  }

  /**
   * A unary expression prints its comment, the prefix operator if it has one,
   * its operand as it would print on its own, and the postfix operator if it
   * has one; by `UnaryOperatorOneSide` exactly one of the two is printed.
   */
  lemma UnaryExprCalls(tr: Trace, e: Expr, pc: bool)
    requires e.UnaryExpr?
    ensures Calls(EmitUnaryExpr(tr, e, pc))
            == Calls(tr) + Calls(EmitOptComment(Empty, e.comment, pc))
               + OptionalCalls(UnaryPrefixText(e.unaryOp), e.pos)
               + Calls(EmitExpr(Empty, e.operand, pc))
               + OptionalCalls(UnaryPostfixText(e.unaryOp), e.pos)
  {
    var c := EmitOptComment(tr, e.comment, pc);
    OptCommentIndependent(tr, e.comment, pc);
    AppendCalls(tr, EmitOptComment(Empty, e.comment, pc));
    var t := EmitOptional(c, UnaryPrefixText(e.unaryOp), e.pos);
    assert Calls(t) == Calls(c) + OptionalCalls(UnaryPrefixText(e.unaryOp), e.pos);
    ExprIndependent(t, e.operand, pc);
    AppendCalls(t, EmitExpr(Empty, e.operand, pc));
  }

  // ---------------------------------------------------------------------
  // Separated lists

  /**
   * A list printed element by element, with `sep` of an element between it
   * and the next one: the reference reading of the argument and
   * type-argument loops, which instead print a separator after every element
   * that has a successor.
   */
  function Joined<T>(xs: seq<T>, part: T -> seq<Token>, sep: T -> Token): seq<Token>
  {
    if |xs| == 0 then []
    else part(xs[0]) + (if |xs| == 1 then [] else [sep(xs[0])] + Joined(xs[1..], part, sep))
  }

  lemma {:induction false} JoinedSnoc<T>(xs: seq<T>, x: T, part: T -> seq<Token>, sep: T -> Token)
    requires xs != []
    ensures Joined(xs + [x], part, sep) == Joined(xs, part, sep) + [sep(xs[|xs| - 1])] + part(x)
    decreases |xs|
  {
    var ys := xs + [x];
    assert ys[0] == xs[0];
    if |xs| == 1 {
      assert ys[1..] == [x];
    } else {
      assert ys[1..] == xs[1..] + [x];
      JoinedSnoc(xs[1..], x, part, sep);
    }
  }

  /** One more element of a separated list, on top of the calls printed before it. */
  lemma JoinedPrefixStep<T>(xs: seq<T>, i: nat, part: T -> seq<Token>, sep: T -> Token, base: seq<Token>, before: seq<Token>)
    requires 0 < i <= |xs|
    requires before == base + Joined(xs[..i - 1], part, sep) + (if 1 < i then [sep(xs[i - 2])] else [])
    ensures before + part(xs[i - 1]) == base + Joined(xs[..i], part, sep)
  {
    assert xs[..i] == xs[..i - 1] + [xs[i - 1]];
    if i == 1 {
      assert xs[..i - 1] == [];
      assert Joined(xs[..i], part, sep) == part(xs[0]);
    } else {
      JoinedSnoc(xs[..i - 1], xs[i - 1], part, sep);
    }
  }

  /** What an argument prints on its own. */
  function ArgumentCalls(pc: bool): Expr -> seq<Token>
  {
    (e: Expr) => Calls(EmitExpr(Empty, e, pc))
  }

  /** The separator after an argument, aimed at that argument. */
  function ArgumentComma(): Expr -> Token
  {
    (e: Expr) => At(", ", e.pos)
  }

  lemma {:induction false} ArgumentPiecesCalls(tr: Trace, args: seq<Expr>, i: nat, pc: bool)
    requires i <= |args|
    ensures Calls(EmitArgumentPieces(tr, args, i, pc))
            == Calls(tr) + Joined(args[..i], ArgumentCalls(pc), ArgumentComma())
               + (if 0 < i < |args| then [At(", ", args[i - 1].pos)] else [])
    decreases i
  {
    if i == 0 {
      assert args[..0] == [];
    } else {
      var prev := EmitArgumentPieces(tr, args, i - 1, pc);
      var t := EmitExpr(prev, args[i - 1], pc);
      ArgumentPiecesCalls(tr, args, i - 1, pc);
      ExprIndependent(prev, args[i - 1], pc);
      AppendCalls(prev, EmitExpr(Empty, args[i - 1], pc));
      assert Calls(t) == Calls(prev) + ArgumentCalls(pc)(args[i - 1]);
      JoinedPrefixStep(args, i, ArgumentCalls(pc), ArgumentComma(), Calls(tr), Calls(prev));
    }
  }

  /**
   * `printArguments`: "(" as glue, each argument as it would print on its
   * own with ", " between consecutive arguments, ")" as glue; an empty list
   * prints just the two parentheses.
   */
  lemma ArgumentsCalls(tr: Trace, args: seq<Expr>, pc: bool)
    ensures Calls(EmitArguments(tr, args, pc))
            == Calls(tr) + [Glue("(")] + Joined(args, ArgumentCalls(pc), ArgumentComma()) + [Glue(")")]
  {
    ArgumentPiecesCalls(Then(tr, Glue("(")), args, |args|, pc);
    assert args[..|args|] == args;
  }

  /** What a type prints on its own. */
  function TypeCalls(pc: bool): Type -> seq<Token>
  {
    (t: Type) => Calls(EmitType(Empty, t, pc))
  }

  /** The separator after a type argument, aimed at that type. */
  function TypeComma(): Type -> Token
  {
    (t: Type) => At(", ", t.pos)
  }

  lemma {:induction false} TypeArgPiecesCalls(tr: Trace, ts: seq<Type>, i: nat, pc: bool)
    requires i <= |ts|
    ensures Calls(EmitTypeArgPieces(tr, ts, i, pc))
            == Calls(tr) + Joined(ts[..i], TypeCalls(pc), TypeComma())
               + (if 0 < i < |ts| then [At(", ", ts[i - 1].pos)] else [])
    decreases i
  {
    if i == 0 {
      assert ts[..0] == [];
    } else {
      var prev := EmitTypeArgPieces(tr, ts, i - 1, pc);
      var t := EmitType(prev, ts[i - 1], pc);
      TypeArgPiecesCalls(tr, ts, i - 1, pc);
      TypeIndependent(prev, ts[i - 1], pc);
      AppendCalls(prev, EmitType(Empty, ts[i - 1], pc));
      assert Calls(t) == Calls(prev) + TypeCalls(pc)(ts[i - 1]);
      JoinedPrefixStep(ts, i, TypeCalls(pc), TypeComma(), Calls(tr), Calls(prev));
    }
  }

  /**
   * `printTypeArgs`: nothing at all for an empty list; otherwise "<" as glue,
   * each type as it would print on its own with ", " between consecutive
   * types, ">" as glue.
   */
  lemma TypeArgsCalls(tr: Trace, ts: seq<Type>, pc: bool)
    ensures ts == [] ==> EmitTypeArgs(tr, ts, pc) == tr
    ensures ts != [] ==>
              Calls(EmitTypeArgs(tr, ts, pc))
              == Calls(tr) + [Glue("<")] + Joined(ts, TypeCalls(pc), TypeComma()) + [Glue(">")]
  {
    if ts != [] {
      TypeArgPiecesCalls(Then(tr, Glue("<")), ts, |ts|, pc);
      assert ts[..|ts|] == ts;
    }
  }

  // ---------------------------------------------------------------------
  // Comments

  /** With comments switched off, only a javadoc comment prints anything. */
  lemma CommentFlag(tr: Trace, c: Comment)
    ensures EmitComment(tr, c, false) == tr <==> !c.JavadocComment?
    ensures EmitComment(tr, c, true) == EmitComment(tr, c, false) <==> c.JavadocComment?
  {
    CommentIndependent(tr, c, true);
    CommentIndependent(tr, c, false);
    AppendCalls(tr, EmitComment(Empty, c, true));
    AppendCalls(tr, EmitComment(Empty, c, false));
  }

  /** A line comment's text: same length, no line break left, every other character kept. */
  lemma LineCommentTextSpec(content: string)
    ensures var r := LineCommentText(content);
            && |r| == |content|
            && '\n' !in r && '\r' !in r
            && (forall i :: 0 <= i < |r| ==>
                 r[i] == (if content[i] == '\n' || content[i] == '\r' then ' ' else content[i]))
            && LineCommentText(r) == r
  {
    var r := LineCommentText(content);
    assert forall i :: 0 <= i < |r| ==> r[i] != '\n' && r[i] != '\r';
  }

  // ---------------------------------------------------------------------
  // Orphan comments

  /**
   * The orphan comments printed before a node: nothing when it has no parent;
   * otherwise the maximal run of comments immediately before the last
   * occurrence of the node among its parent's sorted children.
   */
  lemma OrphansBeforeSpec(id: nat, siblings: Option<seq<Child>>)
    requires InParent(id, siblings)
    ensures siblings.None? ==> OrphansBefore(id, siblings) == []
    ensures siblings.Some? ==>
              var s, r, k := siblings.value, OrphansBefore(id, siblings), LastIndexOf(siblings.value, NodeChild(id));
              && 0 <= k && s[k] == NodeChild(id) && (forall j :: k < j < |s| ==> s[j] != NodeChild(id))
              && |r| <= k
              && (forall i :: 0 <= i < |r| ==> s[k - |r| + i] == CommentChild(r[i]))
              && (|r| < k ==> !s[k - |r| - 1].CommentChild?)
  {
    if siblings.Some? {
      var s := siblings.value;
      var k := LastIndexOf(s, NodeChild(id));
      LastIndexOfSpec(s, NodeChild(id));
      TrailingCommentsShape(s[..k]);
    }
  }

  /**
   * The orphan comments printed at the end of a node: the maximal run of
   * comments at the end of its sorted children, in order.
   */
  lemma OrphansEndingSpec(tr: Trace, children: seq<Child>, pc: bool)
    ensures var r := TrailingComments(children);
            && EmitOrphansEnding(tr, children, pc) == EmitComments(tr, r, |r|, pc)
            && |r| <= |children|
            && (forall i :: 0 <= i < |r| ==> children[|children| - |r| + i] == CommentChild(r[i]))
            && (|r| < |children| ==> !children[|children| - |r| - 1].CommentChild?)
            && (children == [] || !children[|children| - 1].CommentChild? ==> EmitOrphansEnding(tr, children, pc) == tr)
  {
    TrailingCommentsShape(children);
  }

  // ---------------------------------------------------------------------
  // The if statement

  /**
   * The else branch of an if statement is printed exactly when the then
   * branch is not a block: a then block silently drops the else branch.
   */
  lemma ElseDroppedIffThenBlock(tr: Trace, s: Stmt, pc: bool)
    requires s.IfStmt? && s.elseStmt.Some?
    ensures EmitIfStmt(tr, s, pc) == EmitIfStmt(tr, s.(elseStmt := None), pc) <==> s.thenStmt.BlockStmt?
  {
    if !s.thenStmt.BlockStmt? {
      var t2 := EmitIfStmt(tr, s.(elseStmt := None), pc);
      var t3 := Then(t2, At(ElseKeyword(s.elseStmt.value), s.pos));
      StmtIndependent(t3, s.elseStmt.value, pc);
      AppendCalls(t3, EmitStmt(Empty, s.elseStmt.value, pc));
      assert |Calls(EmitIfStmt(tr, s, pc))| > |Calls(t2)|;
    }
  }
}
