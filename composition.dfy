/**
 * The visitor keeps no state of its own besides the printer, so what a node
 * prints does not depend on what was printed before it: for the emission
 * functions of comments, types, expressions and statements,
 * `EmitX(tr, x) == Append(tr, EmitX(Empty, x))`.
 */
module Composition {
  import opened Wrappers
  import opened Ast
  import opened Printer
  import opened Emission

  /** Two context-independent steps in a row make a context-independent step. */
  lemma Compose(tr: Trace, f0: Trace, ftr: Trace, g0: Trace, gftr: Trace, gf0: Trace)
    requires ftr == Append(tr, f0)
    requires gftr == Append(ftr, g0)
    requires gf0 == Append(f0, g0)
    ensures gftr == Append(tr, gf0)
  {
    AppendAssoc(tr, f0, g0);
  }

  // ---------------------------------------------------------------------
  // Comments and fixed tables

  /** Two fixed calls after a context-independent step. */
  lemma TwoCallsAfter(tr: Trace, f0: Trace, a: Token, b: Token)
    ensures Then(Then(Append(tr, f0), a), b) == Append(tr, Then(Then(f0, a), b))
  {
    assert Append(tr, Then(f0, a)) == Then(Append(tr, f0), a);
  }

  /** Three fixed calls after a context-independent step. */
  lemma ThreeCallsAfter(tr: Trace, f0: Trace, a: Token, b: Token, c: Token)
    ensures Then(Then(Then(Append(tr, f0), a), b), c) == Append(tr, Then(Then(Then(f0, a), b), c))
  {
    TwoCallsAfter(tr, f0, a, b);
  }

  lemma CommentIndependent(tr: Trace, c: Comment, pc: bool)
    ensures EmitComment(tr, c, pc) == Append(tr, EmitComment(Empty, c, pc))
  {
    match c
    case LineComment(content, p) =>
      if pc {
        TwoCallsAfter(tr, Empty, At("//", p), At(LineCommentText(content), p));
      }
    case BlockComment(content, p) =>
      if pc {
        ThreeCallsAfter(tr, Empty, At("/*", p), At(content, p), At("*/", p));
      }
    case JavadocComment(content, p) => ThreeCallsAfter(tr, Empty, At("/**", p), At(content, p), At("*/", p));
  }

  lemma OptCommentIndependent(tr: Trace, c: Option<Comment>, pc: bool)
    ensures EmitOptComment(tr, c, pc) == Append(tr, EmitOptComment(Empty, c, pc))
  {
    if c.Some? {
      CommentIndependent(tr, c.value, pc);
    }
  }

  lemma {:induction false} CommentsIndependent(tr: Trace, cs: seq<Comment>, i: nat, pc: bool)
    requires i <= |cs|
    ensures EmitComments(tr, cs, i, pc) == Append(tr, EmitComments(Empty, cs, i, pc))
    decreases i
  {
    if i > 0 {
      var f0, ftr := EmitComments(Empty, cs, i - 1, pc), EmitComments(tr, cs, i - 1, pc);
      CommentsIndependent(tr, cs, i - 1, pc);
      CommentIndependent(ftr, cs[i - 1], pc);
      CommentIndependent(f0, cs[i - 1], pc);
      Compose(tr, f0, ftr, EmitComment(Empty, cs[i - 1], pc), EmitComment(ftr, cs[i - 1], pc),
              EmitComment(f0, cs[i - 1], pc));
    }
  }

  lemma OrphansEndingIndependent(tr: Trace, children: seq<Child>, pc: bool)
    ensures EmitOrphansEnding(tr, children, pc) == Append(tr, EmitOrphansEnding(Empty, children, pc))
  {
    var cs := TrailingComments(children);
    CommentsIndependent(tr, cs, |cs|, pc);
  }

  lemma OrphansBeforeIndependent(tr: Trace, id: nat, siblings: Option<seq<Child>>, pc: bool)
    ensures EmitOrphansBefore(tr, id, siblings, pc) == Append(tr, EmitOrphansBefore(Empty, id, siblings, pc))
  {
    var cs := OrphansBefore(id, siblings);
    CommentsIndependent(tr, cs, |cs|, pc);
  }

  lemma {:induction false} BracketsIndependent(tr: Trace, n: nat, p: Pos)
    ensures EmitBrackets(tr, n, p) == Append(tr, EmitBrackets(Empty, n, p))
    decreases n
  {
    if n > 0 {
      BracketsIndependent(tr, n - 1, p);
    }
  }

  // ---------------------------------------------------------------------
  // Types

  lemma TypeIndependent(tr: Trace, t: Type, pc: bool)
    ensures EmitType(tr, t, pc) == Append(tr, EmitType(Empty, t, pc))
    decreases t, 1
  {
    OptCommentIndependent(tr, t.comment, pc);
    match t
    case PrimitiveType(_, _, _) =>
    case ClassOrInterfaceType(_, _, _, _, _) => ClassOrInterfaceTypeIndependent(tr, t, pc);
    case ReferenceType(_, _, _, _) => ReferenceTypeIndependent(tr, t, pc);
    case VoidType(_, _) =>
  }

  lemma ClassOrInterfaceTypeIndependent(tr: Trace, t: Type, pc: bool)
    requires t.ClassOrInterfaceType?
    ensures EmitClassOrInterfaceType(tr, t, pc) == Append(tr, EmitClassOrInterfaceType(Empty, t, pc))
    decreases t, 0
  {
    var c0, ctr := EmitOptComment(Empty, t.comment, pc), EmitOptComment(tr, t.comment, pc);
    OptCommentIndependent(tr, t.comment, pc);
    var s0 := if t.scope.Some? then Then(EmitType(c0, t.scope.value, pc), At(".", t.pos)) else c0;
    var str := if t.scope.Some? then Then(EmitType(ctr, t.scope.value, pc), At(".", t.pos)) else ctr;
    if t.scope.Some? {
      var sc := t.scope.value;
      TypeIndependent(ctr, sc, pc);
      TypeIndependent(c0, sc, pc);
      Compose(tr, c0, ctr, EmitType(Empty, sc, pc), EmitType(ctr, sc, pc), EmitType(c0, sc, pc));
    }
    assert str == Append(tr, s0);
    var n0, ntr := Then(s0, At(t.name, t.pos)), Then(str, At(t.name, t.pos));
    TypeArgsIndependent(ntr, t.typeArgs, pc);
    TypeArgsIndependent(n0, t.typeArgs, pc);
    Compose(tr, n0, ntr, EmitTypeArgs(Empty, t.typeArgs, pc), EmitTypeArgs(ntr, t.typeArgs, pc),
            EmitTypeArgs(n0, t.typeArgs, pc));
  }

  lemma ReferenceTypeIndependent(tr: Trace, t: Type, pc: bool)
    requires t.ReferenceType?
    ensures EmitReferenceType(tr, t, pc) == Append(tr, EmitReferenceType(Empty, t, pc))
    decreases t, 0
  {
    var c0, ctr := EmitOptComment(Empty, t.comment, pc), EmitOptComment(tr, t.comment, pc);
    OptCommentIndependent(tr, t.comment, pc);
    var e0, etr := EmitType(c0, t.elementType, pc), EmitType(ctr, t.elementType, pc);
    TypeIndependent(ctr, t.elementType, pc);
    TypeIndependent(c0, t.elementType, pc);
    Compose(tr, c0, ctr, EmitType(Empty, t.elementType, pc), etr, e0);
    BracketsIndependent(etr, t.arrayCount, t.pos);
    BracketsIndependent(e0, t.arrayCount, t.pos);
    Compose(tr, e0, etr, EmitBrackets(Empty, t.arrayCount, t.pos), EmitBrackets(etr, t.arrayCount, t.pos),
            EmitBrackets(e0, t.arrayCount, t.pos));
  }

  lemma TypeArgsIndependent(tr: Trace, ts: seq<Type>, pc: bool)
    ensures EmitTypeArgs(tr, ts, pc) == Append(tr, EmitTypeArgs(Empty, ts, pc))
    decreases ts, 1
  {
    if |ts| > 0 {
      var o0, otr := Then(Empty, Glue("<")), Then(tr, Glue("<"));
      TypeArgPiecesIndependent(otr, ts, |ts|, pc);
      TypeArgPiecesIndependent(o0, ts, |ts|, pc);
      Compose(tr, o0, otr, EmitTypeArgPieces(Empty, ts, |ts|, pc), EmitTypeArgPieces(otr, ts, |ts|, pc),
              EmitTypeArgPieces(o0, ts, |ts|, pc));
    }
  }

  lemma {:induction false} TypeArgPiecesIndependent(tr: Trace, ts: seq<Type>, i: nat, pc: bool)
    requires i <= |ts|
    ensures EmitTypeArgPieces(tr, ts, i, pc) == Append(tr, EmitTypeArgPieces(Empty, ts, i, pc))
    decreases ts, 0, i
  {
    if i > 0 {
      var f0, ftr := EmitTypeArgPieces(Empty, ts, i - 1, pc), EmitTypeArgPieces(tr, ts, i - 1, pc);
      TypeArgPiecesIndependent(tr, ts, i - 1, pc);
      TypeIndependent(ftr, ts[i - 1], pc);
      TypeIndependent(f0, ts[i - 1], pc);
      Compose(tr, f0, ftr, EmitType(Empty, ts[i - 1], pc), EmitType(ftr, ts[i - 1], pc), EmitType(f0, ts[i - 1], pc));
    }
  }

  lemma {:induction false} TypeListIndependent(tr: Trace, ts: seq<Type>, i: nat, sep: Token, pc: bool)
    requires i <= |ts|
    ensures EmitTypeList(tr, ts, i, sep, pc) == Append(tr, EmitTypeList(Empty, ts, i, sep, pc))
    decreases i
  {
    if i > 0 {
      var f0, ftr := EmitTypeList(Empty, ts, i - 1, sep, pc), EmitTypeList(tr, ts, i - 1, sep, pc);
      TypeListIndependent(tr, ts, i - 1, sep, pc);
      TypeIndependent(ftr, ts[i - 1], pc);
      TypeIndependent(f0, ts[i - 1], pc);
      Compose(tr, f0, ftr, EmitType(Empty, ts[i - 1], pc), EmitType(ftr, ts[i - 1], pc), EmitType(f0, ts[i - 1], pc));
    }
  }

  lemma TypeParameterIndependent(tr: Trace, tp: TypeParameter, pc: bool)
    ensures EmitTypeParameter(tr, tp, pc) == Append(tr, EmitTypeParameter(Empty, tp, pc))
  {
    OptCommentIndependent(tr, tp.comment, pc);
    if tp.typeBound.Some? {
      var bs := tp.typeBound.value;
      var sep := At(" & ", tp.pos);
      var h0 := Then(Then(EmitOptComment(Empty, tp.comment, pc), At(tp.name, tp.pos)), At(" extends ", tp.pos));
      var htr := Then(Then(EmitOptComment(tr, tp.comment, pc), At(tp.name, tp.pos)), At(" extends ", tp.pos));
      TypeListIndependent(htr, bs, |bs|, sep, pc);
      TypeListIndependent(h0, bs, |bs|, sep, pc);
      Compose(tr, h0, htr, EmitTypeList(Empty, bs, |bs|, sep, pc), EmitTypeList(htr, bs, |bs|, sep, pc),
              EmitTypeList(h0, bs, |bs|, sep, pc));
    }
  }

  lemma {:induction false} TypeParameterPiecesIndependent(tr: Trace, tps: seq<TypeParameter>, i: nat, pc: bool)
    requires i <= |tps|
    ensures EmitTypeParameterPieces(tr, tps, i, pc) == Append(tr, EmitTypeParameterPieces(Empty, tps, i, pc))
    decreases i
  {
    if i > 0 {
      var f0, ftr := EmitTypeParameterPieces(Empty, tps, i - 1, pc), EmitTypeParameterPieces(tr, tps, i - 1, pc);
      TypeParameterPiecesIndependent(tr, tps, i - 1, pc);
      TypeParameterIndependent(ftr, tps[i - 1], pc);
      TypeParameterIndependent(f0, tps[i - 1], pc);
      Compose(tr, f0, ftr, EmitTypeParameter(Empty, tps[i - 1], pc), EmitTypeParameter(ftr, tps[i - 1], pc),
              EmitTypeParameter(f0, tps[i - 1], pc));
    }
  }

  lemma TypeParametersIndependent(tr: Trace, tps: seq<TypeParameter>, pc: bool)
    ensures EmitTypeParameters(tr, tps, pc) == Append(tr, EmitTypeParameters(Empty, tps, pc))
  {
    if |tps| > 0 {
      var o0, otr := Then(Empty, Glue("<")), Then(tr, Glue("<"));
      TypeParameterPiecesIndependent(otr, tps, |tps|, pc);
      TypeParameterPiecesIndependent(o0, tps, |tps|, pc);
      Compose(tr, o0, otr, EmitTypeParameterPieces(Empty, tps, |tps|, pc),
              EmitTypeParameterPieces(otr, tps, |tps|, pc), EmitTypeParameterPieces(o0, tps, |tps|, pc));
    }
  }

  // ---------------------------------------------------------------------
  // Expressions

  lemma ExprIndependent(tr: Trace, e: Expr, pc: bool)
    ensures EmitExpr(tr, e, pc) == Append(tr, EmitExpr(Empty, e, pc))
    decreases e, 1
  {
    var c0, ctr := EmitOptComment(Empty, e.comment, pc), EmitOptComment(tr, e.comment, pc);
    OptCommentIndependent(tr, e.comment, pc);
    match e
    case NameExpr(_, _, _, _) => NameExprIndependent(tr, e, pc);
    case QualifiedNameExpr(_, _, _, _, _) => QualifiedNameExprIndependent(tr, e, pc);
    case IntegerLiteralExpr(_, _, _) =>
    case CharLiteralExpr(_, literal, p) => ThreeCallsAfter(tr, c0, At("'", p), At(literal, p), At("'", p));
    case StringLiteralExpr(_, literal, p) => ThreeCallsAfter(tr, c0, At("\"", p), At(literal, p), At("\"", p));
    case BooleanLiteralExpr(_, _, _) =>
    case NullLiteralExpr(_, _) =>
    case ThisExpr(_, _, _) => ThisExprIndependent(tr, e, pc);
    case FieldAccessExpr(_, _, _, _) => FieldAccessExprIndependent(tr, e, pc);
    case MethodCallExpr(_, _, _, _, _, _) => MethodCallExprIndependent(tr, e, pc);
    case AssignExpr(_, _, _, _, _) => AssignExprIndependent(tr, e, pc);
    case BinaryExpr(_, _, _, _, _) => BinaryExprIndependent(tr, e, pc);
    case UnaryExpr(_, _, _, _) => UnaryExprIndependent(tr, e, pc);
    case EnclosedExpr(_, _, _) => EnclosedExprIndependent(tr, e, pc);
  }

  lemma NameExprIndependent(tr: Trace, e: Expr, pc: bool)
    requires e.NameExpr?
    ensures EmitExpr(tr, e, pc) == Append(tr, EmitExpr(Empty, e, pc))
  {
    var c0, ctr := EmitOptComment(Empty, e.comment, pc), EmitOptComment(tr, e.comment, pc);
    OptCommentIndependent(tr, e.comment, pc);
    var n0, ntr := Then(c0, At(e.name, e.pos)), Then(ctr, At(e.name, e.pos));
    OrphansEndingIndependent(ntr, e.children, pc);
    OrphansEndingIndependent(n0, e.children, pc);
    Compose(tr, n0, ntr, EmitOrphansEnding(Empty, e.children, pc), EmitOrphansEnding(ntr, e.children, pc),
            EmitOrphansEnding(n0, e.children, pc));
  }

  /** Visiting a sub-expression after a context-independent step. */
  lemma ExprAfter(tr: Trace, f0: Trace, ftr: Trace, e: Expr, pc: bool)
    requires ftr == Append(tr, f0)
    ensures EmitExpr(ftr, e, pc) == Append(tr, EmitExpr(f0, e, pc))
    decreases e, 2
  {
    ExprIndependent(ftr, e, pc);
    ExprIndependent(f0, e, pc);
    Compose(tr, f0, ftr, EmitExpr(Empty, e, pc), EmitExpr(ftr, e, pc), EmitExpr(f0, e, pc));
  }

  lemma QualifiedNameExprIndependent(tr: Trace, e: Expr, pc: bool)
    requires e.QualifiedNameExpr?
    ensures EmitQualifiedNameExpr(tr, e, pc) == Append(tr, EmitQualifiedNameExpr(Empty, e, pc))
    decreases e, 0
  {
    var c0, ctr := EmitOptComment(Empty, e.comment, pc), EmitOptComment(tr, e.comment, pc);
    OptCommentIndependent(tr, e.comment, pc);
    var q0 := EmitExpr(c0, e.qualifier, pc);
    ExprAfter(tr, c0, ctr, e.qualifier, pc);
    TwoCallsAfter(tr, q0, At(".", e.pos), At(e.name, e.pos));
    var n0 := Then(Then(q0, At(".", e.pos)), At(e.name, e.pos));
    var ntr := Then(Then(EmitExpr(ctr, e.qualifier, pc), At(".", e.pos)), At(e.name, e.pos));
    OrphansEndingIndependent(ntr, e.children, pc);
    OrphansEndingIndependent(n0, e.children, pc);
    Compose(tr, n0, ntr, EmitOrphansEnding(Empty, e.children, pc), EmitOrphansEnding(ntr, e.children, pc),
            EmitOrphansEnding(n0, e.children, pc));
  }

  lemma ThisExprIndependent(tr: Trace, e: Expr, pc: bool)
    requires e.ThisExpr?
    ensures EmitThisExpr(tr, e, pc) == Append(tr, EmitThisExpr(Empty, e, pc))
    decreases e, 0
  {
    var c0, ctr := EmitOptComment(Empty, e.comment, pc), EmitOptComment(tr, e.comment, pc);
    OptCommentIndependent(tr, e.comment, pc);
    if e.classExpr.Some? {
      ExprAfter(tr, c0, ctr, e.classExpr.value, pc);
      TwoCallsAfter(tr, EmitExpr(c0, e.classExpr.value, pc), At(".", e.pos), At("this", e.pos));
    }
  }

  lemma FieldAccessExprIndependent(tr: Trace, e: Expr, pc: bool)
    requires e.FieldAccessExpr?
    ensures EmitFieldAccessExpr(tr, e, pc) == Append(tr, EmitFieldAccessExpr(Empty, e, pc))
    decreases e, 0
  {
    var c0, ctr := EmitOptComment(Empty, e.comment, pc), EmitOptComment(tr, e.comment, pc);
    OptCommentIndependent(tr, e.comment, pc);
    ExprAfter(tr, c0, ctr, e.scope, pc);
    TwoCallsAfter(tr, EmitExpr(c0, e.scope, pc), At(".", e.pos), At(e.field, e.pos));
  }

  lemma MethodCallExprIndependent(tr: Trace, e: Expr, pc: bool)
    requires e.MethodCallExpr?
    ensures EmitMethodCallExpr(tr, e, pc) == Append(tr, EmitMethodCallExpr(Empty, e, pc))
    decreases e, 0
  {
    var c0, ctr := EmitOptComment(Empty, e.comment, pc), EmitOptComment(tr, e.comment, pc);
    OptCommentIndependent(tr, e.comment, pc);
    var s0 := if e.callScope.Some? then Then(EmitExpr(c0, e.callScope.value, pc), At(".", e.pos)) else c0;
    var str := if e.callScope.Some? then Then(EmitExpr(ctr, e.callScope.value, pc), At(".", e.pos)) else ctr;
    if e.callScope.Some? {
      ExprAfter(tr, c0, ctr, e.callScope.value, pc);
    }
    assert str == Append(tr, s0);
    var a0, atr := EmitTypeArgs(s0, e.callTypeArgs, pc), EmitTypeArgs(str, e.callTypeArgs, pc);
    TypeArgsIndependent(str, e.callTypeArgs, pc);
    TypeArgsIndependent(s0, e.callTypeArgs, pc);
    Compose(tr, s0, str, EmitTypeArgs(Empty, e.callTypeArgs, pc), atr, a0);
    var n0, ntr := Then(a0, At(e.name, e.pos)), Then(atr, At(e.name, e.pos));
    ArgumentsIndependent(ntr, e.args, pc);
    ArgumentsIndependent(n0, e.args, pc);
    Compose(tr, n0, ntr, EmitArguments(Empty, e.args, pc), EmitArguments(ntr, e.args, pc),
            EmitArguments(n0, e.args, pc));
  }

  lemma AssignExprIndependent(tr: Trace, e: Expr, pc: bool)
    requires e.AssignExpr?
    ensures EmitAssignExpr(tr, e, pc) == Append(tr, EmitAssignExpr(Empty, e, pc))
    decreases e, 0
  {
    var c0, ctr := EmitOptComment(Empty, e.comment, pc), EmitOptComment(tr, e.comment, pc);
    OptCommentIndependent(tr, e.comment, pc);
    var l0, ltr := EmitExpr(c0, e.target, pc), EmitExpr(ctr, e.target, pc);
    ExprAfter(tr, c0, ctr, e.target, pc);
    var a, b := At(" ", e.pos), At(AssignOpText(e.assignOp), e.pos);
    ThreeCallsAfter(tr, l0, a, b, a);
    ExprAfter(tr, Then(Then(Then(l0, a), b), a), Then(Then(Then(ltr, a), b), a), e.value, pc);
  }

  lemma BinaryExprIndependent(tr: Trace, e: Expr, pc: bool)
    requires e.BinaryExpr?
    ensures EmitBinaryExpr(tr, e, pc) == Append(tr, EmitBinaryExpr(Empty, e, pc))
    decreases e, 0
  {
    var c0, ctr := EmitOptComment(Empty, e.comment, pc), EmitOptComment(tr, e.comment, pc);
    OptCommentIndependent(tr, e.comment, pc);
    var l0, ltr := EmitExpr(c0, e.left, pc), EmitExpr(ctr, e.left, pc);
    ExprAfter(tr, c0, ctr, e.left, pc);
    var a, b := At(" ", e.pos), At(BinaryOpText(e.binaryOp), e.pos);
    ThreeCallsAfter(tr, l0, a, b, a);
    ExprAfter(tr, Then(Then(Then(l0, a), b), a), Then(Then(Then(ltr, a), b), a), e.right, pc);
  }

  lemma UnaryExprIndependent(tr: Trace, e: Expr, pc: bool)
    requires e.UnaryExpr?
    ensures EmitUnaryExpr(tr, e, pc) == Append(tr, EmitUnaryExpr(Empty, e, pc))
    decreases e, 0
  {
    var c0, ctr := EmitOptComment(Empty, e.comment, pc), EmitOptComment(tr, e.comment, pc);
    OptCommentIndependent(tr, e.comment, pc);
    var p0 := EmitOptional(c0, UnaryPrefixText(e.unaryOp), e.pos);
    var ptr := EmitOptional(ctr, UnaryPrefixText(e.unaryOp), e.pos);
    assert ptr == Append(tr, p0);
    ExprAfter(tr, p0, ptr, e.operand, pc);
  }

  lemma EnclosedExprIndependent(tr: Trace, e: Expr, pc: bool)
    requires e.EnclosedExpr?
    ensures EmitEnclosedExpr(tr, e, pc) == Append(tr, EmitEnclosedExpr(Empty, e, pc))
    decreases e, 0
  {
    var c0, ctr := EmitOptComment(Empty, e.comment, pc), EmitOptComment(tr, e.comment, pc);
    OptCommentIndependent(tr, e.comment, pc);
    var o0, otr := Then(c0, At("(", e.pos)), Then(ctr, At("(", e.pos));
    if e.inner.Some? {
      ExprAfter(tr, o0, otr, e.inner.value, pc);
    }
  }

  lemma ArgumentsIndependent(tr: Trace, args: seq<Expr>, pc: bool)
    ensures EmitArguments(tr, args, pc) == Append(tr, EmitArguments(Empty, args, pc))
    decreases args, 1
  {
    var o0, otr := Then(Empty, Glue("(")), Then(tr, Glue("("));
    ArgumentPiecesIndependent(otr, args, |args|, pc);
    ArgumentPiecesIndependent(o0, args, |args|, pc);
    Compose(tr, o0, otr, EmitArgumentPieces(Empty, args, |args|, pc), EmitArgumentPieces(otr, args, |args|, pc),
            EmitArgumentPieces(o0, args, |args|, pc));
  }

  lemma {:induction false} ArgumentPiecesIndependent(tr: Trace, args: seq<Expr>, i: nat, pc: bool)
    requires i <= |args|
    ensures EmitArgumentPieces(tr, args, i, pc) == Append(tr, EmitArgumentPieces(Empty, args, i, pc))
    decreases args, 0, i
  {
    if i > 0 {
      ArgumentPiecesIndependent(tr, args, i - 1, pc);
      ExprAfter(tr, EmitArgumentPieces(Empty, args, i - 1, pc), EmitArgumentPieces(tr, args, i - 1, pc),
                args[i - 1], pc);
    }
  }

  lemma {:induction false} ExprListIndependent(tr: Trace, es: seq<Expr>, i: nat, sep: Token, pc: bool)
    requires i <= |es|
    ensures EmitExprList(tr, es, i, sep, pc) == Append(tr, EmitExprList(Empty, es, i, sep, pc))
    decreases i
  {
    if i > 0 {
      ExprListIndependent(tr, es, i - 1, sep, pc);
      ExprAfter(tr, EmitExprList(Empty, es, i - 1, sep, pc), EmitExprList(tr, es, i - 1, sep, pc), es[i - 1], pc);
    }
  }

  // ---------------------------------------------------------------------
  // Statements

  lemma StmtIndependent(tr: Trace, s: Stmt, pc: bool)
    ensures EmitStmt(tr, s, pc) == Append(tr, EmitStmt(Empty, s, pc))
    decreases s, 1
  {
    match s
    case BlockStmt(_, _, _, _, _) => BlockStmtIndependent(tr, s, pc);
    case ExpressionStmt(c, expr, p, id, siblings) =>
      var o0, otr := EmitOrphansBefore(Empty, id, siblings, pc), EmitOrphansBefore(tr, id, siblings, pc);
      OrphansBeforeIndependent(tr, id, siblings, pc);
      var c0, ctr := EmitOptComment(o0, c, pc), EmitOptComment(otr, c, pc);
      OptCommentIndependent(otr, c, pc);
      OptCommentIndependent(o0, c, pc);
      Compose(tr, o0, otr, EmitOptComment(Empty, c, pc), ctr, c0);
      ExprAfter(tr, c0, ctr, expr, pc);
    case ReturnStmt(c, result, p) =>
      var c0, ctr := EmitOptComment(Empty, c, pc), EmitOptComment(tr, c, pc);
      OptCommentIndependent(tr, c, pc);
      var r0, rtr := Then(c0, At("return", p)), Then(ctr, At("return", p));
      if result.Some? {
        ExprAfter(tr, Then(r0, At(" ", p)), Then(rtr, At(" ", p)), result.value, pc);
      }
    case IfStmt(_, _, _, _, _) => IfStmtIndependent(tr, s, pc);
  }

  /** Visiting a sub-statement after a context-independent step. */
  lemma StmtAfter(tr: Trace, f0: Trace, ftr: Trace, s: Stmt, pc: bool)
    requires ftr == Append(tr, f0)
    ensures EmitStmt(ftr, s, pc) == Append(tr, EmitStmt(f0, s, pc))
    decreases s, 2
  {
    StmtIndependent(ftr, s, pc);
    StmtIndependent(f0, s, pc);
    Compose(tr, f0, ftr, EmitStmt(Empty, s, pc), EmitStmt(ftr, s, pc), EmitStmt(f0, s, pc));
  }

  lemma BlockStmtIndependent(tr: Trace, s: Stmt, pc: bool)
    requires s.BlockStmt?
    ensures EmitBlockStmt(tr, s, pc) == Append(tr, EmitBlockStmt(Empty, s, pc))
    decreases s, 0
  {
    var o0, otr := EmitOrphansBefore(Empty, s.id, s.siblings, pc), EmitOrphansBefore(tr, s.id, s.siblings, pc);
    OrphansBeforeIndependent(tr, s.id, s.siblings, pc);
    var c0, ctr := EmitOptComment(o0, s.comment, pc), EmitOptComment(otr, s.comment, pc);
    OptCommentIndependent(otr, s.comment, pc);
    OptCommentIndependent(o0, s.comment, pc);
    Compose(tr, o0, otr, EmitOptComment(Empty, s.comment, pc), ctr, c0);
    var b0, btr := Then(c0, At("{", s.pos)), Then(ctr, At("{", s.pos));
    StmtsAfter(tr, b0, btr, s.stmts, |s.stmts|, pc);
  }

  /** The statements of a block after a context-independent step. */
  lemma {:induction false} StmtsAfter(tr: Trace, f0: Trace, ftr: Trace, ss: seq<Stmt>, i: nat, pc: bool)
    requires ftr == Append(tr, f0)
    requires i <= |ss|
    ensures EmitStmts(ftr, ss, i, pc) == Append(tr, EmitStmts(f0, ss, i, pc))
    decreases ss, 0, i
  {
    if i > 0 {
      StmtsAfter(tr, f0, ftr, ss, i - 1, pc);
      StmtAfter(tr, EmitStmts(f0, ss, i - 1, pc), EmitStmts(ftr, ss, i - 1, pc), ss[i - 1], pc);
    }
  }

  lemma IfStmtIndependent(tr: Trace, s: Stmt, pc: bool)
    requires s.IfStmt?
    ensures EmitIfStmt(tr, s, pc) == Append(tr, EmitIfStmt(Empty, s, pc))
    decreases s, 0
  {
    var thenBlock := s.thenStmt.BlockStmt?;
    var c0, ctr := EmitOptComment(Empty, s.comment, pc), EmitOptComment(tr, s.comment, pc);
    OptCommentIndependent(tr, s.comment, pc);
    var i0, itr := Then(c0, At("if (", s.pos)), Then(ctr, At("if (", s.pos));
    ExprAfter(tr, i0, itr, s.condition, pc);
    var close := At(if thenBlock then ") " else ")", s.pos);
    var t1, t1tr := EmitExpr(i0, s.condition, pc), EmitExpr(itr, s.condition, pc);
    StmtAfter(tr, Then(t1, close), Then(t1tr, close), s.thenStmt, pc);
    if !thenBlock && s.elseStmt.Some? {
      var kw := At(ElseKeyword(s.elseStmt.value), s.pos);
      var t2, t2tr := EmitStmt(Then(t1, close), s.thenStmt, pc), EmitStmt(Then(t1tr, close), s.thenStmt, pc);
      StmtAfter(tr, Then(t2, kw), Then(t2tr, kw), s.elseStmt.value, pc);
    }
  }
}
