/**
 * The dump visitor: one method per node kind, each sending its node's text to
 * the source printer through `print` calls in the source's order. Every visit
 * method is proved to make exactly the calls its emission function lists: the
 * printer's trace after a visit is the emission function of the old trace.
 */
module Visitor {
  import opened Wrappers
  import opened Ast
  import opened Printer
  import opened Emission
  import opened Orphans

  class DumpVisitor {
    const printComments: bool
    const printer: SourcePrinter

    constructor Default()
      ensures printComments && fresh(printer)
      ensures printer.Valid() && printer.trace == Empty
    {
      printComments := true;
      printer := new SourcePrinter();
    }

    constructor (printComments: bool)
      ensures this.printComments == printComments && fresh(printer)
      ensures printer.Valid() && printer.trace == Empty
    {
      this.printComments := printComments;
      printer := new SourcePrinter();
    }

    /** The text printed so far: what the recorded calls produce from a fresh printer. */
    method GetSource() returns (s: string)
      requires printer.Valid()
      ensures s == Run(Initial, printer.trace).buf
    {
      s := printer.GetSource();
    }

    /** `if (b) printer.print(s, line, col)`. */
    method PrintWhen(b: bool, s: string, line: int, col: int)
      requires printer.Valid()
      modifies printer
      ensures printer.Valid() && printer.trace == EmitWhen(old(printer.trace), b, At(s, Pos(line, col)))
    {
      if b {
        printer.Print(s, line, col);
      }
    }

    method PrintModifiers(modifiers: Modifiers, line: int, col: int)
      requires printer.Valid()
      modifies printer
      ensures printer.Valid() && printer.trace == EmitModifiers(old(printer.trace), modifiers, Pos(line, col))
    {
      PrintWhen(modifiers.isPrivate, "private ", line, col);
      PrintWhen(modifiers.isProtected, "protected ", line, col);
      PrintWhen(modifiers.isPublic, "public ", line, col);
      PrintWhen(modifiers.isAbstract, "abstract ", line, col);
      PrintWhen(modifiers.isStatic, "static ", line, col);
      PrintWhen(modifiers.isFinal, "final ", line, col);
      PrintWhen(modifiers.isNative, "native ", line, col);
      PrintWhen(modifiers.isStrictfp, "strictfp ", line, col);
      PrintWhen(modifiers.isSynchronized, "synchronized ", line, col);
      PrintWhen(modifiers.isTransient, "transient ", line, col);
      PrintWhen(modifiers.isVolatile, "volatile ", line, col);
    }

    /** The `for (int i = 0; i < arrayCount; i++)` loops printing "[]". */
    method PrintBrackets(n: nat, p: Pos)
      requires printer.Valid()
      modifies printer
      ensures printer.Valid() && printer.trace == EmitBrackets(old(printer.trace), n, p)
    {
      for i := 0 to n
        invariant printer.Valid() && printer.trace == EmitBrackets(old(printer.trace), i, p)
      {
        printer.Print("[]", p.line, p.col);
      }
    }

    // -------------------------------------------------------------------
    // Comments

    method VisitLineComment(n: Comment)
      requires n.LineComment?
      requires printer.Valid()
      modifies printer
      ensures printer.Valid() && printer.trace == EmitComment(old(printer.trace), n, printComments)
    {
      if !printComments {
        return;
      }
      printer.Print("//", n.pos.line, n.pos.col);
      var tmp := n.content;
      tmp := Replace(tmp, '\r', ' ');
      tmp := Replace(tmp, '\n', ' ');
      printer.Print(tmp, n.pos.line, n.pos.col);
    }

    method VisitBlockComment(n: Comment)
      requires n.BlockComment?
      requires printer.Valid()
      modifies printer
      ensures printer.Valid() && printer.trace == EmitComment(old(printer.trace), n, printComments)
    {
      if !printComments {
        return;
      }
      printer.Print("/*", n.pos.line, n.pos.col);
      printer.Print(n.content, n.pos.line, n.pos.col);
      printer.Print("*/", n.pos.line, n.pos.col);
    }

    method VisitJavadocComment(n: Comment)
      requires n.JavadocComment?
      requires printer.Valid()
      modifies printer
      ensures printer.Valid() && printer.trace == EmitComment(old(printer.trace), n, printComments)
    {
      printer.Print("/**", n.pos.line, n.pos.col);
      printer.Print(n.content, n.pos.line, n.pos.col);
      printer.Print("*/", n.pos.line, n.pos.col);
    }

    /** `accept` on a comment node. */
    method VisitComment(n: Comment)
      requires printer.Valid()
      modifies printer
      ensures printer.Valid() && printer.trace == EmitComment(old(printer.trace), n, printComments)
    {
      match n
      case LineComment(_, _) => VisitLineComment(n);
      case BlockComment(_, _) => VisitBlockComment(n);
      case JavadocComment(_, _) => VisitJavadocComment(n);
    }

    method PrintJavaComment(javacomment: Option<Comment>)
      requires printer.Valid()
      modifies printer
      ensures printer.Valid() && printer.trace == EmitOptComment(old(printer.trace), javacomment, printComments)
    {
      if javacomment.Some? {
        VisitComment(javacomment.value);
      }
    }

    method PrintJavadoc(javadoc: Option<Javadoc>)
      requires printer.Valid()
      modifies printer
      ensures printer.Valid() && printer.trace == EmitOptComment(old(printer.trace), javadoc, printComments)
    {
      if javadoc.Some? {
        VisitJavadocComment(javadoc.value);
      }
    }

    /** Visits `everything[from..to]`, all of which are the comments `cs`. */
    method PrintCommentRun(everything: seq<Child>, from: nat, to: nat, ghost cs: seq<Comment>)
      requires from <= to <= |everything| && |cs| == to - from
      requires forall j :: 0 <= j < |cs| ==> everything[from + j] == CommentChild(cs[j])
      requires printer.Valid()
      modifies printer
      ensures printer.Valid() && printer.trace == EmitComments(old(printer.trace), cs, |cs|, printComments)
    {
      for i := from to to
        invariant printer.Valid()
        invariant printer.trace == EmitComments(old(printer.trace), cs, i - from, printComments)
      {
        var nodeToPrint := everything[i];
        assert nodeToPrint == CommentChild(cs[i - from]);
        VisitComment(nodeToPrint.comment);
      }
    }

    /**
     * `printOrphanCommentsBeforeThisChildNode`: prints the comments between the
     * previous non-comment sibling and this node. `found` is false exactly
     * where the source throws "My index not found"; nothing is printed then.
     */
    method PrintOrphanCommentsBeforeThisChildNode(id: nat, siblings: Option<seq<Child>>)
      returns (found: bool)
      requires printer.Valid()
      modifies printer
      ensures found <==> InParent(id, siblings)
      ensures printer.Valid()
      ensures found ==> printer.trace == EmitOrphansBefore(old(printer.trace), id, siblings, printComments)
      ensures !found ==> printer.trace == old(printer.trace)
    {
      if siblings.None? {
        return true;
      }
      var everything := siblings.value;
      var positionOfTheChild := IndexOfChild(everything, id);
      if positionOfTheChild == -1 {
        return false;
      }
      var positionOfPreviousChild := PreviousNonComment(everything, positionOfTheChild);
      ghost var cs := TrailingComments(everything[..positionOfTheChild]);
      TrailingCommentsShape(everything[..positionOfTheChild]);
      PrintCommentRun(everything, positionOfPreviousChild + 1, positionOfTheChild, cs);
      found := true;
    }

    /**
     * The call-site form of `printOrphanCommentsBeforeThisChildNode`, as the
     * statement and declaration visits use it: the parent link is well formed,
     * so the node is always found and the `found` result carries nothing.
     */
    method PrintOrphansBefore(id: nat, siblings: Option<seq<Child>>)
      requires InParent(id, siblings)
      requires printer.Valid()
      modifies printer
      ensures printer.Valid() && printer.trace == EmitOrphansBefore(old(printer.trace), id, siblings, printComments)
    {
      var found := PrintOrphanCommentsBeforeThisChildNode(id, siblings);
    }

    /** `printOrphanCommentsEnding`: prints the comments at the end of the child list. */
    method PrintOrphanCommentsEnding(everything: seq<Child>)
      requires printer.Valid()
      modifies printer
      ensures printer.Valid() && printer.trace == EmitOrphansEnding(old(printer.trace), everything, printComments)
    {
      if |everything| == 0 {
        return;
      }
      var commentsAtEnd := CountCommentsAtEnd(everything);
      ghost var cs := TrailingComments(everything);
      TrailingCommentsShape(everything);
      PrintCommentRun(everything, |everything| - commentsAtEnd, |everything|, cs);
    }

    // -------------------------------------------------------------------
    // Types

    method VisitType(t: Type)
      requires printer.Valid()
      modifies printer
      ensures printer.Valid() && printer.trace == EmitType(old(printer.trace), t, printComments)
      decreases t, 1
    {
      match t
      case PrimitiveType(_, _, _) => VisitPrimitiveType(t);
      case ClassOrInterfaceType(_, _, _, _, _) => VisitClassOrInterfaceType(t);
      case ReferenceType(_, _, _, _) => VisitReferenceType(t);
      case VoidType(_, _) => VisitVoidType(t);
    }

    /** The switch over the eight primitive kinds prints the kind's keyword. */
    method VisitPrimitiveType(t: Type)
      requires t.PrimitiveType?
      requires printer.Valid()
      modifies printer
      ensures printer.Valid() && printer.trace == EmitType(old(printer.trace), t, printComments)
      decreases t, 0
    {
      PrintJavaComment(t.comment);
      printer.Print(PrimitiveKeyword(t.kind), t.pos.line, t.pos.col);
    }

    method VisitClassOrInterfaceType(t: Type)
      requires t.ClassOrInterfaceType?
      requires printer.Valid()
      modifies printer
      ensures printer.Valid() && printer.trace == EmitClassOrInterfaceType(old(printer.trace), t, printComments)
      decreases t, 0
    {
      PrintJavaComment(t.comment);
      if t.scope.Some? {
        VisitType(t.scope.value);
        printer.Print(".", t.pos.line, t.pos.col);
      }
      printer.Print(t.name, t.pos.line, t.pos.col);
      PrintTypeArgs(t.typeArgs);
    }

    method VisitReferenceType(t: Type)
      requires t.ReferenceType?
      requires printer.Valid()
      modifies printer
      ensures printer.Valid() && printer.trace == EmitReferenceType(old(printer.trace), t, printComments)
      decreases t, 0
    {
      PrintJavaComment(t.comment);
      VisitType(t.elementType);
      PrintBrackets(t.arrayCount, t.pos);
    }

    method VisitVoidType(t: Type)
      requires t.VoidType?
      requires printer.Valid()
      modifies printer
      ensures printer.Valid() && printer.trace == EmitType(old(printer.trace), t, printComments)
      decreases t, 0
    {
      PrintJavaComment(t.comment);
      printer.Print("void", t.pos.line, t.pos.col);
    }

    method PrintTypeArgs(args: seq<Type>)
      requires printer.Valid()
      modifies printer
      ensures printer.Valid() && printer.trace == EmitTypeArgs(old(printer.trace), args, printComments)
      decreases args, 1
    {
      if |args| > 0 {
        printer.Print("<", 0, 0);
        ghost var t0 := printer.trace;
        for i := 0 to |args|
          invariant printer.Valid() && printer.trace == EmitTypeArgPieces(t0, args, i, printComments)
        {
          var t := args[i];
          VisitType(t);
          if i + 1 < |args| {
            printer.Print(", ", t.pos.line, t.pos.col);
          }
        }
        printer.Print(">", 0, 0);
      }
    }

    /** The loops over `extends`, `implements` and bound lists: one separator, at one position. */
    method PrintTypeList(ts: seq<Type>, sep: string, p: Pos)
      requires printer.Valid()
      modifies printer
      ensures printer.Valid() && printer.trace == EmitTypeList(old(printer.trace), ts, |ts|, At(sep, p), printComments)
    {
      for i := 0 to |ts|
        invariant printer.Valid() && printer.trace == EmitTypeList(old(printer.trace), ts, i, At(sep, p), printComments)
      {
        VisitType(ts[i]);
        if i + 1 < |ts| {
          printer.Print(sep, p.line, p.col);
        }
      }
    }

    method VisitTypeParameter(tp: TypeParameter)
      requires printer.Valid()
      modifies printer
      ensures printer.Valid() && printer.trace == EmitTypeParameter(old(printer.trace), tp, printComments)
    {
      PrintJavaComment(tp.comment);
      printer.Print(tp.name, tp.pos.line, tp.pos.col);
      if tp.typeBound.Some? {
        printer.Print(" extends ", tp.pos.line, tp.pos.col);
        PrintTypeList(tp.typeBound.value, " & ", tp.pos);
      }
    }

    method PrintTypeParameters(args: seq<TypeParameter>)
      requires printer.Valid()
      modifies printer
      ensures printer.Valid() && printer.trace == EmitTypeParameters(old(printer.trace), args, printComments)
    {
      if |args| > 0 {
        printer.Print("<", 0, 0);
        ghost var t0 := printer.trace;
        for i := 0 to |args|
          invariant printer.Valid() && printer.trace == EmitTypeParameterPieces(t0, args, i, printComments)
        {
          var t := args[i];
          VisitTypeParameter(t);
          if i + 1 < |args| {
            printer.Print(", ", t.pos.line, t.pos.col);
          }
        }
        printer.Print(">", 0, 0);
      }
    }

    // -------------------------------------------------------------------
    // Expressions

    method VisitExpr(e: Expr)
      requires printer.Valid()
      modifies printer
      ensures printer.Valid() && printer.trace == EmitExpr(old(printer.trace), e, printComments)
      decreases e, 1
    {
      match e
      case NameExpr(_, _, _, _) => VisitNameExpr(e);
      case QualifiedNameExpr(_, _, _, _, _) => VisitQualifiedNameExpr(e);
      case IntegerLiteralExpr(_, _, _) => VisitIntegerLiteralExpr(e);
      case CharLiteralExpr(_, _, _) => VisitCharLiteralExpr(e);
      case StringLiteralExpr(_, _, _) => VisitStringLiteralExpr(e);
      case BooleanLiteralExpr(_, _, _) => VisitBooleanLiteralExpr(e);
      case NullLiteralExpr(_, _) => VisitNullLiteralExpr(e);
      case ThisExpr(_, _, _) => VisitThisExpr(e);
      case FieldAccessExpr(_, _, _, _) => VisitFieldAccessExpr(e);
      case MethodCallExpr(_, _, _, _, _, _) => VisitMethodCallExpr(e);
      case AssignExpr(_, _, _, _, _) => VisitAssignExpr(e);
      case BinaryExpr(_, _, _, _, _) => VisitBinaryExpr(e);
      case UnaryExpr(_, _, _, _) => VisitUnaryExpr(e);
      case EnclosedExpr(_, _, _) => VisitEnclosedExpr(e);
    }

    method VisitNameExpr(e: Expr)
      requires e.NameExpr?
      requires printer.Valid()
      modifies printer
      ensures printer.Valid() && printer.trace == EmitExpr(old(printer.trace), e, printComments)
      decreases e, 0
    {
      PrintJavaComment(e.comment);
      printer.Print(e.name, e.pos.line, e.pos.col);
      PrintOrphanCommentsEnding(e.children);
    }

    method VisitQualifiedNameExpr(e: Expr)
      requires e.QualifiedNameExpr?
      requires printer.Valid()
      modifies printer
      ensures printer.Valid() && printer.trace == EmitQualifiedNameExpr(old(printer.trace), e, printComments)
      decreases e, 0
    {
      PrintJavaComment(e.comment);
      VisitExpr(e.qualifier);
      printer.Print(".", e.pos.line, e.pos.col);
      printer.Print(e.name, e.pos.line, e.pos.col);
      PrintOrphanCommentsEnding(e.children);
    }

    method VisitIntegerLiteralExpr(e: Expr)
      requires e.IntegerLiteralExpr?
      requires printer.Valid()
      modifies printer
      ensures printer.Valid() && printer.trace == EmitExpr(old(printer.trace), e, printComments)
      decreases e, 0
    {
      PrintJavaComment(e.comment);
      printer.Print(e.literal, e.pos.line, e.pos.col);
    }

    method VisitCharLiteralExpr(e: Expr)
      requires e.CharLiteralExpr?
      requires printer.Valid()
      modifies printer
      ensures printer.Valid() && printer.trace == EmitExpr(old(printer.trace), e, printComments)
      decreases e, 0
    {
      PrintJavaComment(e.comment);
      printer.Print("'", e.pos.line, e.pos.col);
      printer.Print(e.literal, e.pos.line, e.pos.col);
      printer.Print("'", e.pos.line, e.pos.col);
    }

    method VisitStringLiteralExpr(e: Expr)
      requires e.StringLiteralExpr?
      requires printer.Valid()
      modifies printer
      ensures printer.Valid() && printer.trace == EmitExpr(old(printer.trace), e, printComments)
      decreases e, 0
    {
      PrintJavaComment(e.comment);
      printer.Print("\"", e.pos.line, e.pos.col);
      printer.Print(e.literal, e.pos.line, e.pos.col);
      printer.Print("\"", e.pos.line, e.pos.col);
    }

    /** `String.valueOf` of the literal's value. */
    method VisitBooleanLiteralExpr(e: Expr)
      requires e.BooleanLiteralExpr?
      requires printer.Valid()
      modifies printer
      ensures printer.Valid() && printer.trace == EmitExpr(old(printer.trace), e, printComments)
      decreases e, 0
    {
      PrintJavaComment(e.comment);
      printer.Print(if e.truth then "true" else "false", e.pos.line, e.pos.col);
    }

    method VisitNullLiteralExpr(e: Expr)
      requires e.NullLiteralExpr?
      requires printer.Valid()
      modifies printer
      ensures printer.Valid() && printer.trace == EmitExpr(old(printer.trace), e, printComments)
      decreases e, 0
    {
      PrintJavaComment(e.comment);
      printer.Print("null", e.pos.line, e.pos.col);
    }

    method VisitThisExpr(e: Expr)
      requires e.ThisExpr?
      requires printer.Valid()
      modifies printer
      ensures printer.Valid() && printer.trace == EmitThisExpr(old(printer.trace), e, printComments)
      decreases e, 0
    {
      PrintJavaComment(e.comment);
      if e.classExpr.Some? {
        VisitExpr(e.classExpr.value);
        printer.Print(".", e.pos.line, e.pos.col);
      }
      printer.Print("this", e.pos.line, e.pos.col);
    }

    method VisitFieldAccessExpr(e: Expr)
      requires e.FieldAccessExpr?
      requires printer.Valid()
      modifies printer
      ensures printer.Valid() && printer.trace == EmitFieldAccessExpr(old(printer.trace), e, printComments)
      decreases e, 0
    {
      PrintJavaComment(e.comment);
      VisitExpr(e.scope);
      printer.Print(".", e.pos.line, e.pos.col);
      printer.Print(e.field, e.pos.line, e.pos.col);
    }

    method VisitMethodCallExpr(e: Expr)
      requires e.MethodCallExpr?
      requires printer.Valid()
      modifies printer
      ensures printer.Valid() && printer.trace == EmitMethodCallExpr(old(printer.trace), e, printComments)
      decreases e, 0
    {
      PrintJavaComment(e.comment);
      if e.callScope.Some? {
        VisitExpr(e.callScope.value);
        printer.Print(".", e.pos.line, e.pos.col);
      }
      PrintTypeArgs(e.callTypeArgs);
      printer.Print(e.name, e.pos.line, e.pos.col);
      PrintArguments(e.args);
    }

    /** The switch over the twelve assignment operators prints the operator's text. */
    method VisitAssignExpr(e: Expr)
      requires e.AssignExpr?
      requires printer.Valid()
      modifies printer
      ensures printer.Valid() && printer.trace == EmitAssignExpr(old(printer.trace), e, printComments)
      decreases e, 0
    {
      PrintJavaComment(e.comment);
      VisitExpr(e.target);
      printer.Print(" ", e.pos.line, e.pos.col);
      printer.Print(AssignOpText(e.assignOp), e.pos.line, e.pos.col);
      printer.Print(" ", e.pos.line, e.pos.col);
      VisitExpr(e.value);
    }

    /** The switch over the nineteen binary operators prints the operator's text. */
    method VisitBinaryExpr(e: Expr)
      requires e.BinaryExpr?
      requires printer.Valid()
      modifies printer
      ensures printer.Valid() && printer.trace == EmitBinaryExpr(old(printer.trace), e, printComments)
      decreases e, 0
    {
      PrintJavaComment(e.comment);
      VisitExpr(e.left);
      printer.Print(" ", e.pos.line, e.pos.col);
      printer.Print(BinaryOpText(e.binaryOp), e.pos.line, e.pos.col);
      printer.Print(" ", e.pos.line, e.pos.col);
      VisitExpr(e.right);
    }

    /** Two switches: the prefix operators before the operand, the postfix ones after. */
    method VisitUnaryExpr(e: Expr)
      requires e.UnaryExpr?
      requires printer.Valid()
      modifies printer
      ensures printer.Valid() && printer.trace == EmitUnaryExpr(old(printer.trace), e, printComments)
      decreases e, 0
    {
      PrintJavaComment(e.comment);
      var prefix := UnaryPrefixText(e.unaryOp);
      if prefix.Some? {
        printer.Print(prefix.value, e.pos.line, e.pos.col);
      }
      VisitExpr(e.operand);
      var postfix := UnaryPostfixText(e.unaryOp);
      if postfix.Some? {
        printer.Print(postfix.value, e.pos.line, e.pos.col);
      }
    }

    method VisitEnclosedExpr(e: Expr)
      requires e.EnclosedExpr?
      requires printer.Valid()
      modifies printer
      ensures printer.Valid() && printer.trace == EmitEnclosedExpr(old(printer.trace), e, printComments)
      decreases e, 0
    {
      PrintJavaComment(e.comment);
      printer.Print("(", e.pos.line, e.pos.col);
      if e.inner.Some? {
        VisitExpr(e.inner.value);
      }
      printer.Print(")", e.pos.line, e.pos.col);
    }

    method PrintArguments(args: seq<Expr>)
      requires printer.Valid()
      modifies printer
      ensures printer.Valid() && printer.trace == EmitArguments(old(printer.trace), args, printComments)
      decreases args, 1
    {
      printer.Print("(", 0, 0);
      ghost var t0 := printer.trace;
      for i := 0 to |args|
        invariant printer.Valid() && printer.trace == EmitArgumentPieces(t0, args, i, printComments)
      {
        var e := args[i];
        VisitExpr(e);
        if i + 1 < |args| {
          printer.Print(", ", e.pos.line, e.pos.col);
        }
      }
      printer.Print(")", 0, 0);
    }

    /** The loop over a `throws` list: one separator, at one position. */
    method PrintExprList(es: seq<Expr>, sep: string, p: Pos)
      requires printer.Valid()
      modifies printer
      ensures printer.Valid() && printer.trace == EmitExprList(old(printer.trace), es, |es|, At(sep, p), printComments)
    {
      for i := 0 to |es|
        invariant printer.Valid() && printer.trace == EmitExprList(old(printer.trace), es, i, At(sep, p), printComments)
      {
        VisitExpr(es[i]);
        if i + 1 < |es| {
          printer.Print(sep, p.line, p.col);
        }
      }
    }

    // -------------------------------------------------------------------
    // Statements

    method VisitStmt(s: Stmt)
      requires LinkedStmt(s)
      requires printer.Valid()
      modifies printer
      ensures printer.Valid() && printer.trace == EmitStmt(old(printer.trace), s, printComments)
      decreases s, 2
    {
      match s
      case BlockStmt(_, _, _, _, _) => VisitBlockStmt(s);
      case ExpressionStmt(_, _, _, _, _) => VisitExpressionStmt(s);
      case ReturnStmt(_, _, _) => VisitReturnStmt(s);
      case IfStmt(_, _, _, _, _) => VisitIfStmt(s);
    }

    method VisitBlockStmt(s: Stmt)
      requires s.BlockStmt? && LinkedStmt(s)
      requires printer.Valid()
      modifies printer
      ensures printer.Valid() && printer.trace == EmitBlockStmt(old(printer.trace), s, printComments)
      decreases s, 1
    {
      PrintOrphansBefore(s.id, s.siblings);
      PrintJavaComment(s.comment);
      printer.Print("{", s.pos.line, s.pos.col);
      PrintStmts(s);
      printer.Print("}", s.pos.line, s.pos.col);
    }

    /** The statement loop of the block visit: every statement, in order. */
    method PrintStmts(s: Stmt)
      requires s.BlockStmt? && LinkedStmt(s)
      requires printer.Valid()
      modifies printer
      ensures printer.Valid() && printer.trace == EmitStmts(old(printer.trace), s.stmts, |s.stmts|, printComments)
      decreases s, 0
    {
      ghost var t0 := printer.trace;
      for i := 0 to |s.stmts|
        invariant printer.Valid() && printer.trace == EmitStmts(t0, s.stmts, i, printComments)
      {
        VisitStmt(s.stmts[i]);
      }
    }

    method VisitExpressionStmt(s: Stmt)
      requires s.ExpressionStmt? && InParent(s.id, s.siblings)
      requires printer.Valid()
      modifies printer
      ensures printer.Valid() && printer.trace == EmitStmt(old(printer.trace), s, printComments)
    {
      PrintOrphansBefore(s.id, s.siblings);
      PrintJavaComment(s.comment);
      VisitExpr(s.expr);
      printer.Print(";", s.pos.line, s.pos.col);
    }

    method VisitReturnStmt(s: Stmt)
      requires s.ReturnStmt?
      requires printer.Valid()
      modifies printer
      ensures printer.Valid() && printer.trace == EmitStmt(old(printer.trace), s, printComments)
    {
      PrintJavaComment(s.comment);
      printer.Print("return", s.pos.line, s.pos.col);
      if s.result.Some? {
        printer.Print(" ", s.pos.line, s.pos.col);
        VisitExpr(s.result.value);
      }
      printer.Print(";", s.pos.line, s.pos.col);
    }

    /**
     * The else branch is visited only under `!thenBlock`, so the test for
     * `thenBlock` inside it, and the blank it would print, are unreachable.
     */
    method VisitIfStmt(s: Stmt)
      requires s.IfStmt? && LinkedStmt(s)
      requires printer.Valid()
      modifies printer
      ensures printer.Valid() && printer.trace == EmitIfStmt(old(printer.trace), s, printComments)
      decreases s, 0
    {
      PrintJavaComment(s.comment);
      printer.Print("if (", s.pos.line, s.pos.col);
      VisitExpr(s.condition);
      var thenBlock := s.thenStmt.BlockStmt?;
      if thenBlock {
        printer.Print(") ", s.pos.line, s.pos.col);
      } else {
        printer.Print(")", s.pos.line, s.pos.col);
      }
      VisitStmt(s.thenStmt);
      if !thenBlock {
        if s.elseStmt.Some? {
          if thenBlock {
            assert false;
          }
          var elseIf := s.elseStmt.value.IfStmt?;
          var elseBlock := s.elseStmt.value.BlockStmt?;
          if elseIf || elseBlock {
            printer.Print("else ", s.pos.line, s.pos.col);
          } else {
            printer.Print("else", s.pos.line, s.pos.col);
          }
          VisitStmt(s.elseStmt.value);
        }
      }
    }

    // -------------------------------------------------------------------
    // Declarations

    method VisitVariableDeclaratorId(v: VariableDeclaratorId)
      requires printer.Valid()
      modifies printer
      ensures printer.Valid() && printer.trace == EmitVariableDeclaratorId(old(printer.trace), v, printComments)
    {
      PrintJavaComment(v.comment);
      printer.Print(v.name, v.pos.line, v.pos.col);
      PrintBrackets(v.arrayCount, v.pos);
    }

    method VisitVariableDeclarator(v: VariableDeclarator)
      requires printer.Valid()
      modifies printer
      ensures printer.Valid() && printer.trace == EmitVariableDeclarator(old(printer.trace), v, printComments)
    {
      PrintJavaComment(v.comment);
      VisitVariableDeclaratorId(v.declId);
      if v.init.Some? {
        printer.Print(" = ", v.pos.line, v.pos.col);
        VisitExpr(v.init.value);
      }
    }

    /** The declarator loop of a field declaration. */
    method PrintVariables(vs: seq<VariableDeclarator>, sep: string, p: Pos)
      requires printer.Valid()
      modifies printer
      ensures printer.Valid()
      ensures printer.trace == EmitVariables(old(printer.trace), vs, |vs|, At(sep, p), printComments)
    {
      for i := 0 to |vs|
        invariant printer.Valid()
        invariant printer.trace == EmitVariables(old(printer.trace), vs, i, At(sep, p), printComments)
      {
        VisitVariableDeclarator(vs[i]);
        if i + 1 < |vs| {
          printer.Print(sep, p.line, p.col);
        }
      }
    }

    method VisitParameter(prm: Parameter)
      requires printer.Valid()
      modifies printer
      ensures printer.Valid() && printer.trace == EmitParameter(old(printer.trace), prm, printComments)
    {
      PrintJavaComment(prm.comment);
      PrintModifiers(prm.modifiers, prm.pos.line, prm.pos.col);
      if prm.paramType.Some? {
        VisitType(prm.paramType.value);
      }
      PrintWhen(prm.isVarArgs, "...", prm.pos.line, prm.pos.col);
      printer.Print(" ", prm.pos.line, prm.pos.col);
      VisitVariableDeclaratorId(prm.paramId);
    }

    /** The parameter loop of a method declaration. */
    method PrintParameters(ps: seq<Parameter>, sep: string, p: Pos)
      requires printer.Valid()
      modifies printer
      ensures printer.Valid()
      ensures printer.trace == EmitParameters(old(printer.trace), ps, |ps|, At(sep, p), printComments)
    {
      for i := 0 to |ps|
        invariant printer.Valid()
        invariant printer.trace == EmitParameters(old(printer.trace), ps, i, At(sep, p), printComments)
      {
        VisitParameter(ps[i]);
        if i + 1 < |ps| {
          printer.Print(sep, p.line, p.col);
        }
      }
    }

    method VisitFieldDeclaration(d: BodyDeclaration)
      requires d.FieldDeclaration? && InParent(d.id, d.siblings)
      requires printer.Valid()
      modifies printer
      ensures printer.Valid() && printer.trace == EmitFieldDeclaration(old(printer.trace), d, printComments)
    {
      PrintOrphansBefore(d.id, d.siblings);
      PrintJavaComment(d.comment);
      PrintJavadoc(d.javadoc);
      PrintModifiers(d.modifiers, d.pos.line, d.pos.col);
      VisitType(d.fieldType);
      printer.Print(" ", d.pos.line, d.pos.col);
      PrintVariables(d.variables, ", ", d.pos);
      printer.Print(";", d.pos.line, d.pos.col);
    }

    method VisitMethodDeclaration(d: BodyDeclaration)
      requires d.MethodDeclaration? && LinkedDecl(d)
      requires printer.Valid()
      modifies printer
      ensures printer.Valid() && printer.trace == EmitMethodDeclaration(old(printer.trace), d, printComments)
    {
      PrintMethodHead(d);
      PrintMethodRest(d);
    }

    method PrintMethodHead(d: BodyDeclaration)
      requires d.MethodDeclaration? && InParent(d.id, d.siblings)
      requires printer.Valid()
      modifies printer
      ensures printer.Valid() && printer.trace == EmitMethodHead(old(printer.trace), d, printComments)
    {
      var p := d.pos;
      PrintOrphansBefore(d.id, d.siblings);
      PrintJavaComment(d.comment);
      PrintJavadoc(d.javadoc);
      PrintModifiers(d.modifiers, p.line, p.col);
      PrintWhen(d.isDefault, "default ", p.line, p.col);
      PrintTypeParameters(if d.typeParameters.Some? then d.typeParameters.value else []);
      PrintWhen(d.typeParameters.Some?, " ", p.line, p.col);
      VisitType(d.resultType);
      printer.Print(" ", p.line, p.col);
      printer.Print(d.name, p.line, p.col);
    }

    method PrintMethodRest(d: BodyDeclaration)
      requires d.MethodDeclaration? && LinkedDecl(d)
      requires printer.Valid()
      modifies printer
      ensures printer.Valid() && printer.trace == EmitMethodRest(old(printer.trace), d, printComments)
    {
      var p := d.pos;
      printer.Print("(", p.line, p.col);
      PrintParameters(d.parameters, ", ", p);
      printer.Print(")", p.line, p.col);
      PrintBrackets(d.arrayCount, p);
      if |d.throws| > 0 {
        printer.Print(" throws ", p.line, p.col);
        PrintExprList(d.throws, ", ", p);
      }
      if d.body.None? {
        printer.Print(";", p.line, p.col);
      } else {
        printer.Print(" ", p.line, p.col);
        VisitStmt(d.body.value);
      }
    }

    method VisitBodyDeclaration(d: BodyDeclaration)
      requires LinkedDecl(d)
      requires printer.Valid()
      modifies printer
      ensures printer.Valid() && printer.trace == EmitBodyDeclaration(old(printer.trace), d, printComments)
      decreases d, 2
    {
      match d
      case FieldDeclaration(_, _, _, _, _, _, _, _) => VisitFieldDeclaration(d);
      case MethodDeclaration(_, _, _, _, _, _, _, _, _, _, _, _, _, _) => VisitMethodDeclaration(d);
      case ClassOrInterfaceDeclaration(_, _, _, _, _, _, _, _, _, _, _) =>
        VisitClassOrInterfaceDeclaration(d);
    }

    method VisitClassOrInterfaceDeclaration(d: BodyDeclaration)
      requires d.ClassOrInterfaceDeclaration? && LinkedDecl(d)
      requires printer.Valid()
      modifies printer
      ensures printer.Valid()
      ensures printer.trace == EmitClassOrInterfaceDeclaration(old(printer.trace), d, printComments)
      decreases d, 1
    {
      PrintClassHead(d);
      PrintClassBody(d);
    }

    method PrintClassHead(d: BodyDeclaration)
      requires d.ClassOrInterfaceDeclaration?
      requires printer.Valid()
      modifies printer
      ensures printer.Valid() && printer.trace == EmitClassHead(old(printer.trace), d, printComments)
    {
      var p := d.pos;
      PrintJavaComment(d.comment);
      PrintJavadoc(d.javadoc);
      PrintModifiers(d.modifiers, p.line, p.col);
      if d.isInterface {
        printer.Print("interface ", p.line, p.col);
      } else {
        printer.Print("class ", p.line, p.col);
      }
      printer.Print(d.name, p.line, p.col);
      PrintTypeParameters(d.classTypeParameters);
      if |d.extendedTypes| > 0 {
        printer.Print(" extends ", p.line, p.col);
        PrintTypeList(d.extendedTypes, ", ", p);
      }
      if |d.implementedTypes| > 0 {
        printer.Print(" implements ", p.line, p.col);
        PrintTypeList(d.implementedTypes, ", ", p);
      }
    }

    method PrintClassBody(d: BodyDeclaration)
      requires d.ClassOrInterfaceDeclaration? && LinkedDecl(d)
      requires printer.Valid()
      modifies printer
      ensures printer.Valid() && printer.trace == EmitClassBody(old(printer.trace), d, printComments)
      decreases d, 0
    {
      var p := d.pos;
      printer.Print(" {", p.line, p.col);
      if |d.members| > 0 {
        PrintMembers(d.members);
      }
      PrintOrphanCommentsEnding(d.children);
      printer.Print("}", p.line, p.col);
    }

    method PrintMembers(members: seq<BodyDeclaration>)
      requires forall i :: 0 <= i < |members| ==> LinkedDecl(members[i])
      requires printer.Valid()
      modifies printer
      ensures printer.Valid() && printer.trace == EmitMembers(old(printer.trace), members, |members|, printComments)
      decreases members, 3
    {
      for i := 0 to |members|
        invariant printer.Valid()
        invariant printer.trace == EmitMembers(old(printer.trace), members, i, printComments)
      {
        VisitBodyDeclaration(members[i]);
      }
    }

    // -------------------------------------------------------------------
    // Compilation unit

    method VisitImportDeclaration(n: ImportDeclaration)
      requires printer.Valid()
      modifies printer
      ensures printer.Valid() && printer.trace == EmitImport(old(printer.trace), n, printComments)
    {
      PrintJavaComment(n.comment);
      printer.Print("import ", n.pos.line, n.pos.col);
      PrintWhen(n.isStatic, "static ", n.pos.line, n.pos.col);
      VisitExpr(n.name);
      PrintWhen(n.isAsterisk, ".*", n.pos.line, n.pos.col);
      printer.Print(";", n.pos.line, n.pos.col);
      PrintOrphanCommentsEnding(n.children);
    }

    method VisitPackageDeclaration(n: PackageDeclaration)
      requires printer.Valid()
      modifies printer
      ensures printer.Valid() && printer.trace == EmitPackage(old(printer.trace), n, printComments)
    {
      PrintJavaComment(n.comment);
      printer.Print("package ", n.pos.line, n.pos.col);
      VisitExpr(n.name);
      printer.Print(";", n.pos.line, n.pos.col);
      PrintOrphanCommentsEnding(n.children);
    }

    method VisitCompilationUnit(cu: CompilationUnit)
      requires LinkedUnit(cu)
      requires printer.Valid()
      modifies printer
      ensures printer.Valid() && printer.trace == EmitCompilationUnit(old(printer.trace), cu, printComments)
    {
      PrintJavaComment(cu.comment);
      if cu.package.Some? {
        VisitPackageDeclaration(cu.package.value);
      }
      ghost var t0 := printer.trace;
      for i := 0 to |cu.imports|
        invariant printer.Valid() && printer.trace == EmitImports(t0, cu.imports, i, printComments)
      {
        VisitImportDeclaration(cu.imports[i]);
      }
      PrintMembers(cu.types);
      PrintOrphanCommentsEnding(cu.children);
    }
  }
}
