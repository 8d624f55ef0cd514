/**
 * What the dump visitor prints for each node: the sequence of `print` calls
 * (text and target position) its `visit` method makes, in order.
 *
 * Each function `EmitX(tr, x, ...)` is the call trace after visiting `x`,
 * starting from the trace `tr`; it follows the visit method call by call.
 * Text belonging to a node is aimed at that node's begin position; the glue
 * of `printTypeArgs`, `printTypeParameters` and `printArguments` is aimed at
 * (0, 0). List helpers are indexed (`...Pieces(tr, xs, i)` covers `xs[..i]`)
 * so that the visitor's iterator loops advance one piece per iteration; the
 * separator after an element is printed exactly when another element follows.
 */
module Emission {
  import opened Wrappers
  import opened Ast
  import opened Printer

  /** A text aimed at a node's begin position. */
  function At(text: string, p: Pos): Token
  {
    Token(text, p.line, p.col)
  }

  /** Syntactic glue, aimed at (0, 0). */
  function Glue(text: string): Token
  {
    Token(text, 0, 0)
  }

  /** A `print` call guarded by a test. */
  function EmitWhen(tr: Trace, b: bool, t: Token): Trace
  {
    if b then Then(tr, t) else tr
  }

  /** `n` copies of "[]" (array dimensions). */
  function EmitBrackets(tr: Trace, n: nat, p: Pos): Trace
  {
    if n == 0 then tr else Then(EmitBrackets(tr, n - 1, p), At("[]", p))
  }

  // ---------------------------------------------------------------------
  // Fixed tables

  /** `printModifiers`: one test per modifier, in the source's fixed order. */
  function EmitModifiers(tr: Trace, mods: Modifiers, p: Pos): Trace
  {
    var t1 := EmitWhen(tr, mods.isPrivate, At("private ", p));
    var t2 := EmitWhen(t1, mods.isProtected, At("protected ", p));
    var t3 := EmitWhen(t2, mods.isPublic, At("public ", p));
    var t4 := EmitWhen(t3, mods.isAbstract, At("abstract ", p));
    var t5 := EmitWhen(t4, mods.isStatic, At("static ", p));
    var t6 := EmitWhen(t5, mods.isFinal, At("final ", p));
    var t7 := EmitWhen(t6, mods.isNative, At("native ", p));
    var t8 := EmitWhen(t7, mods.isStrictfp, At("strictfp ", p));
    var t9 := EmitWhen(t8, mods.isSynchronized, At("synchronized ", p));
    var t10 := EmitWhen(t9, mods.isTransient, At("transient ", p));
    EmitWhen(t10, mods.isVolatile, At("volatile ", p))
  }

  /** The assignment visit's operator switch: every text ends in `=`, and only plain assignment is `=` alone. */
  function AssignOpText(op: AssignOp): (r: string)
    ensures 1 <= |r| <= 4 && r[|r| - 1] == '='
    ensures r == "=" <==> op.Assign?
  {
    match op
    case Assign => "="
    case And => "&="
    case Or => "|="
    case Xor => "^="
    case Plus => "+="
    case Minus => "-="
    case Rem => "%="
    case Slash => "/="
    case Star => "*="
    case LShift => "<<="
    case RSignedShift => ">>="
    case RUnsignedShift => ">>>="
  }

  /**
   * The binary visit's operator switch: texts of one to three characters, and
   * only the four comparisons end in `=`.
   */
  function BinaryOpText(op: BinaryOp): (r: string)
    ensures 1 <= |r| <= 3
    ensures r[|r| - 1] == '=' <==> op.Equals? || op.NotEquals? || op.LessEquals? || op.GreaterEquals?
  {
    match op
    case Or => "||"
    case And => "&&"
    case BinOr => "|"
    case BinAnd => "&"
    case Xor => "^"
    case Equals => "=="
    case NotEquals => "!="
    case Less => "<"
    case Greater => ">"
    case LessEquals => "<="
    case GreaterEquals => ">="
    case LShift => "<<"
    case RSignedShift => ">>"
    case RUnsignedShift => ">>>"
    case Plus => "+"
    case Minus => "-"
    case Times => "*"
    case Divide => "/"
    case Remainder => "%"
  }

  /** The first switch of the unary visit: every operator but the two postfix ones. */
  function UnaryPrefixText(op: UnaryOp): (r: Option<string>)
    ensures r.None? <==> op.PosIncrement? || op.PosDecrement?
    ensures r.Some? ==> 1 <= |r.value| <= 2
  {
    match op
    case Positive => Some("+")
    case Negative => Some("-")
    case Inverse => Some("~")
    case Not => Some("!")
    case PreIncrement => Some("++")
    case PreDecrement => Some("--")
    case _ => None
  }

  /** The second switch of the unary visit: the postfix operators, spelt like their prefix forms. */
  function UnaryPostfixText(op: UnaryOp): (r: Option<string>)
    ensures r.Some? <==> op.PosIncrement? || op.PosDecrement?
    ensures op.PosIncrement? ==> r == UnaryPrefixText(PreIncrement)
    ensures op.PosDecrement? ==> r == UnaryPrefixText(PreDecrement)
  {
    match op
    case PosIncrement => Some("++")
    case PosDecrement => Some("--")
    case _ => None
  }

  /** A `print` of an operator that only some cases of a switch have. */
  function EmitOptional(tr: Trace, text: Option<string>, p: Pos): Trace
  {
    if text.Some? then Then(tr, At(text.value, p)) else tr
  }

  /** The primitive type visit's keyword switch: lower-case keywords. */
  function PrimitiveKeyword(k: PrimitiveKind): (r: string)
    ensures 3 <= |r| <= 7
    ensures forall i :: 0 <= i < |r| ==> 'a' <= r[i] <= 'z'
  {
    match k
    case Boolean => "boolean"
    case Byte => "byte"
    case Char => "char"
    case Double => "double"
    case Float => "float"
    case Int => "int"
    case Long => "long"
    case Short => "short"
  }

  // ---------------------------------------------------------------------
  // Comments

  /** `String.replace(from, to)` on characters: every `from` becomes `to`. */
  function Replace(s: string, from: char, to: char): string
  {
    seq(|s|, i requires 0 <= i < |s| => if s[i] == from then to else s[i])
  }

  /** A line comment's content with carriage returns and newlines blanked out. */
  function LineCommentText(content: string): (r: string)
    ensures |r| == |content| && '\n' !in r && '\r' !in r
  {
    Replace(Replace(content, '\r', ' '), '\n', ' ')
  }


  /** The three comment visits; only javadoc ignores the `printComments` flag. */
  function EmitComment(tr: Trace, c: Comment, pc: bool): Trace
  {
    match c
    case LineComment(content, p) =>
      if !pc then tr else Then(Then(tr, At("//", p)), At(LineCommentText(content), p))
    case BlockComment(content, p) =>
      if !pc then tr else Then(Then(Then(tr, At("/*", p)), At(content, p)), At("*/", p))
    case JavadocComment(content, p) => Then(Then(Then(tr, At("/**", p)), At(content, p)), At("*/", p))
  }

  /** `printJavaComment` and `printJavadoc`: visit the comment if there is one. */
  function EmitOptComment(tr: Trace, c: Option<Comment>, pc: bool): Trace
  {
    if c.Some? then EmitComment(tr, c.value, pc) else tr
  }

  /** The comments `cs[..i]`, one after the other. */
  function EmitComments(tr: Trace, cs: seq<Comment>, i: nat, pc: bool): Trace
    requires i <= |cs|
  {
    if i == 0 then tr else EmitComment(EmitComments(tr, cs, i - 1, pc), cs[i - 1], pc)
  }

  // ---------------------------------------------------------------------
  // Orphan comments

  /** The maximal run of comments at the end of a child list, in order. */
  function TrailingComments(s: seq<Child>): seq<Comment>
  {
    if s == [] || !s[|s| - 1].CommentChild? then []
    else TrailingComments(s[..|s| - 1]) + [s[|s| - 1].comment]
  }

  /** `TrailingComments` is a suffix of comments that cannot be extended to the left. */
  lemma {:induction false} TrailingCommentsShape(s: seq<Child>)
    ensures var r := TrailingComments(s);
            && |r| <= |s|
            && (forall i :: 0 <= i < |r| ==> s[|s| - |r| + i] == CommentChild(r[i]))
            && (|r| < |s| ==> !s[|s| - |r| - 1].CommentChild?)
  {
    if s != [] && s[|s| - 1].CommentChild? {
      var s' := s[..|s| - 1];
      TrailingCommentsShape(s');
      var r' := TrailingComments(s');
      var r := TrailingComments(s);
      assert r == r' + [s[|s| - 1].comment];
      forall i | 0 <= i < |r|
        ensures s[|s| - |r| + i] == CommentChild(r[i])
      {
        if i < |r'| {
          assert s[|s| - |r| + i] == s'[|s'| - |r'| + i];
        }
      }
    }
  }

  /** The index of the last occurrence of `x` in `s`, or -1. */
  function LastIndexOf(s: seq<Child>, x: Child): (k: int)
    ensures -1 <= k < |s|
  {
    if s == [] then -1
    else if s[|s| - 1] == x then |s| - 1
    else LastIndexOf(s[..|s| - 1], x)
  }

  /** `LastIndexOf` finds the last occurrence, and -1 exactly when there is none. */
  lemma {:induction false} LastIndexOfSpec(s: seq<Child>, x: Child)
    ensures var k := LastIndexOf(s, x);
            && (k >= 0 ==> s[k] == x && forall j :: k < j < |s| ==> s[j] != x)
            && (k == -1 <==> x !in s)
  {
    if s != [] && s[|s| - 1] != x {
      var s' := s[..|s| - 1];
      LastIndexOfSpec(s', x);
      assert s == s' + [s[|s| - 1]];
    }
  }

  /** What `printOrphanCommentsEnding` prints for a node with these children. */
  function EmitOrphansEnding(tr: Trace, children: seq<Child>, pc: bool): Trace
  {
    var cs := TrailingComments(children);
    EmitComments(tr, cs, |cs|, pc)
  }

  /**
   * The comments `printOrphanCommentsBeforeThisChildNode` prints for node `id`:
   * the run of comments immediately before it among its parent's children.
   */
  function OrphansBefore(id: nat, siblings: Option<seq<Child>>): seq<Comment>
  {
    if siblings.None? then []
    else
      var k := LastIndexOf(siblings.value, NodeChild(id));
      if k < 0 then [] else TrailingComments(siblings.value[..k])
  }

  function EmitOrphansBefore(tr: Trace, id: nat, siblings: Option<seq<Child>>, pc: bool): Trace
  {
    var cs := OrphansBefore(id, siblings);
    EmitComments(tr, cs, |cs|, pc)
  }

  // ---------------------------------------------------------------------
  // Types

  /** The type visits; each kind with a nested type has its own function. */
  function EmitType(tr: Trace, t: Type, pc: bool): Trace
    decreases t, 1
  {
    match t
    case PrimitiveType(c, kind, p) => Then(EmitOptComment(tr, c, pc), At(PrimitiveKeyword(kind), p))
    case ClassOrInterfaceType(_, _, _, _, _) => EmitClassOrInterfaceType(tr, t, pc)
    case ReferenceType(_, _, _, _) => EmitReferenceType(tr, t, pc)
    case VoidType(c, p) => Then(EmitOptComment(tr, c, pc), At("void", p))
  }

  function EmitClassOrInterfaceType(tr: Trace, t: Type, pc: bool): Trace
    requires t.ClassOrInterfaceType?
    decreases t, 0
  {
    var t1 := EmitOptComment(tr, t.comment, pc);
    var t2 := if t.scope.Some? then Then(EmitType(t1, t.scope.value, pc), At(".", t.pos)) else t1;
    EmitTypeArgs(Then(t2, At(t.name, t.pos)), t.typeArgs, pc)
  }

  function EmitReferenceType(tr: Trace, t: Type, pc: bool): Trace
    requires t.ReferenceType?
    decreases t, 0
  {
    EmitBrackets(EmitType(EmitOptComment(tr, t.comment, pc), t.elementType, pc), t.arrayCount, t.pos)
  }

  /** `printTypeArgs`: nothing for an empty list, else `<`, the types separated by ", ", `>`. */
  function EmitTypeArgs(tr: Trace, ts: seq<Type>, pc: bool): Trace
    decreases ts, 1
  {
    if |ts| == 0 then tr else Then(EmitTypeArgPieces(Then(tr, Glue("<")), ts, |ts|, pc), Glue(">"))
  }

  /** Each separator ", " is aimed at the begin of the type it follows. */
  function EmitTypeArgPieces(tr: Trace, ts: seq<Type>, i: nat, pc: bool): Trace
    requires i <= |ts|
    decreases ts, 0, i
  {
    if i == 0 then tr
    else
      var t := EmitType(EmitTypeArgPieces(tr, ts, i - 1, pc), ts[i - 1], pc);
      if i < |ts| then Then(t, At(", ", ts[i - 1].pos)) else t
  }

  /** A type list whose separators all go to one fixed position. */
  function EmitTypeList(tr: Trace, ts: seq<Type>, i: nat, sep: Token, pc: bool): Trace
    requires i <= |ts|
    decreases ts, 0, i
  {
    if i == 0 then tr
    else
      var t := EmitType(EmitTypeList(tr, ts, i - 1, sep, pc), ts[i - 1], pc);
      if i < |ts| then Then(t, sep) else t
  }

  function EmitTypeParameter(tr: Trace, tp: TypeParameter, pc: bool): Trace
  {
    var t := Then(EmitOptComment(tr, tp.comment, pc), At(tp.name, tp.pos));
    if tp.typeBound.Some?
    then EmitTypeList(Then(t, At(" extends ", tp.pos)), tp.typeBound.value, |tp.typeBound.value|, At(" & ", tp.pos), pc)
    else t
  }

  /** `printTypeParameters`: like `printTypeArgs`, over type parameters. */
  function EmitTypeParameters(tr: Trace, tps: seq<TypeParameter>, pc: bool): Trace
  {
    if |tps| == 0 then tr else Then(EmitTypeParameterPieces(Then(tr, Glue("<")), tps, |tps|, pc), Glue(">"))
  }

  function EmitTypeParameterPieces(tr: Trace, tps: seq<TypeParameter>, i: nat, pc: bool): Trace
    requires i <= |tps|
  {
    if i == 0 then tr
    else
      var t := EmitTypeParameter(EmitTypeParameterPieces(tr, tps, i - 1, pc), tps[i - 1], pc);
      if i < |tps| then Then(t, At(", ", tps[i - 1].pos)) else t
  }

  // ---------------------------------------------------------------------
  // Expressions

  /** The expression visits; each kind with a nested expression has its own function. */
  function EmitExpr(tr: Trace, e: Expr, pc: bool): Trace
    decreases e, 1
  {
    match e
    case NameExpr(c, name, p, children) =>
      EmitOrphansEnding(Then(EmitOptComment(tr, c, pc), At(name, p)), children, pc)
    case QualifiedNameExpr(_, _, _, _, _) => EmitQualifiedNameExpr(tr, e, pc)
    case IntegerLiteralExpr(c, literal, p) => Then(EmitOptComment(tr, c, pc), At(literal, p))
    case CharLiteralExpr(c, literal, p) =>
      Then(Then(Then(EmitOptComment(tr, c, pc), At("'", p)), At(literal, p)), At("'", p))
    case StringLiteralExpr(c, literal, p) =>
      Then(Then(Then(EmitOptComment(tr, c, pc), At("\"", p)), At(literal, p)), At("\"", p))
    case BooleanLiteralExpr(c, truth, p) =>
      Then(EmitOptComment(tr, c, pc), At(if truth then "true" else "false", p))
    case NullLiteralExpr(c, p) => Then(EmitOptComment(tr, c, pc), At("null", p))
    case ThisExpr(_, _, _) => EmitThisExpr(tr, e, pc)
    case FieldAccessExpr(_, _, _, _) => EmitFieldAccessExpr(tr, e, pc)
    case MethodCallExpr(_, _, _, _, _, _) => EmitMethodCallExpr(tr, e, pc)
    case AssignExpr(_, _, _, _, _) => EmitAssignExpr(tr, e, pc)
    case BinaryExpr(_, _, _, _, _) => EmitBinaryExpr(tr, e, pc)
    case UnaryExpr(_, _, _, _) => EmitUnaryExpr(tr, e, pc)
    case EnclosedExpr(_, _, _) => EmitEnclosedExpr(tr, e, pc)
  }

  function EmitQualifiedNameExpr(tr: Trace, e: Expr, pc: bool): Trace
    requires e.QualifiedNameExpr?
    decreases e, 0
  {
    var t := Then(Then(EmitExpr(EmitOptComment(tr, e.comment, pc), e.qualifier, pc), At(".", e.pos)), At(e.name, e.pos));
    EmitOrphansEnding(t, e.children, pc)
  }

  function EmitThisExpr(tr: Trace, e: Expr, pc: bool): Trace
    requires e.ThisExpr?
    decreases e, 0
  {
    var t := EmitOptComment(tr, e.comment, pc);
    Then((if e.classExpr.Some? then Then(EmitExpr(t, e.classExpr.value, pc), At(".", e.pos)) else t), At("this", e.pos))
  }

  function EmitFieldAccessExpr(tr: Trace, e: Expr, pc: bool): Trace
    requires e.FieldAccessExpr?
    decreases e, 0
  {
    Then(Then(EmitExpr(EmitOptComment(tr, e.comment, pc), e.scope, pc), At(".", e.pos)), At(e.field, e.pos))
  }

  function EmitMethodCallExpr(tr: Trace, e: Expr, pc: bool): Trace
    requires e.MethodCallExpr?
    decreases e, 0
  {
    var t1 := EmitOptComment(tr, e.comment, pc);
    var t2 := if e.callScope.Some? then Then(EmitExpr(t1, e.callScope.value, pc), At(".", e.pos)) else t1;
    EmitArguments(Then(EmitTypeArgs(t2, e.callTypeArgs, pc), At(e.name, e.pos)), e.args, pc)
  }

  /** Target, the operator between two blanks, value. */
  function EmitAssignExpr(tr: Trace, e: Expr, pc: bool): Trace
    requires e.AssignExpr?
    decreases e, 0
  {
    var t := EmitExpr(EmitOptComment(tr, e.comment, pc), e.target, pc);
    EmitExpr(Then(Then(Then(t, At(" ", e.pos)), At(AssignOpText(e.assignOp), e.pos)), At(" ", e.pos)), e.value, pc)
  }

  /** Left operand, the operator between two blanks, right operand. */
  function EmitBinaryExpr(tr: Trace, e: Expr, pc: bool): Trace
    requires e.BinaryExpr?
    decreases e, 0
  {
    var t := EmitExpr(EmitOptComment(tr, e.comment, pc), e.left, pc);
    EmitExpr(Then(Then(Then(t, At(" ", e.pos)), At(BinaryOpText(e.binaryOp), e.pos)), At(" ", e.pos)), e.right, pc)
  }

  function EmitUnaryExpr(tr: Trace, e: Expr, pc: bool): Trace
    requires e.UnaryExpr?
    decreases e, 0
  {
    var t := EmitOptional(EmitOptComment(tr, e.comment, pc), UnaryPrefixText(e.unaryOp), e.pos);
    EmitOptional(EmitExpr(t, e.operand, pc), UnaryPostfixText(e.unaryOp), e.pos)
  }

  function EmitEnclosedExpr(tr: Trace, e: Expr, pc: bool): Trace
    requires e.EnclosedExpr?
    decreases e, 0
  {
    var t := Then(EmitOptComment(tr, e.comment, pc), At("(", e.pos));
    Then((if e.inner.Some? then EmitExpr(t, e.inner.value, pc) else t), At(")", e.pos))
  }

  /** `printArguments`: `(`, the arguments separated by ", ", `)`; parentheses are glue. */
  function EmitArguments(tr: Trace, args: seq<Expr>, pc: bool): Trace
    decreases args, 1
  {
    Then(EmitArgumentPieces(Then(tr, Glue("(")), args, |args|, pc), Glue(")"))
  }

  /** Each separator ", " is aimed at the begin of the argument it follows. */
  function EmitArgumentPieces(tr: Trace, args: seq<Expr>, i: nat, pc: bool): Trace
    requires i <= |args|
    decreases args, 0, i
  {
    if i == 0 then tr
    else
      var t := EmitExpr(EmitArgumentPieces(tr, args, i - 1, pc), args[i - 1], pc);
      if i < |args| then Then(t, At(", ", args[i - 1].pos)) else t
  }

  /** An expression list whose separators all go to one fixed position. */
  function EmitExprList(tr: Trace, es: seq<Expr>, i: nat, sep: Token, pc: bool): Trace
    requires i <= |es|
  {
    if i == 0 then tr
    else
      var t := EmitExpr(EmitExprList(tr, es, i - 1, sep, pc), es[i - 1], pc);
      if i < |es| then Then(t, sep) else t
  }

  // ---------------------------------------------------------------------
  // Statements

  /** The keyword before an else branch: a trailing blank before a chained if or a block. */
  function ElseKeyword(elseStmt: Stmt): string
  {
    if elseStmt.IfStmt? || elseStmt.BlockStmt? then "else " else "else"
  }

  /** The statement visits; block and if statements have their own functions. */
  function EmitStmt(tr: Trace, s: Stmt, pc: bool): Trace
    decreases s, 1
  {
    match s
    case BlockStmt(_, _, _, _, _) => EmitBlockStmt(tr, s, pc)
    case ExpressionStmt(c, expr, p, id, siblings) =>
      Then(EmitExpr(EmitOptComment(EmitOrphansBefore(tr, id, siblings, pc), c, pc), expr, pc), At(";", p))
    case ReturnStmt(c, result, p) =>
      var t := Then(EmitOptComment(tr, c, pc), At("return", p));
      Then((if result.Some? then EmitExpr(Then(t, At(" ", p)), result.value, pc) else t), At(";", p))
    case IfStmt(_, _, _, _, _) => EmitIfStmt(tr, s, pc)
  }

  function EmitBlockStmt(tr: Trace, s: Stmt, pc: bool): Trace
    requires s.BlockStmt?
    decreases s, 0
  {
    var t := Then(EmitOptComment(EmitOrphansBefore(tr, s.id, s.siblings, pc), s.comment, pc), At("{", s.pos));
    Then(EmitStmts(t, s.stmts, |s.stmts|, pc), At("}", s.pos))
  }

  /**
   * `if (`, condition, `) ` before a block and `)` otherwise, the then branch;
   * the else branch is printed only when the then branch is not a block.
   */
  function EmitIfStmt(tr: Trace, s: Stmt, pc: bool): Trace
    requires s.IfStmt?
    decreases s, 0
  {
    var thenBlock := s.thenStmt.BlockStmt?;
    var t1 := EmitExpr(Then(EmitOptComment(tr, s.comment, pc), At("if (", s.pos)), s.condition, pc);
    var t2 := EmitStmt(Then(t1, At(if thenBlock then ") " else ")", s.pos)), s.thenStmt, pc);
    if !thenBlock && s.elseStmt.Some?
    then EmitStmt(Then(t2, At(ElseKeyword(s.elseStmt.value), s.pos)), s.elseStmt.value, pc)
    else t2
  }

  function EmitStmts(tr: Trace, ss: seq<Stmt>, i: nat, pc: bool): Trace
    requires i <= |ss|
    decreases ss, 0, i
  {
    if i == 0 then tr else EmitStmt(EmitStmts(tr, ss, i - 1, pc), ss[i - 1], pc)
  }

  // ---------------------------------------------------------------------
  // Declarations

  function EmitVariableDeclaratorId(tr: Trace, v: VariableDeclaratorId, pc: bool): Trace
  {
    EmitBrackets(Then(EmitOptComment(tr, v.comment, pc), At(v.name, v.pos)), v.arrayCount, v.pos)
  }

  function EmitVariableDeclarator(tr: Trace, v: VariableDeclarator, pc: bool): Trace
  {
    var t := EmitVariableDeclaratorId(EmitOptComment(tr, v.comment, pc), v.declId, pc);
    if v.init.Some? then EmitExpr(Then(t, At(" = ", v.pos)), v.init.value, pc) else t
  }

  function EmitVariables(tr: Trace, vs: seq<VariableDeclarator>, i: nat, sep: Token, pc: bool): Trace
    requires i <= |vs|
  {
    if i == 0 then tr
    else
      var t := EmitVariableDeclarator(EmitVariables(tr, vs, i - 1, sep, pc), vs[i - 1], pc);
      if i < |vs| then Then(t, sep) else t
  }

  function EmitParameter(tr: Trace, prm: Parameter, pc: bool): Trace
  {
    var t1 := EmitModifiers(EmitOptComment(tr, prm.comment, pc), prm.modifiers, prm.pos);
    var t2 := if prm.paramType.Some? then EmitType(t1, prm.paramType.value, pc) else t1;
    EmitVariableDeclaratorId(Then(EmitWhen(t2, prm.isVarArgs, At("...", prm.pos)), At(" ", prm.pos)), prm.paramId, pc)
  }

  function EmitParameters(tr: Trace, ps: seq<Parameter>, i: nat, sep: Token, pc: bool): Trace
    requires i <= |ps|
  {
    if i == 0 then tr
    else
      var t := EmitParameter(EmitParameters(tr, ps, i - 1, sep, pc), ps[i - 1], pc);
      if i < |ps| then Then(t, sep) else t
  }

  /** A method's type parameter list; a null list prints nothing and no trailing blank. */
  function EmitMethodTypeParameters(tr: Trace, tps: Option<seq<TypeParameter>>, p: Pos, pc: bool): Trace
  {
    EmitWhen(EmitTypeParameters(tr, if tps.Some? then tps.value else [], pc), tps.Some?, At(" ", p))
  }

  /** A `throws` clause: nothing for an empty list. */
  function EmitThrows(tr: Trace, throws: seq<Expr>, p: Pos, pc: bool): Trace
  {
    if |throws| > 0 then EmitExprList(Then(tr, At(" throws ", p)), throws, |throws|, At(", ", p), pc) else tr
  }

  /** `extends` or `implements` followed by a type list: nothing for an empty list. */
  function EmitSuperTypes(tr: Trace, keyword: string, ts: seq<Type>, p: Pos, pc: bool): Trace
  {
    if |ts| > 0 then EmitTypeList(Then(tr, At(keyword, p)), ts, |ts|, At(", ", p), pc) else tr
  }

  function EmitBodyDeclaration(tr: Trace, d: BodyDeclaration, pc: bool): Trace
    decreases d, 2
  {
    match d
    case FieldDeclaration(_, _, _, _, _, _, _, _) => EmitFieldDeclaration(tr, d, pc)
    case MethodDeclaration(_, _, _, _, _, _, _, _, _, _, _, _, _, _) => EmitMethodDeclaration(tr, d, pc)
    case ClassOrInterfaceDeclaration(_, _, _, _, _, _, _, _, _, _, _) =>
      EmitClassOrInterfaceDeclaration(tr, d, pc)
  }

  function EmitFieldDeclaration(tr: Trace, d: BodyDeclaration, pc: bool): Trace
    requires d.FieldDeclaration?
  {
    var p := d.pos;
    var t1 := EmitOptComment(EmitOptComment(EmitOrphansBefore(tr, d.id, d.siblings, pc), d.comment, pc), d.javadoc, pc);
    var t2 := Then(EmitType(EmitModifiers(t1, d.modifiers, p), d.fieldType, pc), At(" ", p));
    Then(EmitVariables(t2, d.variables, |d.variables|, At(", ", p), pc), At(";", p))
  }

  function EmitMethodDeclaration(tr: Trace, d: BodyDeclaration, pc: bool): Trace
    requires d.MethodDeclaration?
  {
    EmitMethodRest(EmitMethodHead(tr, d, pc), d, pc)
  }

  /** A method declaration up to and including its name. */
  function EmitMethodHead(tr: Trace, d: BodyDeclaration, pc: bool): Trace
    requires d.MethodDeclaration?
  {
    var p := d.pos;
    var t1 := EmitOptComment(EmitOptComment(EmitOrphansBefore(tr, d.id, d.siblings, pc), d.comment, pc), d.javadoc, pc);
    var t2 := EmitWhen(EmitModifiers(t1, d.modifiers, p), d.isDefault, At("default ", p));
    Then(Then(EmitType(EmitMethodTypeParameters(t2, d.typeParameters, p, pc), d.resultType, pc), At(" ", p)), At(d.name, p))
  }

  /** A method declaration after its name: parameters, dimensions, throws clause, body. */
  function EmitMethodRest(tr: Trace, d: BodyDeclaration, pc: bool): Trace
    requires d.MethodDeclaration?
  {
    var p := d.pos;
    var t4 := Then(EmitParameters(Then(tr, At("(", p)), d.parameters, |d.parameters|, At(", ", p), pc), At(")", p));
    var t5 := EmitThrows(EmitBrackets(t4, d.arrayCount, p), d.throws, p, pc);
    if d.body.None? then Then(t5, At(";", p)) else EmitStmt(Then(t5, At(" ", p)), d.body.value, pc)
  }

  function EmitClassOrInterfaceDeclaration(tr: Trace, d: BodyDeclaration, pc: bool): Trace
    requires d.ClassOrInterfaceDeclaration?
    decreases d, 1
  {
    EmitClassBody(EmitClassHead(tr, d, pc), d, pc)
  }

  /** A type declaration up to its `implements` list. */
  function EmitClassHead(tr: Trace, d: BodyDeclaration, pc: bool): Trace
    requires d.ClassOrInterfaceDeclaration?
  {
    var p := d.pos;
    var t1 := EmitModifiers(EmitOptComment(EmitOptComment(tr, d.comment, pc), d.javadoc, pc), d.modifiers, p);
    var t2 := Then(Then(t1, At(if d.isInterface then "interface " else "class ", p)), At(d.name, p));
    var t3 := EmitSuperTypes(EmitTypeParameters(t2, d.classTypeParameters, pc), " extends ", d.extendedTypes, p, pc);
    EmitSuperTypes(t3, " implements ", d.implementedTypes, p, pc)
  }

  /** The braces of a type declaration, its members and its trailing orphan comments. */
  function EmitClassBody(tr: Trace, d: BodyDeclaration, pc: bool): Trace
    requires d.ClassOrInterfaceDeclaration?
    decreases d, 0
  {
    var p := d.pos;
    Then(EmitOrphansEnding(EmitMembers(Then(tr, At(" {", p)), d.members, |d.members|, pc), d.children, pc), At("}", p))
  }

  function EmitMembers(tr: Trace, ms: seq<BodyDeclaration>, i: nat, pc: bool): Trace
    requires i <= |ms|
    decreases ms, 0, i
  {
    if i == 0 then tr else EmitBodyDeclaration(EmitMembers(tr, ms, i - 1, pc), ms[i - 1], pc)
  }

  function EmitImport(tr: Trace, n: ImportDeclaration, pc: bool): Trace
  {
    var t1 := EmitWhen(Then(EmitOptComment(tr, n.comment, pc), At("import ", n.pos)), n.isStatic, At("static ", n.pos));
    var t2 := Then(EmitWhen(EmitExpr(t1, n.name, pc), n.isAsterisk, At(".*", n.pos)), At(";", n.pos));
    EmitOrphansEnding(t2, n.children, pc)
  }

  function EmitImports(tr: Trace, ns: seq<ImportDeclaration>, i: nat, pc: bool): Trace
    requires i <= |ns|
  {
    if i == 0 then tr else EmitImport(EmitImports(tr, ns, i - 1, pc), ns[i - 1], pc)
  }

  function EmitPackage(tr: Trace, n: PackageDeclaration, pc: bool): Trace
  {
    var t := EmitExpr(Then(EmitOptComment(tr, n.comment, pc), At("package ", n.pos)), n.name, pc);
    EmitOrphansEnding(Then(t, At(";", n.pos)), n.children, pc)
  }

  function EmitCompilationUnit(tr: Trace, cu: CompilationUnit, pc: bool): Trace
  {
    var t1 := EmitOptComment(tr, cu.comment, pc);
    var t2 := if cu.package.Some? then EmitPackage(t1, cu.package.value, pc) else t1;
    var t3 := EmitMembers(EmitImports(t2, cu.imports, |cu.imports|, pc), cu.types, |cu.types|, pc);
    EmitOrphansEnding(t3, cu.children, pc)
  }
}
