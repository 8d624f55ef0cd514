/**
 * The part of the Java syntax tree that the dump visitor prints in this model.
 *
 * Every node carries its begin position as the parser recorded it and the
 * comment the parser attached to it (`getComment()`). Nodes whose visit scans
 * a child list for orphan comments also carry that list, position-sorted, as
 * the tree library hands it over (`getChildrenNodes()` followed by
 * `sortByBeginPosition`); the model does not derive it from the other fields.
 */
module Ast {
  import opened Wrappers

  /** Begin line and column of a node. */
  datatype Pos = Pos(line: int, col: int)

  datatype Comment =
    | LineComment(content: string, pos: Pos)
    | BlockComment(content: string, pos: Pos)
    | JavadocComment(content: string, pos: Pos)

  /** The value of a `getJavaDoc()` field: only a javadoc comment can be stored there. */
  type Javadoc = c: Comment | c.JavadocComment? witness JavadocComment([], Pos(0, 0))

  /**
   * One entry of a node's position-sorted child list: a comment node, or any
   * other node, known only by its identity (Java compares these with `==`).
   */
  datatype Child = CommentChild(comment: Comment) | NodeChild(id: nat)

  datatype Modifier =
    | Private | Protected | Public | Abstract | Static | Final
    | Native | Strictfp | Synchronized | Transient | Volatile

  /**
   * A node's modifier set: the parser's bit mask, read through one flag per
   * modifier as `ModifierSet.isPrivate(modifiers)` and its siblings read it.
   */
  datatype Modifiers = Modifiers(
    isPrivate: bool, isProtected: bool, isPublic: bool, isAbstract: bool, isStatic: bool,
    isFinal: bool, isNative: bool, isStrictfp: bool, isSynchronized: bool, isTransient: bool,
    isVolatile: bool)

  /** Whether modifier `m` is set in `mods`. */
  function Has(mods: Modifiers, m: Modifier): bool
  {
    match m
    case Private => mods.isPrivate
    case Protected => mods.isProtected
    case Public => mods.isPublic
    case Abstract => mods.isAbstract
    case Static => mods.isStatic
    case Final => mods.isFinal
    case Native => mods.isNative
    case Strictfp => mods.isStrictfp
    case Synchronized => mods.isSynchronized
    case Transient => mods.isTransient
    case Volatile => mods.isVolatile
  }

  datatype AssignOp =
    | Assign | And | Or | Xor | Plus | Minus | Rem | Slash | Star
    | LShift | RSignedShift | RUnsignedShift

  datatype BinaryOp =
    | Or | And | BinOr | BinAnd | Xor | Equals | NotEquals | Less | Greater
    | LessEquals | GreaterEquals | LShift | RSignedShift | RUnsignedShift
    | Plus | Minus | Times | Divide | Remainder

  datatype UnaryOp =
    | Positive | Negative | Inverse | Not
    | PreIncrement | PreDecrement | PosIncrement | PosDecrement

  datatype PrimitiveKind = Boolean | Byte | Char | Double | Float | Int | Long | Short

  datatype Type =
    | PrimitiveType(comment: Option<Comment>, kind: PrimitiveKind, pos: Pos)
    | ClassOrInterfaceType(comment: Option<Comment>, scope: Option<Type>, name: string,
                           typeArgs: seq<Type>, pos: Pos)
    | ReferenceType(comment: Option<Comment>, elementType: Type, arrayCount: nat, pos: Pos)
    | VoidType(comment: Option<Comment>, pos: Pos)

  /** A type parameter; `typeBound` is `None` when the bound list is null. */
  datatype TypeParameter =
    TypeParameter(comment: Option<Comment>, name: string, typeBound: Option<seq<Type>>, pos: Pos)

  datatype Expr =
    | NameExpr(comment: Option<Comment>, name: string, pos: Pos, children: seq<Child>)
    | QualifiedNameExpr(comment: Option<Comment>, qualifier: Expr, name: string, pos: Pos,
                        children: seq<Child>)
    | IntegerLiteralExpr(comment: Option<Comment>, literal: string, pos: Pos)
    | CharLiteralExpr(comment: Option<Comment>, literal: string, pos: Pos)
    | StringLiteralExpr(comment: Option<Comment>, literal: string, pos: Pos)
    | BooleanLiteralExpr(comment: Option<Comment>, truth: bool, pos: Pos)
    | NullLiteralExpr(comment: Option<Comment>, pos: Pos)
    | ThisExpr(comment: Option<Comment>, classExpr: Option<Expr>, pos: Pos)
    | FieldAccessExpr(comment: Option<Comment>, scope: Expr, field: string, pos: Pos)
    | MethodCallExpr(comment: Option<Comment>, callScope: Option<Expr>, callTypeArgs: seq<Type>,
                     name: string, args: seq<Expr>, pos: Pos)
    | AssignExpr(comment: Option<Comment>, target: Expr, assignOp: AssignOp, value: Expr, pos: Pos)
    | BinaryExpr(comment: Option<Comment>, left: Expr, binaryOp: BinaryOp, right: Expr, pos: Pos)
    | UnaryExpr(comment: Option<Comment>, unaryOp: UnaryOp, operand: Expr, pos: Pos)
    | EnclosedExpr(comment: Option<Comment>, inner: Option<Expr>, pos: Pos)

  /**
   * Statements. Block and expression statements scan their parent's child
   * list for orphan comments; they carry their own identity `id` and that
   * list as `siblings` (`None` when the node has no parent).
   */
  datatype Stmt =
    | BlockStmt(comment: Option<Comment>, stmts: seq<Stmt>, pos: Pos, id: nat,
                siblings: Option<seq<Child>>)
    | ExpressionStmt(comment: Option<Comment>, expr: Expr, pos: Pos, id: nat,
                     siblings: Option<seq<Child>>)
    | ReturnStmt(comment: Option<Comment>, result: Option<Expr>, pos: Pos)
    | IfStmt(comment: Option<Comment>, condition: Expr, thenStmt: Stmt, elseStmt: Option<Stmt>,
             pos: Pos)

  datatype VariableDeclaratorId =
    VariableDeclaratorId(comment: Option<Comment>, name: string, arrayCount: nat, pos: Pos)

  datatype VariableDeclarator =
    VariableDeclarator(comment: Option<Comment>, declId: VariableDeclaratorId, init: Option<Expr>,
                       pos: Pos)

  datatype Parameter =
    Parameter(comment: Option<Comment>, modifiers: Modifiers, paramType: Option<Type>,
              isVarArgs: bool, paramId: VariableDeclaratorId, pos: Pos)

  /**
   * Members of a type, and the type declarations themselves. Field and method
   * declarations scan their parent's child list (`siblings`) for orphan
   * comments; a class scans its own (`children`).
   */
  datatype BodyDeclaration =
    | FieldDeclaration(comment: Option<Comment>, javadoc: Option<Javadoc>, modifiers: Modifiers,
                       fieldType: Type, variables: seq<VariableDeclarator>, pos: Pos, id: nat,
                       siblings: Option<seq<Child>>)
    | MethodDeclaration(comment: Option<Comment>, javadoc: Option<Javadoc>, modifiers: Modifiers,
                        isDefault: bool, typeParameters: Option<seq<TypeParameter>>, resultType: Type,
                        name: string, parameters: seq<Parameter>, arrayCount: nat, throws: seq<Expr>,
                        body: Option<Stmt>, pos: Pos, id: nat, siblings: Option<seq<Child>>)
    | ClassOrInterfaceDeclaration(comment: Option<Comment>, javadoc: Option<Javadoc>,
                                  modifiers: Modifiers, isInterface: bool, name: string,
                                  classTypeParameters: seq<TypeParameter>, extendedTypes: seq<Type>,
                                  implementedTypes: seq<Type>, members: seq<BodyDeclaration>,
                                  pos: Pos, children: seq<Child>)

  datatype ImportDeclaration =
    ImportDeclaration(comment: Option<Comment>, isStatic: bool, name: Expr, isAsterisk: bool,
                      pos: Pos, children: seq<Child>)

  datatype PackageDeclaration =
    PackageDeclaration(comment: Option<Comment>, name: Expr, pos: Pos, children: seq<Child>)

  datatype CompilationUnit =
    CompilationUnit(comment: Option<Comment>, package: Option<PackageDeclaration>,
                    imports: seq<ImportDeclaration>, types: seq<BodyDeclaration>,
                    children: seq<Child>)

  // ---------------------------------------------------------------------
  // The tree library's parent/child invariant, as far as the printer relies on it

  /** A node with a parent appears in its parent's child list. */
  ghost predicate InParent(id: nat, siblings: Option<seq<Child>>)
  {
    siblings.Some? ==> NodeChild(id) in siblings.value
  }

  ghost predicate LinkedStmt(s: Stmt)
    decreases s
  {
    match s
    case BlockStmt(_, stmts, _, id, siblings) =>
      InParent(id, siblings) && forall i :: 0 <= i < |stmts| ==> LinkedStmt(stmts[i])
    case ExpressionStmt(_, _, _, id, siblings) => InParent(id, siblings)
    case ReturnStmt(_, _, _) => true
    case IfStmt(_, _, thenStmt, elseStmt, _) =>
      LinkedStmt(thenStmt) && (elseStmt.Some? ==> LinkedStmt(elseStmt.value))
  }

  ghost predicate LinkedDecl(d: BodyDeclaration)
    decreases d
  {
    match d
    case FieldDeclaration(_, _, _, _, _, _, id, siblings) => InParent(id, siblings)
    case MethodDeclaration(_, _, _, _, _, _, _, _, _, _, body, _, id, siblings) =>
      InParent(id, siblings) && (body.Some? ==> LinkedStmt(body.value))
    case ClassOrInterfaceDeclaration(_, _, _, _, _, _, _, _, members, _, _) =>
      forall i :: 0 <= i < |members| ==> LinkedDecl(members[i])
  }

  ghost predicate LinkedUnit(cu: CompilationUnit)
  {
    forall i :: 0 <= i < |cu.types| ==> LinkedDecl(cu.types[i])
  }
}
