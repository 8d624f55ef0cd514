# Layout-preserving Java source printer

This project models the dump visitor of Grande, a Java-to-Java source
rewriter. The visitor prints a syntax tree back to Java text while trying to
keep every node at the line and column it had in the original file.

The printer has two parts, and the model has both.

- **The source printer** (`SourcePrinter`). It holds a text buffer and a cursor
  `(line, column)` starting at `(1, 1)`. `print(s, start, col)` pads forward:
  it appends newlines until `line` reaches `start`, resetting `column` to 1
  each time, then spaces until `column` reaches `col`, then `s`. After that it
  advances `column` by `|s|`.
- **The visit methods.** Each method sends its node's text to `print` as a
  fixed sequence of calls. Node text is aimed at the node's own begin position.
  The glue of argument, type-argument and type-parameter lists is aimed at
  `(0, 0)`.

## Files

- `wrappers.dfy` (`Wrappers`) is the `Option` type.
- `ast.dfy` (`Ast`) is the syntax tree subset:
  - names, literals, `this`, field access, method call, assignment, binary,
    unary and parenthesised expressions;
  - block, expression, return and `if` statements;
  - field, method and class/interface declarations;
  - parameters, variable declarators, types and type parameters;
  - imports, package and compilation unit;
  - line, block and javadoc comments.

  Nodes that scan for orphan comments carry their position-sorted child list.
- `printer.dfy` (`Printer`) has three parts:
  - the `SourcePrinter` class, with `buf`, `line` and `column` fields and two
    padding loops;
  - `Step`, the pure effect of one `print` call, and `Run`, its fold over a
    `Trace`, which is a recorded sequence of calls;
  - lemmas on `Step` and `Run`: append-only output, a monotone cursor, cursor
    and buffer agreement, and placement.
- `emission.dfy` (`Emission`) has one function per visit method. `EmitX(tr, x, pc)`
  is the call trace after visiting `x`, starting from trace `tr`, with
  `printComments == pc`.
- `orphans.dfy` (`Orphans`) has the index loops of the two orphan-comment
  helpers, proved against `LastIndexOf` and `TrailingComments`.
- `visitor.dfy` (`Visitor`) is the `DumpVisitor` class. Each visit method is
  proved to leave the printer's recorded trace equal to its `Emit` function of
  the old trace. `Printer.SourcePrinter.Valid()` ties the fields to
  `Run(Initial, trace)`, so every property proved about `Run` holds for the
  real buffer and cursor.
- `composition.dfy` (`Composition`) proves that each visit prints the same
  calls wherever it happens. Its lemmas have the form
  `EmitX(tr, x, pc) == Append(tr, EmitX(Empty, x, pc))`. They follow from
  the trace encoding: the visitor keeps no state besides the printer. They
  are bookkeeping for the lemmas in `Properties`, not properties of the
  printer in their own right.
- `properties.dfy` (`Properties`) states the printer's promises against
  independent reference definitions:
  - the modifier order as a list, with a filter;
  - parsers for the operator and keyword tables;
  - a flat reading of separated lists;
  - the shape of the orphan-comment runs;
  - the `if` statement's else rule.

## Where placement fails

A layout-preserving printer should put every node at its original position.
This one does so only under two conditions. First, nothing printed before the
text may contain a newline: `print` never moves `line` for newlines inside
`s`, such as those in a block comment or a javadoc. Second, the cursor must
not be past the target. Either the cursor's line is before the target line
and the target column is at least 1, because a later line is entered at
column 1; or the cursor is on the target line at or before the target
column. The model follows the code:

- `Printer.MultiLineTextDesynchronises` exhibits the loss of agreement
  between the cursor and the buffer.
- `Printer.StepPlacement` and `Printer.RunPlacement` carry both conditions as
  preconditions (`NotPast` and `NewlineFree`).

The `if` visit prints the else branch only when the then branch is not a
block (`if (!thenBlock)`, `DumpVisitor.java:1259`), so an `if` with a then
block loses its else branch. The model keeps this:

- `Properties.ElseDroppedIffThenBlock` proves it in both directions.
- The inner `if (thenBlock)` at line 1261 is dead code. In `VisitIfStmt` that
  branch holds an `assert false`, which is proved unreachable.

## Model

Source paths are relative to the repository root.

| member | source | states |
|---|---|---|
| Printer.SourcePrinter.constructor | src/main/java/com/idioticdev/javagrande/DumpVisitor.java:99-106 | a new printer has an empty buffer, cursor (1, 1) and no recorded calls |
| Printer.SourcePrinter.Print | src/main/java/com/idioticdev/javagrande/DumpVisitor.java:107-124 | the call is appended to the record, and the fields remain the replay of all recorded calls from a fresh printer, so the new fields are `Step` of the old ones |
| Printer.SourcePrinter.Pad | src/main/java/com/idioticdev/javagrande/DumpVisitor.java:109-123 | the two padding loops and the append produce exactly `Step`; `line` ends at `max(line, start)`; the old buffer is a prefix of the new one |
| Printer.SourcePrinter.GetSource | src/main/java/com/idioticdev/javagrande/DumpVisitor.java:126-128 | returns the buffer |
| Printer.StepAppendsPaddingThenText | src/main/java/com/idioticdev/javagrande/DumpVisitor.java:107-124 | the new buffer is the old buffer, then `max(0, start - line)` newlines, then `max(0, col - c)` spaces, where `c` is 1 after a newline and the old column otherwise, then exactly `s`; nothing already emitted changes |
| Printer.StepCursorNeverRetreats | src/main/java/com/idioticdev/javagrande/DumpVisitor.java:109-123 | `line` becomes `max(line, start)`; after a newline `column` ends at `max(1, col) + |s|`, otherwise at `max(column, col) + |s|` |
| Printer.GlueAppendsDirectly | src/main/java/com/idioticdev/javagrande/DumpVisitor.java:228-240 | a text aimed at (0, 0), as the list glue is, is appended with no padding and moves only the column |
| Printer.StepKeepsAgreement | src/main/java/com/idioticdev/javagrande/DumpVisitor.java:107-124 | if the cursor agrees with the buffer (line is 1 + newline count, column is 1 + last-line length), printing a newline-free text keeps the agreement |
| Printer.StepPlacement | src/main/java/com/idioticdev/javagrande/DumpVisitor.java:109-122 | with an agreeing cursor that is not past the target, the text starts exactly at line `start`, column `col` of the buffer. Not past means the cursor line is before `start` and `col >= 1`, or the cursor is on line `start` at a column no greater than `col` |
| Printer.MultiLineTextDesynchronises | src/main/java/com/idioticdev/javagrande/DumpVisitor.java:122-123 | printing a text with a newline from a fresh printer breaks the agreement, because `line` is not advanced for it |
| Printer.RunAppendOnly | src/main/java/com/idioticdev/javagrande/DumpVisitor.java:107-124 | any sequence of calls only extends the buffer and never lowers `line` |
| Printer.RunFromInitialCursor | src/main/java/com/idioticdev/javagrande/DumpVisitor.java:105-124 | from a fresh printer the cursor never goes below (1, 1) |
| Printer.RunKeepsAgreement | src/main/java/com/idioticdev/javagrande/DumpVisitor.java:103-124 | from an agreeing state, any sequence of newline-free calls keeps the cursor in agreement with the buffer |
| Printer.RunPlacement | src/main/java/com/idioticdev/javagrande/DumpVisitor.java:107-124 | a call made after newline-free calls from an agreeing state, with the cursor not past its target (as for `StepPlacement`, including `col >= 1` when it moves to a later line), puts its text at its (line, column), and later calls do not move it |
| Emission.TrailingCommentsShape | src/main/java/com/idioticdev/javagrande/DumpVisitor.java:1592-1601 | the comments printed at the end are a suffix of the child list, all comments, and the entry before them is not a comment |
| Emission.AssignOpText | src/main/java/com/idioticdev/javagrande/DumpVisitor.java:627-671 | the assignment operator switch: every text ends in `=`, and only plain assignment prints `=` alone |
| Emission.BinaryOpText | src/main/java/com/idioticdev/javagrande/DumpVisitor.java:673-738 | the binary operator switch: texts of one to three characters, of which exactly the four comparisons end in `=` |
| Emission.UnaryPrefixText | src/main/java/com/idioticdev/javagrande/DumpVisitor.java:889-909 | the first unary switch prints every operator except post-increment and post-decrement, with one- or two-character texts |
| Emission.UnaryPostfixText | src/main/java/com/idioticdev/javagrande/DumpVisitor.java:913-921 | the second unary switch prints only post-increment and post-decrement, with the same texts as their prefix forms |
| Emission.PrimitiveKeyword | src/main/java/com/idioticdev/javagrande/DumpVisitor.java:419-453 | the primitive type switch prints a lower-case keyword of three to seven letters |
| Emission.LineCommentText | src/main/java/com/idioticdev/javagrande/DumpVisitor.java:1474-1477 | the printed line-comment text has the content's length and no newline or carriage return |
| Emission.EmitModifiers | src/main/java/com/idioticdev/javagrande/DumpVisitor.java:141-175 | one guarded call per modifier flag, in the source's order; `Properties.ModifiersExactlyOnceInOrder` states what that prints |
| Emission.LastIndexOfSpec | src/main/java/com/idioticdev/javagrande/DumpVisitor.java:1569-1573 | the position found is the last occurrence of the node, and it is -1 exactly when the node is absent |
| Orphans.IndexOfChild | src/main/java/com/idioticdev/javagrande/DumpVisitor.java:1569-1572 | the scan ends at the last index holding the node, and at -1 exactly when the node is absent |
| Orphans.PreviousNonComment | src/main/java/com/idioticdev/javagrande/DumpVisitor.java:1574-1580 | the backward scan stops at the nearest non-comment before the child; every entry strictly between is a comment, so the exception at 1580 cannot be thrown |
| Orphans.CountCommentsAtEnd | src/main/java/com/idioticdev/javagrande/DumpVisitor.java:1592-1598 | the count is the length of the maximal run of comments at the end of the list |
| Orphans.TrailingCommentsUnique | src/main/java/com/idioticdev/javagrande/DumpVisitor.java:1592-1598 | a run length with the two boundary properties is the length of the trailing comment run |
| Visitor.DumpVisitor.Default | src/main/java/com/idioticdev/javagrande/DumpVisitor.java:91-93 | the default visitor prints comments and starts with a fresh printer |
| Visitor.DumpVisitor.constructor | src/main/java/com/idioticdev/javagrande/DumpVisitor.java:95-97 | the visitor keeps the given comment flag and starts with a fresh printer |
| Visitor.DumpVisitor.GetSource | src/main/java/com/idioticdev/javagrande/DumpVisitor.java:137-139 | the text returned is what the recorded calls produce from a fresh printer |
| Visitor.DumpVisitor.PrintModifiers | src/main/java/com/idioticdev/javagrande/DumpVisitor.java:141-175 | makes the eleven guarded calls of `EmitModifiers` |
| Visitor.DumpVisitor.PrintBrackets | src/main/java/com/idioticdev/javagrande/DumpVisitor.java:536-538 | the loop prints "[]" once per array dimension at the node's position |
| Visitor.DumpVisitor.VisitLineComment | src/main/java/com/idioticdev/javagrande/DumpVisitor.java:1469-1478 | prints nothing when comments are off, else "//" and the content with line breaks blanked |
| Visitor.DumpVisitor.VisitBlockComment | src/main/java/com/idioticdev/javagrande/DumpVisitor.java:1480-1487 | prints nothing when comments are off, else "/*", the content, "*/" |
| Visitor.DumpVisitor.VisitJavadocComment | src/main/java/com/idioticdev/javagrande/DumpVisitor.java:374-378 | prints "/**", the content, "*/" whatever the flag |
| Visitor.DumpVisitor.VisitComment | src/main/java/com/idioticdev/javagrande/DumpVisitor.java:1581 | dispatches a comment node to its visit, as `accept` does |
| Visitor.DumpVisitor.PrintJavaComment | src/main/java/com/idioticdev/javagrande/DumpVisitor.java:248-252 | visits the node's comment when it has one |
| Visitor.DumpVisitor.PrintJavadoc | src/main/java/com/idioticdev/javagrande/DumpVisitor.java:242-246 | visits the node's javadoc when it has one |
| Visitor.DumpVisitor.PrintCommentRun | src/main/java/com/idioticdev/javagrande/DumpVisitor.java:1578-1582 | the loop visits the comments of a run of the child list in order |
| Visitor.DumpVisitor.PrintOrphanCommentsBeforeThisChildNode | src/main/java/com/idioticdev/javagrande/DumpVisitor.java:1561-1583 | with no parent, prints nothing; reports "not found" exactly when the node is missing from its parent's children; otherwise prints the run of comments just before the node |
| Visitor.DumpVisitor.PrintOrphansBefore | src/main/java/com/idioticdev/javagrande/DumpVisitor.java:1561-1583 | the call-site form used by statements and declarations: with a well-formed parent link it makes exactly the calls of `EmitOrphansBefore` |
| Visitor.DumpVisitor.PrintOrphanCommentsEnding | src/main/java/com/idioticdev/javagrande/DumpVisitor.java:1586-1602 | prints the maximal trailing run of comment children in order, and nothing for an empty list |
| Visitor.DumpVisitor.VisitPrimitiveType | src/main/java/com/idioticdev/javagrande/DumpVisitor.java:419-453 | prints the comment and the keyword of the primitive kind |
| Visitor.DumpVisitor.VisitClassOrInterfaceType | src/main/java/com/idioticdev/javagrande/DumpVisitor.java:380-396 | prints comment, scope and ".", name, type arguments |
| Visitor.DumpVisitor.VisitReferenceType | src/main/java/com/idioticdev/javagrande/DumpVisitor.java:455-478 | prints comment, element type, one "[]" per dimension |
| Visitor.DumpVisitor.VisitVoidType | src/main/java/com/idioticdev/javagrande/DumpVisitor.java:558-561 | prints comment and "void" |
| Visitor.DumpVisitor.VisitType | src/main/java/com/idioticdev/javagrande/DumpVisitor.java:380-561 | dispatches a type to its visit |
| Visitor.DumpVisitor.PrintTypeArgs | src/main/java/com/idioticdev/javagrande/DumpVisitor.java:200-212 | makes exactly the calls of `EmitTypeArgs`, whose shape `Properties.TypeArgsCalls` states |
| Visitor.DumpVisitor.PrintTypeList | src/main/java/com/idioticdev/javagrande/DumpVisitor.java:409-415 | the types with a fixed separator after each but the last |
| Visitor.DumpVisitor.VisitTypeParameter | src/main/java/com/idioticdev/javagrande/DumpVisitor.java:398-417 | prints comment, name, and " extends " with the bounds separated by " & " when there is a bound list |
| Visitor.DumpVisitor.PrintTypeParameters | src/main/java/com/idioticdev/javagrande/DumpVisitor.java:214-226 | like `PrintTypeArgs`, over type parameters |
| Visitor.DumpVisitor.VisitExpr | src/main/java/com/idioticdev/javagrande/DumpVisitor.java:288-922 | dispatches an expression to its visit |
| Visitor.DumpVisitor.VisitNameExpr | src/main/java/com/idioticdev/javagrande/DumpVisitor.java:288-293 | prints comment, name, trailing orphan comments |
| Visitor.DumpVisitor.VisitQualifiedNameExpr | src/main/java/com/idioticdev/javagrande/DumpVisitor.java:295-302 | prints comment, qualifier, ".", name, trailing orphan comments |
| Visitor.DumpVisitor.VisitIntegerLiteralExpr | src/main/java/com/idioticdev/javagrande/DumpVisitor.java:798-801 | prints comment and literal text |
| Visitor.DumpVisitor.VisitCharLiteralExpr | src/main/java/com/idioticdev/javagrande/DumpVisitor.java:786-791 | prints comment and the literal between single quotes |
| Visitor.DumpVisitor.VisitStringLiteralExpr | src/main/java/com/idioticdev/javagrande/DumpVisitor.java:818-823 | prints comment and the literal between double quotes |
| Visitor.DumpVisitor.VisitBooleanLiteralExpr | src/main/java/com/idioticdev/javagrande/DumpVisitor.java:825-828 | prints comment and "true" or "false" |
| Visitor.DumpVisitor.VisitNullLiteralExpr | src/main/java/com/idioticdev/javagrande/DumpVisitor.java:830-833 | prints comment and "null" |
| Visitor.DumpVisitor.VisitThisExpr | src/main/java/com/idioticdev/javagrande/DumpVisitor.java:835-842 | prints comment, the class expression and "." when present, "this" |
| Visitor.DumpVisitor.VisitFieldAccessExpr | src/main/java/com/idioticdev/javagrande/DumpVisitor.java:772-777 | prints comment, scope, ".", field |
| Visitor.DumpVisitor.VisitMethodCallExpr | src/main/java/com/idioticdev/javagrande/DumpVisitor.java:853-862 | prints comment, scope and "." when present, type arguments, name, arguments |
| Visitor.DumpVisitor.VisitAssignExpr | src/main/java/com/idioticdev/javagrande/DumpVisitor.java:627-671 | prints target, " ", the operator from the assignment table, " ", value |
| Visitor.DumpVisitor.VisitBinaryExpr | src/main/java/com/idioticdev/javagrande/DumpVisitor.java:673-738 | prints left, " ", the operator from the binary table, " ", right |
| Visitor.DumpVisitor.VisitUnaryExpr | src/main/java/com/idioticdev/javagrande/DumpVisitor.java:887-922 | makes exactly the calls of `EmitUnaryExpr`, whose shape `Properties.UnaryExprCalls` states: the prefix operator if any, the operand, the postfix operator if any |
| Visitor.DumpVisitor.VisitEnclosedExpr | src/main/java/com/idioticdev/javagrande/DumpVisitor.java:763-770 | prints comment, "(", the inner expression when present, ")" |
| Visitor.DumpVisitor.PrintArguments | src/main/java/com/idioticdev/javagrande/DumpVisitor.java:228-240 | makes exactly the calls of `EmitArguments`, whose shape `Properties.ArgumentsCalls` states |
| Visitor.DumpVisitor.PrintExprList | src/main/java/com/idioticdev/javagrande/DumpVisitor.java:999-1005 | the names with a fixed separator after each but the last |
| Visitor.DumpVisitor.VisitStmt | src/main/java/com/idioticdev/javagrande/DumpVisitor.java:1094-1273 | dispatches a statement to its visit |
| Visitor.DumpVisitor.VisitBlockStmt | src/main/java/com/idioticdev/javagrande/DumpVisitor.java:1094-1105 | prints the orphan comments before it, comment, "{", every statement in order, "}" |
| Visitor.DumpVisitor.PrintStmts | src/main/java/com/idioticdev/javagrande/DumpVisitor.java:1098-1102 | the loop visits every statement of the block in order, an absent list as an empty one |
| Visitor.DumpVisitor.VisitExpressionStmt | src/main/java/com/idioticdev/javagrande/DumpVisitor.java:1119-1124 | prints the orphan comments before it, comment, the expression, ";" |
| Visitor.DumpVisitor.VisitReturnStmt | src/main/java/com/idioticdev/javagrande/DumpVisitor.java:1166-1174 | prints comment, "return", " " and the expression when present, ";" |
| Visitor.DumpVisitor.VisitIfStmt | src/main/java/com/idioticdev/javagrande/DumpVisitor.java:1248-1273 | prints "if (", condition, ") " before a block or ")" otherwise, the then branch, and the else branch only when the then branch is not a block |
| Visitor.DumpVisitor.VisitVariableDeclaratorId | src/main/java/com/idioticdev/javagrande/DumpVisitor.java:533-539 | prints comment, name, one "[]" per dimension |
| Visitor.DumpVisitor.VisitVariableDeclarator | src/main/java/com/idioticdev/javagrande/DumpVisitor.java:524-531 | prints comment, the id, and " = " with the initializer when present |
| Visitor.DumpVisitor.PrintVariables | src/main/java/com/idioticdev/javagrande/DumpVisitor.java:513-519 | the declarators with ", " after each but the last |
| Visitor.DumpVisitor.VisitParameter | src/main/java/com/idioticdev/javagrande/DumpVisitor.java:1015-1027 | prints comment, modifiers, type, "..." for varargs, " ", the id |
| Visitor.DumpVisitor.PrintParameters | src/main/java/com/idioticdev/javagrande/DumpVisitor.java:983-989 | the parameters with ", " after each but the last |
| Visitor.DumpVisitor.VisitFieldDeclaration | src/main/java/com/idioticdev/javagrande/DumpVisitor.java:503-522 | orphan comments before it, comment, javadoc, modifiers, type, " ", the declarators, ";" |
| Visitor.DumpVisitor.PrintMethodHead | src/main/java/com/idioticdev/javagrande/DumpVisitor.java:962-979 | orphan comments, comment, javadoc, modifiers, "default ", type parameters followed by " " only for a non-null list, result type, " ", name |
| Visitor.DumpVisitor.PrintMethodRest | src/main/java/com/idioticdev/javagrande/DumpVisitor.java:981-1012 | "(", parameters, ")", dimensions, the throws clause, then ";" without a body or " " and the body |
| Visitor.DumpVisitor.VisitMethodDeclaration | src/main/java/com/idioticdev/javagrande/DumpVisitor.java:962-1013 | the head followed by the rest |
| Visitor.DumpVisitor.PrintClassHead | src/main/java/com/idioticdev/javagrande/DumpVisitor.java:319-355 | comment, javadoc, modifiers, "interface " or "class ", name, type parameters, the extends and implements lists |
| Visitor.DumpVisitor.PrintClassBody | src/main/java/com/idioticdev/javagrande/DumpVisitor.java:357-363 | " {", the members, the trailing orphan comments, "}" |
| Visitor.DumpVisitor.VisitClassOrInterfaceDeclaration | src/main/java/com/idioticdev/javagrande/DumpVisitor.java:319-364 | the head followed by the body |
| Visitor.DumpVisitor.VisitBodyDeclaration | src/main/java/com/idioticdev/javagrande/DumpVisitor.java:177-181 | dispatches a member to its visit |
| Visitor.DumpVisitor.PrintMembers | src/main/java/com/idioticdev/javagrande/DumpVisitor.java:177-181 | visits every member in order |
| Visitor.DumpVisitor.VisitImportDeclaration | src/main/java/com/idioticdev/javagrande/DumpVisitor.java:304-317 | comment, "import ", "static " when static, the name, ".*" when on-demand, ";", trailing orphan comments |
| Visitor.DumpVisitor.VisitPackageDeclaration | src/main/java/com/idioticdev/javagrande/DumpVisitor.java:278-286 | comment, "package ", the name, ";", trailing orphan comments |
| Visitor.DumpVisitor.VisitCompilationUnit | src/main/java/com/idioticdev/javagrande/DumpVisitor.java:254-276 | comment, package when present, every import, every type, trailing orphan comments |
| Composition.CommentIndependent | src/main/java/com/idioticdev/javagrande/DumpVisitor.java:1469-1487 | a comment prints the same calls in any context |
| Composition.CommentsIndependent | src/main/java/com/idioticdev/javagrande/DumpVisitor.java:1578-1582 | a run of comments prints the same calls in any context |
| Composition.OrphansEndingIndependent | src/main/java/com/idioticdev/javagrande/DumpVisitor.java:1586-1602 | the trailing orphan comments print the same calls in any context |
| Composition.OrphansBeforeIndependent | src/main/java/com/idioticdev/javagrande/DumpVisitor.java:1561-1583 | the orphan comments before a node print the same calls in any context |
| Composition.TypeIndependent | src/main/java/com/idioticdev/javagrande/DumpVisitor.java:380-561 | a type prints the same calls in any context |
| Composition.TypeArgsIndependent | src/main/java/com/idioticdev/javagrande/DumpVisitor.java:200-212 | a type-argument list prints the same calls in any context |
| Composition.TypeParametersIndependent | src/main/java/com/idioticdev/javagrande/DumpVisitor.java:214-226 | a type-parameter list prints the same calls in any context |
| Composition.ExprIndependent | src/main/java/com/idioticdev/javagrande/DumpVisitor.java:786-833 | an expression prints the same calls in any context |
| Composition.NameExprIndependent | src/main/java/com/idioticdev/javagrande/DumpVisitor.java:288-293 | a name prints the same calls in any context |
| Composition.QualifiedNameExprIndependent | src/main/java/com/idioticdev/javagrande/DumpVisitor.java:295-302 | a qualified name prints the same calls in any context |
| Composition.ThisExprIndependent | src/main/java/com/idioticdev/javagrande/DumpVisitor.java:835-842 | a `this` expression prints the same calls in any context |
| Composition.FieldAccessExprIndependent | src/main/java/com/idioticdev/javagrande/DumpVisitor.java:772-777 | a field access prints the same calls in any context |
| Composition.MethodCallExprIndependent | src/main/java/com/idioticdev/javagrande/DumpVisitor.java:853-862 | a method call prints the same calls in any context |
| Composition.AssignExprIndependent | src/main/java/com/idioticdev/javagrande/DumpVisitor.java:627-671 | an assignment prints the same calls in any context |
| Composition.BinaryExprIndependent | src/main/java/com/idioticdev/javagrande/DumpVisitor.java:673-738 | a binary expression prints the same calls in any context |
| Composition.UnaryExprIndependent | src/main/java/com/idioticdev/javagrande/DumpVisitor.java:887-922 | a unary expression prints the same calls in any context |
| Composition.EnclosedExprIndependent | src/main/java/com/idioticdev/javagrande/DumpVisitor.java:763-770 | a parenthesised expression prints the same calls in any context |
| Composition.ArgumentsIndependent | src/main/java/com/idioticdev/javagrande/DumpVisitor.java:228-240 | an argument list prints the same calls in any context |
| Composition.StmtIndependent | src/main/java/com/idioticdev/javagrande/DumpVisitor.java:1119-1174 | a statement prints the same calls in any context |
| Composition.BlockStmtIndependent | src/main/java/com/idioticdev/javagrande/DumpVisitor.java:1094-1105 | a block prints the same calls in any context |
| Composition.IfStmtIndependent | src/main/java/com/idioticdev/javagrande/DumpVisitor.java:1248-1273 | an `if` statement prints the same calls in any context |
| Properties.ModifiersPrintSetKeywordsInOrder | src/main/java/com/idioticdev/javagrande/DumpVisitor.java:141-175 | `printModifiers` adds exactly the keywords of the set modifiers, filtered from the fixed order, each at the node's position |
| Properties.EmitKeywordsCalls | src/main/java/com/idioticdev/javagrande/DumpVisitor.java:141-175 | a run of guarded keyword calls prints the keywords of the set modifiers in list order |
| Properties.ModifiersAreKeywordTests | src/main/java/com/idioticdev/javagrande/DumpVisitor.java:141-175 | the eleven tests are the guarded keyword calls over private, protected, public, abstract, static, final, native, strictfp, synchronized, transient, volatile |
| Properties.ModifiersExactlyOnceInOrder | src/main/java/com/idioticdev/javagrande/DumpVisitor.java:141-175 | a modifier is printed if and only if it is set, no modifier twice, in the fixed order |
| Properties.SetModifiersMembers | src/main/java/com/idioticdev/javagrande/DumpVisitor.java:141-175 | the filter keeps exactly the set members of the list |
| Properties.SetModifiersRanked | src/main/java/com/idioticdev/javagrande/DumpVisitor.java:141-175 | the filter keeps the order of the list |
| Properties.ModifierKeywordRoundTrip | src/main/java/com/idioticdev/javagrande/DumpVisitor.java:141-175 | every keyword reads back as its modifier and ends in a blank |
| Properties.ModifierKeywordsDistinct | src/main/java/com/idioticdev/javagrande/DumpVisitor.java:141-175 | two modifiers print the same keyword if and only if they are the same modifier |
| Properties.AssignOpTextRoundTrip | src/main/java/com/idioticdev/javagrande/DumpVisitor.java:627-671 | every assignment operator's text reads back as that operator |
| Properties.ParseAssignOpSound | src/main/java/com/idioticdev/javagrande/DumpVisitor.java:627-671 | every text the assignment parser accepts is the table entry of its result, so the table is a bijection |
| Properties.BinaryOpTextRoundTrip | src/main/java/com/idioticdev/javagrande/DumpVisitor.java:673-738 | every binary operator's text reads back as that operator |
| Properties.ParseBinaryOpSound | src/main/java/com/idioticdev/javagrande/DumpVisitor.java:673-738 | every text the binary parser accepts is the table entry of its result |
| Properties.CompoundAssignText | src/main/java/com/idioticdev/javagrande/DumpVisitor.java:627-738 | every assignment operator except `=` prints as its binary operator followed by "=" |
| Properties.UnaryOperatorOneSide | src/main/java/com/idioticdev/javagrande/DumpVisitor.java:887-922 | each unary operator is printed by exactly one of the two switches; only the post-increment and post-decrement operators are postfix |
| Properties.UnaryTextRoundTrip | src/main/java/com/idioticdev/javagrande/DumpVisitor.java:887-922 | an operator's text on the side it is printed reads back as that operator |
| Properties.ParseUnaryOpSound | src/main/java/com/idioticdev/javagrande/DumpVisitor.java:887-922 | every text the unary parser accepts on a side is its result's entry in that side's switch |
| Properties.PrimitiveKeywordRoundTrip | src/main/java/com/idioticdev/javagrande/DumpVisitor.java:419-453 | every primitive keyword reads back as its kind, so no two kinds share a keyword |
| Properties.ParsePrimitiveKeywordSound | src/main/java/com/idioticdev/javagrande/DumpVisitor.java:419-453 | every text the keyword parser accepts is the keyword of its result |
| Properties.OperatorCalls | src/main/java/com/idioticdev/javagrande/DumpVisitor.java:627-738 | an operator between blanks prints the calls of its left operand, the three operator calls, then the calls of its right operand |
| Properties.AssignExprCalls | src/main/java/com/idioticdev/javagrande/DumpVisitor.java:627-671 | an assignment's calls are its comment's, its target's, " ", the operator, " ", its value's, each as printed alone |
| Properties.BinaryExprCalls | src/main/java/com/idioticdev/javagrande/DumpVisitor.java:673-738 | a binary expression's calls are its comment's, its left operand's, " ", the operator, " ", its right operand's |
| Properties.UnaryExprCalls | src/main/java/com/idioticdev/javagrande/DumpVisitor.java:887-922 | a unary expression's calls are its comment's, the prefix operator at the node if there is one, its operand's, and the postfix operator at the node if there is one, each as printed alone |
| Properties.JoinedSnoc | src/main/java/com/idioticdev/javagrande/DumpVisitor.java:228-240 | the flat reading of a separated list grows by the separator of the old last element and the new element's calls |
| Properties.JoinedPrefixStep | src/main/java/com/idioticdev/javagrande/DumpVisitor.java:228-240 | one more loop iteration adds one element to the flat reading of the printed prefix |
| Properties.ArgumentPiecesCalls | src/main/java/com/idioticdev/javagrande/DumpVisitor.java:231-237 | after `i` iterations of the argument loop, the calls are the flat reading of the first `i` arguments, plus the separator when another argument follows |
| Properties.ArgumentsCalls | src/main/java/com/idioticdev/javagrande/DumpVisitor.java:228-240 | `printArguments` prints "(" as glue, each argument as printed alone with ", " at the earlier argument between consecutive ones, and ")" as glue, so an empty list prints just "()" |
| Properties.TypeArgPiecesCalls | src/main/java/com/idioticdev/javagrande/DumpVisitor.java:203-209 | after `i` iterations of the type argument loop, the calls are the flat reading of the first `i` types, plus the separator when another type follows |
| Properties.TypeArgsCalls | src/main/java/com/idioticdev/javagrande/DumpVisitor.java:200-212 | `printTypeArgs` prints nothing for an empty list, otherwise "<" as glue, each type as printed alone with ", " at the earlier type between consecutive ones, and ">" as glue |
| Properties.CommentFlag | src/main/java/com/idioticdev/javagrande/DumpVisitor.java:1469-1487 | with comments off a comment prints nothing if and only if it is not a javadoc; the flag changes the output if and only if the comment is not a javadoc |
| Properties.LineCommentTextSpec | src/main/java/com/idioticdev/javagrande/DumpVisitor.java:1474-1477 | the printed line-comment text has the content's length, no '\n' or '\r', blanks exactly where the line breaks were, and is unchanged by a second pass |
| Properties.OrphansBeforeSpec | src/main/java/com/idioticdev/javagrande/DumpVisitor.java:1561-1583 | nothing without a parent; otherwise the maximal run of comments that immediately precedes the node's last occurrence |
| Properties.OrphansEndingSpec | src/main/java/com/idioticdev/javagrande/DumpVisitor.java:1586-1602 | the comments printed at the end are the maximal trailing comment run, in order; nothing when the list is empty or ends in a non-comment |
| Properties.ElseDroppedIffThenBlock | src/main/java/com/idioticdev/javagrande/DumpVisitor.java:1259-1272 | dropping the else branch changes nothing if and only if the then branch is a block |

## Left out

- I/O and the parser: the tree is given as a value. Parsing a file, the
  command-line driver and `toString` are not part of this model.
- Annotations (`printMemberAnnotations`, `printAnnotations`, the annotation
  loop of the type-parameter visit): annotation nodes are not in the tree subset.
- The other node kinds, about fifty of them, follow the same emission
  pattern. They are not modelled. Among them are lambdas, whose visit prints
  the body through the library's `toString`; the enum, constructor and
  initializer declarations; and the loop, switch and try statements.
- `sortByBeginPosition` is the tree library's sort. Child lists are given
  already sorted. `getChildrenNodes` and `getParentNode` are the library's
  too: a node carries its parent's children, or `None` at the root.
- `printOrphanCommentsBeforeThisChildNode` returns at once for a comment node.
  The model only calls it for statements and declarations, which are never
  comments.
- The "My index not found" exception (line 1573) becomes a `found` result.
  The visit methods require the tree's parent links to be well formed
  (`InParent`), as the tree library guarantees.
- Null lists are empty sequences. Where the source tests a list for null and
  the output differs from the empty case, the field is an `Option`: a
  method's type parameters and a type parameter's bounds.
- Java `int` positions and string lengths are unbounded integers. Strings are
  sequences of characters with no UTF-16 detail.
- The unused `level` field of the printer is dropped.
- `printComments` is a `const` of the visitor. The source never changes it
  after construction.
- The type loop of the compilation-unit visit has an empty `if (i.hasNext())`
  body. It prints nothing and is not modelled.
- Printer.SourcePrinter.Print: its contract states the new fields only
  through `Valid()` and the appended trace entry. The new buffer and cursor
  are `Step` of the old ones by `Pad`'s contract. The lemmas on `Step` and
  `Run` carry append-only output, monotonicity and placement.
- Whether parsing and then printing unmodified code gives back the same text
  depends on the parser, which is not part of this model. The placement
  lemmas state what holds for each print call.
