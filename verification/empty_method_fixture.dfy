/**
 The declarations of the code-fix fixture for rule S1186 after the throw fix,
 as abstract records, and the verdict of the rule on each of them.
 */
module EmptyMethodFixture {
  import opened Common
  import opened EmptyMethod

  /** Brace trivia of a body `{` newline, indentation `}`. */
  function PlainBody(statements: seq<Statement>): Block {
    Block([EndOfLine], statements, [Whitespace])
  }

  function At(line: nat, column: nat, length: nat): Location {
    Location(line, column, length)
  }

  const NotOverride := Some(MethodSymbol(false, None))

  // class EmptyMethod
  const PrivateConstructor := ConstructorNode(ConstructorDeclaration(At(8, 17, 11), [Private], Some(0), false, Some(PlainBody([])), Some(1)))
  const CommentedMethod := MethodNode(MethodDeclaration(At(12, 14, 2), [], [],
    Some(Block([EndOfLine], [], [Whitespace, SingleLineComment, EndOfLine, Whitespace])), NotOverride))
  const CallingMethod := MethodNode(MethodDeclaration(At(17, 14, 2), [], [], Some(PlainBody([ExpressionStatement])), NotOverride))
  const FixedConditionalMethod := MethodNode(MethodDeclaration(At(23, 14, 2), ["Conditional"], [], Some(PlainBody([ThrowStatement])), NotOverride))
  const VirtualMethod := MethodNode(MethodDeclaration(At(28, 32, 2), [], [Protected, Virtual], Some(PlainBody([])), NotOverride))
  const ExternMethod := MethodNode(MethodDeclaration(At(32, 21, 2), [], [Extern], None, NotOverride))
  // abstract class MyClass
  const FixedPublicMethod := MethodNode(MethodDeclaration(At(37, 21, 2), [], [Public], Some(PlainBody([ThrowStatement])), NotOverride))
  const AbstractMethod := MethodNode(MethodDeclaration(At(42, 30, 2), [], [Public, Abstract], None, NotOverride))
  // class MyClass2
  const SinglePublicConstructor := ConstructorNode(ConstructorDeclaration(At(47, 16, 8), [Public], Some(0), false, Some(PlainBody([])), Some(1)))
  const Destructor := DestructorNode(DestructorDeclaration(At(51, 10, 8), Some(PlainBody([]))))
  // class MyClass3: a static constructor with a blank line in its body, and two instance constructors
  const StaticConstructor := ConstructorNode(ConstructorDeclaration(At(58, 16, 8), [Static], Some(0), false,
    Some(Block([EndOfLine], [], [EndOfLine, Whitespace])), Some(2)))
  const OneOfTwoConstructors := ConstructorNode(ConstructorDeclaration(At(63, 16, 8), [Public], Some(0), false, Some(PlainBody([])), Some(2)))
  const ConstructorWithParameter := ConstructorNode(ConstructorDeclaration(At(66, 16, 8), [Public], Some(1), false, Some(PlainBody([])), Some(2)))
  // class MyClass4 : MyClass3
  const ConstructorWithInitializer := ConstructorNode(ConstructorDeclaration(At(73, 16, 8), [Public], Some(0), true, Some(PlainBody([])), Some(1)))
  // class MyClass5 : MyClass, overriding the abstract MyClass.F2
  const OverrideOfAbstract := MethodNode(MethodDeclaration(At(80, 30, 2), [], [Public, Override], Some(PlainBody([])), Some(MethodSymbol(true, Some(true)))))

  /** No method of the fixture is reported: each is commented, non-empty, virtual, bodiless or an override of an abstract method. */
  lemma MethodVerdicts(t: bool)
    ensures Analyze(CommentedMethod, t) == []
    ensures Analyze(CallingMethod, t) == []
    ensures Analyze(FixedConditionalMethod, t) == []
    ensures Analyze(VirtualMethod, t) == []
    ensures Analyze(ExternMethod, t) == []
    ensures Analyze(FixedPublicMethod, t) == []
    ensures Analyze(AbstractMethod, t) == []
    ensures Analyze(OverrideOfAbstract, t) == []
  {
    assert IsComment(CommentedMethod.decl.body.value.closeBraceLeading[1]);
  }

  /** Of the constructors and the destructor, exactly the single public constructor, the destructor and the static constructor are reported. */
  lemma ConstructorVerdicts(t: bool)
    ensures Analyze(PrivateConstructor, t) == []
    ensures Analyze(SinglePublicConstructor, t) == [Diagnostic(DiagnosticId, At(47, 16, 8), Message(""))]
    ensures Analyze(Destructor, t) == [Diagnostic(DiagnosticId, At(51, 10, 8), Message(""))]
    ensures Analyze(StaticConstructor, t) == [Diagnostic(DiagnosticId, At(58, 16, 8), Message(""))]
    ensures Analyze(OneOfTwoConstructors, t) == []
    ensures Analyze(ConstructorWithParameter, t) == []
    ensures Analyze(ConstructorWithInitializer, t) == []
  {
  }
}
