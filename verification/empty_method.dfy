/**
 Rule S1186, "Methods should not be empty", for C# methods, constructors and
 destructors.

 A declaration is given as an abstract record: what the syntax tree says
 (modifiers, parameter list, initializer, body with its statements and the
 trivia just inside its braces) together with the semantic model's answers
 (the declared method symbol, the number of instance constructors of the
 containing type) and whether the compilation is a test compilation. Each
 check returns the diagnostics it reports: none or one.
 */
module EmptyMethod {
  import opened Common

  const DiagnosticId := "S1186"

  /**
   The message format is MessagePrefix + "{0}" + MessageSuffix. The prefix is
   written as two literals because the verifier can show a literal has no
   brace, one character at a time, only when the literal is short; the
   message text is the same.
   */
  const MessagePrefixStart := "Add a nested comment explaining"
  const MessagePrefixEnd := " why this method is empty"
  const MessagePrefix := MessagePrefixStart + MessagePrefixEnd
  const MessageSuffix := " or complete the implementation."
  const MessageFormat := MessagePrefix + "{0}" + MessageSuffix

  /** The clause inserted into the message for methods (not for constructors or destructors). */
  const MessageInternal := ", throw a \"NotSupportedException\""

  /** The kinds of trivia that can surround a brace. Only the first two comment kinds are comments for this rule. */
  datatype TriviaKind =
    | Whitespace
    | EndOfLine
    | SingleLineComment
    | MultiLineComment
    | DocumentationComment
    | Directive
    | DisabledText

  datatype Statement = ThrowStatement | ExpressionStatement | OtherStatement

  /** A block: the open brace's trailing trivia, the statements, the close brace's leading trivia. */
  datatype Block = Block(openBraceTrailing: seq<TriviaKind>, statements: seq<Statement>, closeBraceLeading: seq<TriviaKind>)

  datatype Modifier =
    | Public | Protected | Internal | Private
    | Static | Virtual | Override | Abstract | Sealed | Extern
    | Async | New | Partial | Unsafe

  /** The declared symbol of a method: whether it overrides, and whether the method it overrides is abstract (None: no overridden method). */
  datatype MethodSymbol = MethodSymbol(isOverride: bool, overriddenIsAbstract: Option<bool>)

  /** A method declaration; `symbol` is None when the semantic model declares no symbol. */
  datatype MethodDeclaration = MethodDeclaration(
    identifier: Location,
    attributes: seq<string>,
    modifiers: seq<Modifier>,
    body: Option<Block>,
    symbol: Option<MethodSymbol>)

  /**
   A constructor declaration. `parameterList` is the number of parameters, None when the
   parameter list is missing; `instanceConstructorsInType` is the number of members of kind
   Constructor of the containing type, None when the semantic model declares no symbol.
   */
  datatype ConstructorDeclaration = ConstructorDeclaration(
    identifier: Location,
    modifiers: seq<Modifier>,
    parameterList: Option<nat>,
    hasInitializer: bool,
    body: Option<Block>,
    instanceConstructorsInType: Option<nat>)

  datatype DestructorDeclaration = DestructorDeclaration(identifier: Location, body: Option<Block>)

  /** The three node kinds the rule registers for. */
  datatype Node =
    | MethodNode(decl: MethodDeclaration)
    | ConstructorNode(ctorDecl: ConstructorDeclaration)
    | DestructorNode(dtorDecl: DestructorDeclaration)
  {
    function Identifier(): Location {
      match this
      case MethodNode(m) => m.identifier
      case ConstructorNode(c) => c.identifier
      case DestructorNode(d) => d.identifier
    }

    function Body(): Option<Block> {
      match this
      case MethodNode(m) => m.body
      case ConstructorNode(c) => c.body
      case DestructorNode(d) => d.body
    }
  }

  predicate IsComment(t: TriviaKind) {
    t == SingleLineComment || t == MultiLineComment
  }

  /** A block with no statement whose brace trivia hold no comment: whitespace, line ends, documentation comments and directives only. */
  ghost predicate Blank(b: Block) {
    && |b.statements| == 0
    && (forall t :: t in b.openBraceTrailing ==> !IsComment(t))
    && (forall t :: t in b.closeBraceLeading ==> !IsComment(t))
  }

  /** The message reported with `arg` as the format argument. */
  function Message(arg: string): string {
    FormatOne(MessageFormat, arg)
  }

  /** Scans a trivia list for a single-line or multi-line comment. */
  function ContainsCommentTrivia(trivia: seq<TriviaKind>): (r: bool)
    ensures r <==> exists t :: t in trivia && IsComment(t)
  {
    if |trivia| == 0 then false
    else IsComment(trivia[0]) || ContainsCommentTrivia(trivia[1..])
  }

  function ContainsComment(b: Block): (r: bool)
    ensures r <==> exists t :: (t in b.openBraceTrailing || t in b.closeBraceLeading) && IsComment(t)
  {
    ContainsCommentTrivia(b.openBraceTrailing) || ContainsCommentTrivia(b.closeBraceLeading)
  }

  function IsEmpty(b: Block): (r: bool)
    ensures r <==> Blank(b)
  {
    |b.statements| == 0 && !ContainsComment(b)
  }

  /** The exclusions for methods: virtual, overriding an abstract method, or an override in a test compilation. */
  function ShouldMethodBeExcluded(m: MethodDeclaration, isTestCompilation: bool): (r: bool)
    ensures Virtual in m.modifiers ==> r
    ensures (m.symbol.Some? && m.symbol.value.isOverride && m.symbol.value.overriddenIsAbstract == Some(true)) ==> r
    ensures (Override in m.modifiers && isTestCompilation) ==> r
    ensures r && Virtual !in m.modifiers && Override !in m.modifiers ==> m.symbol.Some? && m.symbol.value.isOverride
    ensures !isTestCompilation && Virtual !in m.modifiers && m.symbol.None? ==> !r
    ensures r ==> || Virtual in m.modifiers
                  || (m.symbol.Some? && m.symbol.value.isOverride && m.symbol.value.overriddenIsAbstract == Some(true))
                  || (Override in m.modifiers && isTestCompilation)
  {
    if Virtual in m.modifiers then true
    else if m.symbol.Some? && m.symbol.value.isOverride && m.symbol.value.overriddenIsAbstract.Some?
            && m.symbol.value.overriddenIsAbstract.value then true
    else Override in m.modifiers && isTestCompilation
  }

  function CheckMethodDeclaration(m: MethodDeclaration, isTestCompilation: bool): (r: seq<Diagnostic>)
    ensures |r| <= 1
    ensures r != [] <==>
      && m.body.Some? && Blank(m.body.value)
      && Virtual !in m.modifiers
      && !(m.symbol.Some? && m.symbol.value.isOverride && m.symbol.value.overriddenIsAbstract == Some(true))
      && !(Override in m.modifiers && isTestCompilation)
    ensures r != [] ==> r[0] == Diagnostic(DiagnosticId, m.identifier, Message(MessageInternal))
  {
    if m.body.Some? && IsEmpty(m.body.value) && !ShouldMethodBeExcluded(m, isTestCompilation) then
      [Diagnostic(DiagnosticId, m.identifier, Message(MessageInternal))]
    else
      []
  }

  function IsConstructorParameterless(c: ConstructorDeclaration): (r: bool)
    ensures r <==> c.parameterList == Some(0)
  {
    c.parameterList.Some? && c.parameterList.value == 0
  }

  function IsConstructorBodyEmpty(c: ConstructorDeclaration): (r: bool)
    ensures r <==> c.body.Some? && Blank(c.body.value)
  {
    c.body.Some? && IsEmpty(c.body.value)
  }

  function TypeHasExactlyOneConstructor(c: ConstructorDeclaration): (r: bool)
    ensures r <==> c.instanceConstructorsInType == Some(1)
  {
    c.instanceConstructorsInType.Some? && c.instanceConstructorsInType.value == 1
  }

  function IsSinglePublicConstructor(c: ConstructorDeclaration): (r: bool)
    ensures r ==> Public in c.modifiers && !c.hasInitializer
    ensures r ==> c.instanceConstructorsInType == Some(1)
    ensures Public in c.modifiers && !c.hasInitializer && c.instanceConstructorsInType == Some(1) ==> r
  {
    Public in c.modifiers && !c.hasInitializer && TypeHasExactlyOneConstructor(c)
  }

  function CheckConstructorDeclaration(c: ConstructorDeclaration): (r: seq<Diagnostic>)
    ensures |r| <= 1
    ensures r != [] <==>
      && c.parameterList == Some(0)
      && c.body.Some? && Blank(c.body.value)
      && (Static in c.modifiers
          || (Public in c.modifiers && !c.hasInitializer && c.instanceConstructorsInType == Some(1)))
    ensures r != [] ==> r[0] == Diagnostic(DiagnosticId, c.identifier, Message(""))
  {
    if !IsConstructorParameterless(c) || !IsConstructorBodyEmpty(c) then []
    else if IsSinglePublicConstructor(c) || Static in c.modifiers then
      [Diagnostic(DiagnosticId, c.identifier, Message(""))]
    else []
  }

  function CheckDestructorDeclaration(d: DestructorDeclaration): (r: seq<Diagnostic>)
    ensures |r| <= 1
    ensures r != [] <==> d.body.Some? && Blank(d.body.value)
    ensures r != [] ==> r[0] == Diagnostic(DiagnosticId, d.identifier, Message(""))
  {
    if d.body.Some? && IsEmpty(d.body.value) then
      [Diagnostic(DiagnosticId, d.identifier, Message(""))]
    else []
  }

  /** The registered callbacks, dispatched on the node kind. */
  function Analyze(n: Node, isTestCompilation: bool): (r: seq<Diagnostic>)
    ensures |r| <= 1
    ensures n.Body().None? ==> r == []
    ensures r != [] ==> n.Body().Some? && Blank(n.Body().value)
    ensures r != [] ==> r[0].ruleId == DiagnosticId && r[0].location == n.Identifier()
    ensures r != [] ==> r[0].message == Message(if n.MethodNode? then MessageInternal else "")
    ensures n.DestructorNode? ==> (r != [] <==> n.Body().Some? && Blank(n.Body().value))
    ensures n.ConstructorNode? ==>
      (r != [] <==>
        && n.ctorDecl.parameterList == Some(0)
        && n.Body().Some? && Blank(n.Body().value)
        && (Static in n.ctorDecl.modifiers
            || (Public in n.ctorDecl.modifiers && !n.ctorDecl.hasInitializer && n.ctorDecl.instanceConstructorsInType == Some(1))))
    ensures n.MethodNode? ==>
      (r != [] <==>
        && n.Body().Some? && Blank(n.Body().value)
        && Virtual !in n.decl.modifiers
        && !(n.decl.symbol.Some? && n.decl.symbol.value.isOverride && n.decl.symbol.value.overriddenIsAbstract == Some(true))
        && !(Override in n.decl.modifiers && isTestCompilation))
  {
    match n
    case MethodNode(m) => CheckMethodDeclaration(m, isTestCompilation)
    case ConstructorNode(c) => CheckConstructorDeclaration(c)
    case DestructorNode(d) => CheckDestructorDeclaration(d)
  }

  /** The only brace of the message format is the one of its placeholder. */
  lemma MessagePartsHaveNoBrace()
    ensures '{' !in MessagePrefix && '{' !in MessageSuffix
  {
    forall i | 0 <= i < |MessagePrefixStart| ensures MessagePrefixStart[i] != '{' { }
    forall i | 0 <= i < |MessagePrefixEnd| ensures MessagePrefixEnd[i] != '{' { }
    NoBraceConcat(MessagePrefixStart, MessagePrefixEnd);
    forall i | 0 <= i < |MessageSuffix| ensures MessageSuffix[i] != '{' { }
  }

  /** The two messages: the method message carries the NotSupportedException clause, the other is the bare format. */
  lemma MessagesDifferByClause()
    ensures Message(MessageInternal) == MessagePrefix + MessageInternal + MessageSuffix
    ensures Message("") == MessagePrefix + MessageSuffix
  {
    MessagePartsHaveNoBrace();
    FormatOneSplice(MessagePrefix, MessageSuffix, MessageInternal);
    FormatOneSplice(MessagePrefix, MessageSuffix, "");
  }

  /** The throw code fix: the body keeps its brace trivia and holds a single throw statement. */
  function ThrowFix(m: MethodDeclaration): (m': MethodDeclaration)
    requires m.body.Some?
    ensures m'.body.Some? && m'.body.value.statements == [ThrowStatement]
    ensures m'.body.value.openBraceTrailing == m.body.value.openBraceTrailing
    ensures m'.body.value.closeBraceLeading == m.body.value.closeBraceLeading
    ensures m' == m.(body := m'.body)
    ensures forall isTest :: CheckMethodDeclaration(m', isTest) == []
  {
    m.(body := Some(m.body.value.(statements := [ThrowStatement])))
  }

  /** Neither accessibility nor attributes affect the verdict on a method: only `virtual` and `override` among the modifiers do. */
  lemma AccessibilityAndAttributesIrrelevant(m: MethodDeclaration, attributes: seq<string>, modifiers: seq<Modifier>, isTest: bool)
    requires Virtual in modifiers <==> Virtual in m.modifiers
    requires Override in modifiers <==> Override in m.modifiers
    ensures CheckMethodDeclaration(m.(attributes := attributes, modifiers := modifiers), isTest)
         == CheckMethodDeclaration(m, isTest)
  {
  }

  /** An initializer (`: this(...)`, `: base(...)`) never causes a report: it can only spare a constructor. */
  lemma InitializerNeverAddsReport(c: ConstructorDeclaration)
    ensures CheckConstructorDeclaration(c.(hasInitializer := true)) != [] ==> CheckConstructorDeclaration(c) != []
  {
  }

  /** An empty parameterless static constructor is reported whatever its type's other constructors and its initializer. */
  lemma EmptyStaticConstructorAlwaysReported(c: ConstructorDeclaration, initializer: bool, count: Option<nat>)
    requires Static in c.modifiers && c.parameterList == Some(0) && c.body.Some? && Blank(c.body.value)
    ensures CheckConstructorDeclaration(c.(hasInitializer := initializer, instanceConstructorsInType := count))
         == [Diagnostic(DiagnosticId, c.identifier, Message(""))]
  {
  }
}
