/**
 Rule S3256, "Use string.IsNullOrEmpty()": reports `x.Equals(...)` calls that
 compare a string identifier with a constant empty string.

 An expression is given as the shape of its syntax node together with the
 semantic model's answers about it: the type of an identifier, the symbol a
 member access resolves to, the expression's compile-time constant value.
 An unresolved symbol or type (None) never matches.
 */
module StringIsNullOrEmpty {
  import opened Common

  const DiagnosticId := "S3256"
  /**
   The message format, written as two literals because the verifier can show a
   literal has no brace, one character at a time, only when the literal is
   short; the message text is the same.
   */
  const MessageFormatStart := "Use \"string.IsNullOrEmpty()\" instead"
  const MessageFormatEnd := " of comparing to empty string."
  const MessageFormat := MessageFormatStart + MessageFormatEnd

  /** The reported message: the rule passes its format as the format argument as well. */
  function Message(): string {
    FormatOne(MessageFormat, MessageFormat)
  }

  /** The format has no placeholder, so the reported message is the format itself. */
  lemma MessageIsFormat()
    ensures Message() == MessageFormat
  {
    forall i | 0 <= i < |MessageFormatStart| ensures MessageFormatStart[i] != '{' { }
    forall i | 0 <= i < |MessageFormatEnd| ensures MessageFormatEnd[i] != '{' { }
    NoBraceConcat(MessageFormatStart, MessageFormatEnd);
    FormatOneNoPlaceholder(MessageFormat, MessageFormat);
  }

  /** The names of the string methods the rule looks at. */
  const ReservedMethods: set<string> := {"Equals"}

  /** A type as far as the rule cares: System.String or another one. */
  datatype TypeRef = SystemString | OtherType

  /** A resolved member symbol: its containing type and its name. */
  datatype Symbol = Symbol(containingType: TypeRef, name: string)

  /** A compile-time constant: a string, null, or a value of another type. */
  datatype ConstantValue = StringConstant(text: string) | NullConstant | OtherConstant

  /** The syntax node kinds the rule distinguishes. */
  datatype Syntax =
    | IdentifierName(identifierType: Option<TypeRef>)
    | Literal(valueText: string)
    | MemberAccess(receiver: Expr, nameSymbol: Option<Symbol>)
    | OtherExpression

  /** An expression: its syntax and its constant value, if the semantic model has one. */
  datatype Expr = Expr(syntax: Syntax, constant: Option<ConstantValue>)

  /** An invocation: its location, the invoked expression and the argument list (None when missing). */
  datatype Invocation = Invocation(location: Location, invoked: Expr, arguments: Option<seq<Expr>>)

  /** `String.Empty`: the name of a member access resolving to the field Empty of System.String. */
  ghost predicate DenotesStringEmpty(e: Expr) {
    e.syntax.MemberAccess? && e.syntax.nameSymbol == Some(Symbol(SystemString, "Empty"))
  }

  /** An expression known to be the empty string: the literal "", a constant "" or String.Empty. */
  ghost predicate ConstantEmpty(e: Expr) {
    || e.syntax == Literal("")
    || e.constant == Some(StringConstant(""))
    || DenotesStringEmpty(e)
  }

  /** A bare identifier of type System.String. */
  ghost predicate StringIdentifier(e: Expr) {
    e.syntax.IdentifierName? && e.syntax.identifierType == Some(SystemString)
  }

  /** Whether the invocation is a member access to System.String.Equals with at least one argument. */
  ghost predicate CallsStringEquals(inv: Invocation) {
    && inv.invoked.syntax.MemberAccess?
    && inv.invoked.syntax.nameSymbol == Some(Symbol(SystemString, "Equals"))
    && inv.arguments.Some? && |inv.arguments.value| > 0
  }

  /** Whether the rule should report the invocation: one side a string identifier, the other a constant empty string. */
  ghost predicate ComparesWithEmpty(inv: Invocation)
    requires CallsStringEquals(inv)
  {
    var receiver := inv.invoked.syntax.receiver;
    var first := inv.arguments.value[0];
    (ConstantEmpty(receiver) && StringIdentifier(first)) || (StringIdentifier(receiver) && ConstantEmpty(first))
  }

  function TryGetFirstArgument(inv: Invocation): (r: Option<Expr>)
    ensures r.Some? <==> inv.arguments.Some? && |inv.arguments.value| > 0
    ensures r.Some? ==> r.value == inv.arguments.value[0]
  {
    if inv.arguments.Some? && |inv.arguments.value| > 0 then Some(inv.arguments.value[0]) else None
  }

  function IsStringEqualsMethod(nameSymbol: Option<Symbol>): (r: bool)
    ensures r <==> nameSymbol == Some(Symbol(SystemString, "Equals"))
  {
    nameSymbol.Some? && nameSymbol.value.containingType == SystemString && nameSymbol.value.name in ReservedMethods
  }

  function IsStringIdentifier(e: Expr): (r: bool)
    ensures r <==> StringIdentifier(e)
  {
    match e.syntax
    case IdentifierName(t) => t.Some? && t.value == SystemString
    case _ => false
  }

  function IsStringEmptyLiteral(e: Expr): (r: bool)
    ensures r <==> e.syntax == Literal("")
  {
    e.syntax.Literal? && e.syntax.valueText == ""
  }

  /** Only a string constant counts: a null constant or one of another type does not. */
  function IsStringEmptyConst(e: Expr): (r: bool)
    ensures r <==> e.constant == Some(StringConstant(""))
  {
    match e.constant
    case None => false
    case Some(StringConstant(s)) => s == ""
    case Some(_) => false
  }

  function IsStringEmpty(e: Expr): (r: bool)
    ensures r <==> DenotesStringEmpty(e)
  {
    match e.syntax
    case MemberAccess(_, sym) => sym.Some? && sym.value.containingType == SystemString && sym.value.name == "Empty"
    case _ => false
  }

  function IsConstantEmptyString(e: Expr): (r: bool)
    ensures r <==> ConstantEmpty(e)
  {
    IsStringEmptyLiteral(e) || IsStringEmptyConst(e) || IsStringEmpty(e)
  }

  /** The invocation callback: the diagnostics reported for one invocation, in order. */
  function Analyze(inv: Invocation): (r: seq<Diagnostic>)
    ensures |r| <= 1
    ensures r != [] <==> CallsStringEquals(inv) && ComparesWithEmpty(inv)
    ensures r != [] ==> r[0] == Diagnostic(DiagnosticId, inv.location, MessageFormat)
  {
    MessageIsFormat();
    match inv.invoked.syntax
    case MemberAccess(receiver, nameSymbol) =>
      if !IsStringEqualsMethod(nameSymbol) then []
      else
        var first := TryGetFirstArgument(inv);
        if first.None? then []
        // "" .Equals(x), String.Empty.Equals(x): the receiver is the constant
        else if IsStringIdentifier(first.value) && IsConstantEmptyString(receiver) then
          [Diagnostic(DiagnosticId, inv.location, Message())]
        // x.Equals(""), x.Equals(String.Empty): the argument is the constant
        else if IsStringIdentifier(receiver) && IsConstantEmptyString(first.value) then
          [Diagnostic(DiagnosticId, inv.location, Message())]
        else []
    case _ => []
  }

  /** Only the first argument is examined: the arguments after it never change the verdict. */
  lemma OnlyFirstArgumentMatters(inv: Invocation, rest: seq<Expr>)
    requires inv.arguments.Some? && |inv.arguments.value| > 0
    ensures Analyze(inv.(arguments := Some([inv.arguments.value[0]] + rest))) == Analyze(inv)
  {
  }

  /** Literals and member accesses are never string identifiers, so `"".Equals("")` is not reported. */
  lemma EmptyLiteralOnBothSides(loc: Location, equals: Symbol)
    ensures Analyze(Invocation(loc, Expr(MemberAccess(Expr(Literal(""), Some(StringConstant(""))), Some(equals)), None),
                               Some([Expr(Literal(""), Some(StringConstant(""))), Expr(OtherExpression, None)]))) == []
  {
  }

  /** `x.Equals("")` for a string `x` is reported once, at the invocation. */
  lemma IdentifierEqualsEmptyLiteral(loc: Location)
    ensures Analyze(Invocation(loc, Expr(MemberAccess(Expr(IdentifierName(Some(SystemString)), None), Some(Symbol(SystemString, "Equals"))), None),
                               Some([Expr(Literal(""), Some(StringConstant("")))])))
         == [Diagnostic(DiagnosticId, loc, MessageFormat)]
  {
  }

  /** A `const string c = ""` compared with itself satisfies both orientations but is reported once. */
  lemma ConstOnBothSidesReportedOnce(loc: Location)
    ensures var c := Expr(IdentifierName(Some(SystemString)), Some(StringConstant("")));
            var inv := Invocation(loc, Expr(MemberAccess(c, Some(Symbol(SystemString, "Equals"))), None), Some([c]));
            && ConstantEmpty(c) && StringIdentifier(c)
            && Analyze(inv) == [Diagnostic(DiagnosticId, loc, MessageFormat)]
  {
  }

  /** `x.Equals(y)` for two string identifiers, neither of them a constant, is not reported. */
  lemma IdentifiersWithoutConstantNotReported(loc: Location)
    ensures Analyze(Invocation(loc, Expr(MemberAccess(Expr(IdentifierName(Some(SystemString)), None), Some(Symbol(SystemString, "Equals"))), None),
                               Some([Expr(IdentifierName(Some(SystemString)), None)]))) == []
  {
  }

  /** The two orientations mirror each other: swapping the receiver and the first argument never changes the verdict. */
  lemma SwappingSidesKeepsVerdict(inv: Invocation)
    requires inv.invoked.syntax.MemberAccess? && inv.arguments.Some? && |inv.arguments.value| > 0
    ensures var receiver := inv.invoked.syntax.receiver;
            var first := inv.arguments.value[0];
            var swapped := inv.(invoked := inv.invoked.(syntax := inv.invoked.syntax.(receiver := first)),
                                arguments := Some([receiver] + inv.arguments.value[1..]));
            Analyze(swapped) == Analyze(inv)
  {
  }
}
