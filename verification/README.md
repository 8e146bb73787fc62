# Empty methods, string-empty comparisons and rule documentation coverage, in Dafny

This project models three small decision procedures of a C# static analyzer:

- **Rule S1186, "Methods should not be empty"** (`EmptyMethod.cs`). The rule is called for method,
  constructor and destructor declarations. It reports a declaration whose body is empty, meaning the
  body has no statement and no single-line or multi-line comment just inside its braces. A method is
  spared if it is `virtual`, if it overrides an abstract method, or if it is an `override` in a test
  compilation. A constructor is reported only if it has no parameters and is either `static`, or
  `public` with no initializer and the only instance constructor of its type. A destructor with an
  empty body is always reported. The method message carries the "throw a NotSupportedException"
  clause; constructor and destructor messages do not.
- **Rule S3256, "Use string.IsNullOrEmpty()"** (`UseStringIsNullOrEmpty.cs`). The rule is called for
  invocations. It reports `a.Equals(b, ...)` when `Equals` resolves to a member of `System.String`
  and one side is a constant empty string while the other is a bare identifier of type string. Only
  the receiver and the first argument are examined. A constant empty string is the literal `""`, a
  compile-time constant `""`, or `String.Empty`. At most one diagnostic is reported per invocation.
- **The rule/documentation coverage test** (`GeneratedResourcesTest.cs`). On one side are the rule
  keys of the non-abstract, non-utility analyzer classes. On the other are the rule ids found in the
  file names of the `.html` documentation files, using the pattern `(S\d+)_.*`. Both lists are sorted
  and compared element by element.

Syntax trees and semantic-model answers are input fields of immutable records. An unresolved symbol
or type is `None` and never matches. Each rule callback returns the diagnostics it reports, so "at
most one diagnostic" is part of its contract. Reflection and the file system are replaced by input
sequences of type records and of paths.

Modules: `Common` (Option, Location, Diagnostic, one-placeholder message formatting),
`EmptyMethod`, `EmptyMethodFixture` (the code-fix fixture of S1186 as data, with the rule's verdict
on each declaration), `StringIsNullOrEmpty`, `Ordinal` (ordinal order with null first, insertion
sort, uniqueness of sorted sequences), `ResourceNames` (path functions, `.html` test, rule id from a
file name) and `GeneratedResources` (the two pipelines and the coverage assertion).

Three details of the source are worth stating outright:
- The coverage test only asserts that the two sorted lists are equal
  (`GeneratedResourcesTest.cs:23`); it does not list the ids missing on either side.
- No attribute of the method is consulted. The `override` keyword alone spares a method only in a
  test compilation (`EmptyMethod.cs:160-161`); an override of an abstract method is spared in any
  compilation (`EmptyMethod.cs:152-157`).
- `virtual` alone is enough to spare an empty method, whether or not it overrides anything
  (`EmptyMethod.cs:146-149`).

The `// Noncompliant` markers left in `EmptyMethod.Throw.Fixed.cs` come from the fixture before the
throw fix, so the methods they mark now throw. The model reports exactly the declarations at lines
47, 51 and 58 of that file.

## Model

| member | source | states |
|---|---|---|
| `EmptyMethod.ContainsCommentTrivia` | src/SonarLint.CSharp/Rules/EmptyMethod.cs:174-177 | true exactly when some trivia of the list is a single-line or multi-line comment (documentation comments, whitespace and line ends are not) |
| `EmptyMethod.ContainsComment` | src/SonarLint.CSharp/Rules/EmptyMethod.cs:169-172 | true exactly when a comment lies in the open brace's trailing trivia or the close brace's leading trivia; trivia after the close brace are not looked at |
| `EmptyMethod.IsEmpty` | src/SonarLint.CSharp/Rules/EmptyMethod.cs:164-167 | a block is empty exactly when it is blank: no statement and no comment just inside either brace |
| `EmptyMethod.ShouldMethodBeExcluded` | src/SonarLint.CSharp/Rules/EmptyMethod.cs:144-162 | a method is excluded exactly when it is virtual, when its symbol overrides an abstract method, or when it is an override in a test compilation; with no symbol and no test compilation only `virtual` excludes |
| `EmptyMethod.CheckMethodDeclaration` | src/SonarLint.CSharp/Rules/EmptyMethod.cs:132-142 | at most one diagnostic; one exactly when the method has a blank body and no exclusion applies; it is S1186 at the identifier with the NotSupportedException clause in the message |
| `EmptyMethod.IsConstructorParameterless` | src/SonarLint.CSharp/Rules/EmptyMethod.cs:126-130 | true exactly when the parameter list exists and is empty |
| `EmptyMethod.IsConstructorBodyEmpty` | src/SonarLint.CSharp/Rules/EmptyMethod.cs:120-124 | true exactly when the constructor has a body and it is blank |
| `EmptyMethod.TypeHasExactlyOneConstructor` | src/SonarLint.CSharp/Rules/EmptyMethod.cs:113-118 | true exactly when the declared symbol resolves and its type has one member of kind Constructor |
| `EmptyMethod.IsSinglePublicConstructor` | src/SonarLint.CSharp/Rules/EmptyMethod.cs:106-111 | true exactly when the constructor is public, has no initializer and is its type's only instance constructor |
| `EmptyMethod.CheckConstructorDeclaration` | src/SonarLint.CSharp/Rules/EmptyMethod.cs:89-104 | at most one diagnostic; one exactly when there are zero parameters, a blank body, and the constructor is static or a single public constructor without initializer; the message has no inserted clause |
| `EmptyMethod.CheckDestructorDeclaration` | src/SonarLint.CSharp/Rules/EmptyMethod.cs:78-87 | a destructor is reported, once, exactly when it has a blank body |
| `EmptyMethod.Analyze` | src/SonarLint.CSharp/Rules/EmptyMethod.cs:63-76 | each node kind goes to its own check: a method is reported exactly when its body is blank and none of the three exclusions applies, a constructor exactly when it is parameterless with a blank body and static or the single public one without initializer, a destructor exactly when its body is blank; at most one diagnostic, at the declaration's identifier; a bodiless (extern or abstract) declaration is never reported; the message clause depends on the node kind |
| `EmptyMethod.MessagesDifferByClause` | src/SonarLint.CSharp/Rules/EmptyMethod.cs:49-50 | the method message is the format with the NotSupportedException clause spliced in; the constructor and destructor message is the same text without it |
| `EmptyMethod.ThrowFix` | src/Tests/SonarLint.UnitTest/TestCases/EmptyMethod.Throw.Fixed.cs:22-26 | putting a single throw statement into a method's body (brace trivia kept, nothing else changed) leaves a method the rule never reports, in any compilation |
| `EmptyMethod.AccessibilityAndAttributesIrrelevant` | src/SonarLint.CSharp/Rules/EmptyMethod.cs:144-162 | changing a method's attributes and modifiers, keeping whether it is virtual and whether it is override, does not change the verdict |
| `EmptyMethod.InitializerNeverAddsReport` | src/SonarLint.CSharp/Rules/EmptyMethod.cs:99-110 | adding a constructor initializer never creates a report; it can only spare a constructor |
| `EmptyMethod.EmptyStaticConstructorAlwaysReported` | src/SonarLint.CSharp/Rules/EmptyMethod.cs:99-103 | an empty parameterless static constructor is reported whatever its initializer and however many constructors its type has |
| `EmptyMethodFixture.MethodVerdicts` | src/Tests/SonarLint.UnitTest/TestCases/EmptyMethod.Throw.Fixed.cs:12-83 | no method of the fixture is reported: the commented one, the ones with a statement or a throw, the virtual, extern and abstract ones, and the override of an abstract method |
| `EmptyMethodFixture.ConstructorVerdicts` | src/Tests/SonarLint.UnitTest/TestCases/EmptyMethod.Throw.Fixed.cs:45-76 | of the fixture's constructors and destructor, exactly the single public constructor (line 47), the destructor (line 51) and the static constructor with a blank line (line 58) are reported; the private one, the one of two, the one with a parameter and the one with an initializer are not |
| `Common.FormatOneSplice` | src/SonarLint.CSharp/Rules/EmptyMethod.cs:49 | formatting a text with one "{0}" placeholder and no other brace gives the text before it, the argument, then the text after it |
| `Common.FormatOne` | src/SonarLint.CSharp/Rules/EmptyMethod.cs:49-50 | every character of a formatted message comes from the format or from the argument |
| `Common.FormatOneNoPlaceholder` | src/SonarAnalyzer.CSharp/Rules/UseStringIsNullOrEmpty.cs:38-39 | a format with no brace comes out unchanged |
| `StringIsNullOrEmpty.TryGetFirstArgument` | src/SonarAnalyzer.CSharp/Rules/UseStringIsNullOrEmpty.cs:91-96 | a first argument exists exactly when the argument list exists and is non-empty, and it is the list's first element |
| `StringIsNullOrEmpty.IsStringEqualsMethod` | src/SonarAnalyzer.CSharp/Rules/UseStringIsNullOrEmpty.cs:98-104 | true exactly when the callee resolves to a member of System.String named Equals; an unresolved callee is not |
| `StringIsNullOrEmpty.IsStringIdentifier` | src/SonarAnalyzer.CSharp/Rules/UseStringIsNullOrEmpty.cs:106-118 | true exactly for a bare identifier whose type is System.String; literals, member accesses and unresolved types never qualify |
| `StringIsNullOrEmpty.IsStringEmptyLiteral` | src/SonarAnalyzer.CSharp/Rules/UseStringIsNullOrEmpty.cs:140-144 | true exactly for a literal whose value text is empty |
| `StringIsNullOrEmpty.IsStringEmptyConst` | src/SonarAnalyzer.CSharp/Rules/UseStringIsNullOrEmpty.cs:127-138 | true exactly when the expression has a constant value that is the empty string; null or non-string constants do not count |
| `StringIsNullOrEmpty.IsStringEmpty` | src/SonarAnalyzer.CSharp/Rules/UseStringIsNullOrEmpty.cs:146-159 | true exactly for a member access resolving to the member Empty of System.String |
| `StringIsNullOrEmpty.IsConstantEmptyString` | src/SonarAnalyzer.CSharp/Rules/UseStringIsNullOrEmpty.cs:120-125 | constant-empty exactly when the expression is an empty literal, a constant "" or String.Empty |
| `StringIsNullOrEmpty.Analyze` | src/SonarAnalyzer.CSharp/Rules/UseStringIsNullOrEmpty.cs:49-89 | at most one diagnostic; one exactly when the callee is a member access to String.Equals with a first argument, and one of receiver and first argument is constant-empty while the other is a string identifier; it is S3256 at the whole invocation with the fixed message |
| `StringIsNullOrEmpty.MessageIsFormat` | src/SonarAnalyzer.CSharp/Rules/UseStringIsNullOrEmpty.cs:77-85 | the format is passed as its own argument; having no placeholder, the reported message is the format text itself |
| `StringIsNullOrEmpty.SwappingSidesKeepsVerdict` | src/SonarAnalyzer.CSharp/Rules/UseStringIsNullOrEmpty.cs:73-86 | the two orientations mirror each other: swapping the receiver and the first argument never changes the diagnostics |
| `StringIsNullOrEmpty.OnlyFirstArgumentMatters` | src/SonarAnalyzer.CSharp/Rules/UseStringIsNullOrEmpty.cs:67-71 | replacing the arguments after the first never changes the diagnostics |
| `StringIsNullOrEmpty.EmptyLiteralOnBothSides` | src/SonarAnalyzer.CSharp/Rules/UseStringIsNullOrEmpty.cs:106-113 | `"".Equals("")` is not reported, whatever the callee resolves to |
| `StringIsNullOrEmpty.IdentifierEqualsEmptyLiteral` | src/SonarAnalyzer.CSharp/Rules/UseStringIsNullOrEmpty.cs:81-86 | `x.Equals("")` with a string `x` gives exactly one diagnostic, at the invocation |
| `StringIsNullOrEmpty.ConstOnBothSidesReportedOnce` | src/SonarAnalyzer.CSharp/Rules/UseStringIsNullOrEmpty.cs:73-79 | a const string identifier equal to "" compared with itself meets both orientations but is reported once |
| `StringIsNullOrEmpty.IdentifiersWithoutConstantNotReported` | src/SonarAnalyzer.CSharp/Rules/UseStringIsNullOrEmpty.cs:81-86 | `x.Equals(y)` with two non-constant string identifiers is not reported |
| `Ordinal.StringLessEqTotal` | src/Tests/SonarAnalyzer.UnitTest/ResourceTests/GeneratedResourcesTest.cs:61 | any two ids are ordered one way or the other |
| `Ordinal.StringLessEqAntisymmetric` | src/Tests/SonarAnalyzer.UnitTest/ResourceTests/GeneratedResourcesTest.cs:61 | two ids each ordered before the other are equal |
| `Ordinal.StringLessEqTransitive` | src/Tests/SonarAnalyzer.UnitTest/ResourceTests/GeneratedResourcesTest.cs:61 | the ordinal order is transitive |
| `Ordinal.Sort` | src/Tests/SonarAnalyzer.UnitTest/ResourceTests/GeneratedResourcesTest.cs:61 | the result is sorted (null first, then ordinal order) and is a permutation of the input |
| `Ordinal.SortedUnique` | src/Tests/SonarAnalyzer.UnitTest/ResourceTests/GeneratedResourcesTest.cs:23 | two sorted sequences with the same multiset of elements are equal |
| `Ordinal.SortEqualIffSameElements` | src/Tests/SonarAnalyzer.UnitTest/ResourceTests/GeneratedResourcesTest.cs:23 | two inputs sort to the same sequence exactly when they hold the same elements with the same multiplicities |
| `ResourceNames.FileName` | src/Tests/SonarAnalyzer.UnitTest/ResourceTests/GeneratedResourcesTest.cs:59 | the file name is the suffix of the path after its last separator, and holds no separator |
| `ResourceNames.Extension` | src/Tests/SonarAnalyzer.UnitTest/ResourceTests/GeneratedResourcesTest.cs:86 | the extension is empty or a suffix of the path starting with a dot, with at least one more character and no further dot or separator |
| `ResourceNames.FileNameWithoutExtension` | src/Tests/SonarAnalyzer.UnitTest/ResourceTests/GeneratedResourcesTest.cs:59 | the file name cut before its last dot: when the name has a dot, the result is a proper prefix without separator, followed in the name by a dot and then no other dot; when it has none, the whole file name |
| `ResourceNames.EqualsIgnoreCase` | src/Tests/SonarAnalyzer.UnitTest/ResourceTests/GeneratedResourcesTest.cs:86 | true exactly when both strings have the same length and agree at every position after upper-casing |
| `ResourceNames.IsHtmlFile` | src/Tests/SonarAnalyzer.UnitTest/ResourceTests/GeneratedResourcesTest.cs:84-87 | a path is an html file exactly when its extension, lower-cased, is ".html" |
| `ResourceNames.UpperCaseExtensionIsHtml` | src/Tests/SonarAnalyzer.UnitTest/ResourceTests/GeneratedResourcesTest.cs:84-87 | any name ending in ".HTML", such as "S1234_vb.net.HTML", is an html file: the comparison ignores case |
| `ResourceNames.ExtensionOfSuffix` | src/Tests/SonarAnalyzer.UnitTest/ResourceTests/GeneratedResourcesTest.cs:84-87 | a path ending in a dot and a non-empty tail without dot or separator has exactly that extension |
| `ResourceNames.FileNameWithoutExtensionOfPath` | src/Tests/SonarAnalyzer.UnitTest/ResourceTests/GeneratedResourcesTest.cs:58-59 | a directory, a stem without separator (dots allowed) and an extension give back the stem |
| `ResourceNames.DigitRunEnd` | src/Tests/SonarAnalyzer.UnitTest/ResourceTests/GeneratedResourcesTest.cs:79 | the greedy `\d+`: the end of the maximal run of digits from a position |
| `ResourceNames.OccursAtIff` | src/Tests/SonarAnalyzer.UnitTest/ResourceTests/GeneratedResourcesTest.cs:79 | the pattern matches at a position exactly when an 'S' there is followed by a non-empty maximal digit run and then '_' |
| `ResourceNames.OccursAtUnique` | src/Tests/SonarAnalyzer.UnitTest/ResourceTests/GeneratedResourcesTest.cs:79 | for a given start the captured group can end in only one place |
| `ResourceNames.MatchAt` | src/Tests/SonarAnalyzer.UnitTest/ResourceTests/GeneratedResourcesTest.cs:79 | trying the pattern at one position succeeds exactly when it matches there, with the group's end |
| `ResourceNames.FindFrom` | src/Tests/SonarAnalyzer.UnitTest/ResourceTests/GeneratedResourcesTest.cs:79-81 | the search finds nothing exactly when there is no match at or after the start; otherwise it returns the group of the leftmost match |
| `ResourceNames.RuleFromFileName` | src/Tests/SonarAnalyzer.UnitTest/ResourceTests/GeneratedResourcesTest.cs:76-82 | null exactly when no "S, digits, _" occurs in the name; otherwise an 'S' and one or more digits, found in the name right before '_' at the leftmost match |
| `ResourceNames.RuleFromFileNameRoundTrip` | src/Tests/SonarAnalyzer.UnitTest/ResourceTests/GeneratedResourcesTest.cs:78-81 | for any id "S" + digits and any tag, the id is recovered from id + "_" + tag, as for S1234_c# and S1234_vb.net |
| `GeneratedResources.RuleNameFromAttributes` | src/Tests/SonarAnalyzer.UnitTest/ResourceTests/GeneratedResourcesTest.cs:67-74 | the key of the first rule attribute, and null exactly when the type has no rule attribute |
| `GeneratedResources.IsRuleClass` | src/Tests/SonarAnalyzer.UnitTest/ResourceTests/GeneratedResourcesTest.cs:39-50 | a type passes the three filters exactly when it is a rule analyzer, is not abstract and is not a utility analyzer |
| `GeneratedResources.Select` | src/Tests/SonarAnalyzer.UnitTest/ResourceTests/GeneratedResourcesTest.cs:58-60 | every key produced comes from a kept element, and every kept element's key is produced |
| `GeneratedResources.SelectPermutation` | src/Tests/SonarAnalyzer.UnitTest/ResourceTests/GeneratedResourcesTest.cs:56-60 | reordering the input does not change the multiset of selected keys |
| `GeneratedResources.OrderedSelect` | src/Tests/SonarAnalyzer.UnitTest/ResourceTests/GeneratedResourcesTest.cs:38-44 | the result is sorted, is a permutation of the selected keys, and holds exactly the keys of kept elements |
| `GeneratedResources.RulesFromClasses` | src/Tests/SonarAnalyzer.UnitTest/ResourceTests/GeneratedResourcesTest.cs:36-45 | the result is sorted and holds exactly the rule keys (or null) of the non-abstract, non-utility rule analyzers |
| `GeneratedResources.RulesFromResources` | src/Tests/SonarAnalyzer.UnitTest/ResourceTests/GeneratedResourcesTest.cs:52-65 | the result is sorted and holds exactly the rule ids (or null) of the html files |
| `GeneratedResources.CoveragePasses` | src/Tests/SonarAnalyzer.UnitTest/ResourceTests/GeneratedResourcesTest.cs:17-34 | the coverage test passes exactly when the sorted ids from classes equal the sorted ids from resources |
| `GeneratedResources.CollectionsEqual` | src/Tests/SonarAnalyzer.UnitTest/ResourceTests/GeneratedResourcesTest.cs:23 | the element-by-element comparison holds exactly when the two lists are equal |
| `GeneratedResources.CoveragePassesIffSameIds` | src/Tests/SonarAnalyzer.UnitTest/ResourceTests/GeneratedResourcesTest.cs:17-24 | the coverage assertion passes exactly when classes and resources give the same multiset of ids |
| `GeneratedResources.OrderedSelectAppend` | src/Tests/SonarAnalyzer.UnitTest/ResourceTests/GeneratedResourcesTest.cs:38-44 | an element that is not kept adds nothing; a kept element adds exactly one entry, its key |
| `GeneratedResources.ResourcesIndependentOfOrder` | src/Tests/SonarAnalyzer.UnitTest/ResourceTests/GeneratedResourcesTest.cs:56-62 | the order in which the directory lists its files does not change the result |
| `GeneratedResources.ResourcesOneEntryPerHtmlFile` | src/Tests/SonarAnalyzer.UnitTest/ResourceTests/GeneratedResourcesTest.cs:58-62 | a non-html file adds nothing; an html file adds exactly one entry, its rule id or null |
| `GeneratedResources.ClassesIndependentOfOrder` | src/Tests/SonarAnalyzer.UnitTest/ResourceTests/GeneratedResourcesTest.cs:38-44 | the order in which the types are listed does not change the result |
| `GeneratedResources.ClassesOneEntryPerRuleClass` | src/Tests/SonarAnalyzer.UnitTest/ResourceTests/GeneratedResourcesTest.cs:38-42 | an abstract, utility or non-analyzer type adds nothing; a rule class adds exactly one entry, its first rule key or null |
| `GeneratedResources.DocumentationPageYieldsRule` | src/Tests/SonarAnalyzer.UnitTest/ResourceTests/GeneratedResourcesTest.cs:58-60 | a page named id + "_" + tag + extension, under any directory, stands for that id |

## Left out

- Rule registration and dispatch are left out: the generated-code filter, the `DiagnosticDescriptor`s, help links, the `SupportedDiagnostics` property and the resource managers. The three callbacks of S1186 are modelled as one function dispatching on the node kind.
- Semantic-model queries are inputs, not models: declared symbols, symbol info, type info, constant values and the test-compilation flag. The external `IsInType` and `Is` helpers are taken to mean "belongs to, or is, System.String", and false for a null symbol.
- Source locations are reduced to line, column and length.
- `EmptyMethod.ThrowFix`: models only the fix's effect on the body, as the fixed fixture shows. The code-fix provider is not part of this model, and neither is its comment fix.
- Reflection and the file system are left out (`GetTypes`, custom attributes, `Directory.GetFiles`, `Path.GetFullPath`). Their results are input sequences, in any order.
- Only the one pattern `(S\d+)_.*` is modelled, not a general regex engine. `\d` is taken as an ASCII digit, while .NET also accepts other Unicode decimal digits.
- The default, culture-sensitive string order of `OrderBy` is replaced by ordinal order, with null first. Characters are compared as Unicode scalar values, not UTF-16 code units. Stability of the sort cannot be observed, because equal keys are identical.
- `OrdinalIgnoreCase` is modelled as ASCII case folding. This is exact for the comparison with ".html".
- The path functions follow the .NET Framework rules, with separators '\\', '/' and ':'. The exceptions these functions throw on invalid path characters are not modelled.
- `Common.FormatOne`: substitutes the "{0}" placeholder only. It copies any other brace, including a lone `{` or `}` for which `string.Format` throws a FormatException, and it does not model escaped braces or other placeholders. None of the modelled formats has any brace besides "{0}".
- `EnumerationName.cs` is left out: it only calls an external name checker that is not modelled.
- `EmptyMethodTest.cs` and `InvalidSyntax.cs` are left out: they only wire fixtures into the external test verifier, or feed it malformed text.
