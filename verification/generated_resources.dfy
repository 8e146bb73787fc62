/**
 The coverage check between the rule classes of an analyzer assembly and the
 rule documentation resources: both sides become a sorted list of rule ids
 (null where none can be found), and the check passes when the two lists are
 equal element by element.

 Reflection and the file system are not modelled: the assembly is given as a
 sequence of type records and the resource directory as a sequence of paths,
 in whatever order they are enumerated.
 */
module GeneratedResources {
  import opened Common
  import opened Ordinal
  import opened ResourceNames

  /** What reflection tells about a type of the analyzer assembly. */
  datatype AnalyzerType = AnalyzerType(
    isDiagnosticAnalyzer: bool,   // assignable to the rule analyzer base class
    isAbstract: bool,
    isUtilityAnalyzer: bool,      // assignable to the utility analyzer base class
    ruleAttributeKeys: seq<string>)

  /** Keeps the elements satisfying `keep`, mapped by `key`, in order: the Where/Select part of a query. */
  function Select<T>(s: seq<T>, keep: T -> bool, key: T -> Key): (r: seq<Key>)
    ensures |r| <= |s|
    ensures forall k :: k in r ==> exists x :: x in s && keep(x) && key(x) == k
    ensures forall x :: x in s && keep(x) ==> key(x) in r
  {
    if |s| == 0 then []
    else (if keep(s[0]) then [key(s[0])] else []) + Select(s[1..], keep, key)
  }

  lemma {:induction false} SelectAppend<T>(a: seq<T>, b: seq<T>, keep: T -> bool, key: T -> Key)
    ensures Select(a + b, keep, key) == Select(a, keep, key) + Select(b, keep, key)
  {
    if |a| > 0 {
      assert (a + b)[1..] == a[1..] + b;
      SelectAppend(a[1..], b, keep, key);
    } else {
      assert a + b == b;
    }
  }

  /** The selected keys depend only on which elements there are, not on the order they come in. */
  lemma {:induction false} SelectPermutation<T>(a: seq<T>, b: seq<T>, keep: T -> bool, key: T -> Key)
    requires multiset(a) == multiset(b)
    ensures multiset(Select(a, keep, key)) == multiset(Select(b, keep, key))
    decreases |a|
  {
    if |a| == 0 {
      assert |multiset(b)| == 0;
    } else {
      assert a[0] in multiset(b);
      var k :| 0 <= k < |b| && b[k] == a[0];
      var rest := b[..k] + b[k + 1..];
      assert b == b[..k] + [b[k]] + b[k + 1..];
      assert a == [a[0]] + a[1..];
      assert multiset(a[1..]) == multiset(rest) by {
        assert multiset(b) == multiset(b[..k]) + multiset{b[k]} + multiset(b[k + 1..]);
        assert multiset(a) == multiset{a[0]} + multiset(a[1..]);
        assert multiset(rest) == multiset(b[..k]) + multiset(b[k + 1..]);
        assert multiset(a[1..]) == multiset(a) - multiset{a[0]};
        assert multiset(rest) == multiset(b) - multiset{b[k]};
      }
      SelectPermutation(a[1..], rest, keep, key);
      SelectAppend(b[..k] + [b[k]], b[k + 1..], keep, key);
      SelectAppend(b[..k], [b[k]], keep, key);
      SelectAppend(b[..k], b[k + 1..], keep, key);
      SelectAppend([a[0]], a[1..], keep, key);
    }
  }

  /** The first rule attribute's key, or null when the type has none. */
  function RuleNameFromAttributes(t: AnalyzerType): (r: Key)
    ensures r.Some? <==> |t.ruleAttributeKeys| > 0
    ensures r.Some? ==> r.value == t.ruleAttributeKeys[0]
  {
    if |t.ruleAttributeKeys| == 0 then None else Some(t.ruleAttributeKeys[0])
  }

  /** The third filter: types that are not utility analyzers. */
  predicate IsNotUtilityAnalyzer(t: AnalyzerType) {
    !t.isUtilityAnalyzer
  }

  /** The three filters in turn: rule analyzers, then non-abstract ones, then those that are not utility analyzers. */
  function IsRuleClass(t: AnalyzerType): (r: bool)
    ensures r ==> t.isDiagnosticAnalyzer
    ensures r ==> !t.isAbstract
    ensures r ==> IsNotUtilityAnalyzer(t)
    ensures t.isDiagnosticAnalyzer && !t.isAbstract && IsNotUtilityAnalyzer(t) ==> r
  {
    if !t.isDiagnosticAnalyzer then false
    else if t.isAbstract then false
    else IsNotUtilityAnalyzer(t)
  }

  /** The rule id a documentation resource stands for, from its file name without extension. */
  function RuleFromResource(path: string): Key {
    RuleFromFileName(FileNameWithoutExtension(path))
  }

  /** Where/Select followed by OrderBy: the kept elements' keys, sorted. */
  function OrderedSelect<T>(s: seq<T>, keep: T -> bool, key: T -> Key): (r: seq<Key>)
    ensures Sorted(r)
    ensures multiset(r) == multiset(Select(s, keep, key))
    ensures forall k :: k in r <==> exists x :: x in s && keep(x) && key(x) == k
  {
    var ids := Select(s, keep, key);
    var r := Sort(ids);
    assert forall k :: k in r <==> k in ids by {
      forall k ensures k in r <==> k in ids {
        assert k in r <==> k in multiset(r);
        assert k in ids <==> k in multiset(ids);
      }
    }
    r
  }

  /** The sorted rule ids of the rule classes of an assembly. */
  function RulesFromClasses(types: seq<AnalyzerType>): (r: seq<Key>)
    ensures Sorted(r)
    ensures forall k :: k in r <==> exists t :: t in types && IsRuleClass(t) && RuleNameFromAttributes(t) == k
  {
    OrderedSelect(types, IsRuleClass, RuleNameFromAttributes)
  }

  /** The sorted rule ids of the html files of a resource directory. */
  function RulesFromResources(files: seq<string>): (r: seq<Key>)
    ensures Sorted(r)
    ensures forall k :: k in r <==> exists f :: f in files && IsHtmlFile(f) && RuleFromResource(f) == k
  {
    OrderedSelect(files, IsHtmlFile, RuleFromResource)
  }

  /** Element-by-element equality of two lists, as the collection assertion performs it. */
  function CollectionsEqual(expected: seq<Key>, actual: seq<Key>): (r: bool)
    ensures r <==> expected == actual
  {
    if |expected| != |actual| then false
    else if |expected| == 0 then true
    else
      assert expected == [expected[0]] + expected[1..] && actual == [actual[0]] + actual[1..];
      expected[0] == actual[0] && CollectionsEqual(expected[1..], actual[1..])
  }

  /** The coverage test: the rule classes and the documentation resources give the same sorted ids. */
  function CoveragePasses(types: seq<AnalyzerType>, files: seq<string>): (r: bool)
    ensures r <==> RulesFromClasses(types) == RulesFromResources(files)
  {
    CollectionsEqual(RulesFromClasses(types), RulesFromResources(files))
  }

  /** The coverage test passes exactly when both sides hold the same ids, each as many times. */
  lemma CoveragePassesIffSameIds(types: seq<AnalyzerType>, files: seq<string>)
    ensures CoveragePasses(types, files) <==>
      multiset(Select(types, IsRuleClass, RuleNameFromAttributes)) == multiset(Select(files, IsHtmlFile, RuleFromResource))
  {
    var a := RulesFromClasses(types);
    var b := RulesFromResources(files);
    if multiset(a) == multiset(b) {
      SortedUnique(a, b);
    }
  }

  /** The order of the input does not matter. */
  lemma OrderedSelectPermutation<T>(a: seq<T>, b: seq<T>, keep: T -> bool, key: T -> Key)
    requires multiset(a) == multiset(b)
    ensures OrderedSelect(a, keep, key) == OrderedSelect(b, keep, key)
  {
    SelectPermutation(a, b, keep, key);
    SortedUnique(OrderedSelect(a, keep, key), OrderedSelect(b, keep, key));
  }

  /** An element that is not kept adds nothing; a kept one adds exactly its key. */
  lemma OrderedSelectAppend<T>(s: seq<T>, x: T, keep: T -> bool, key: T -> Key)
    ensures !keep(x) ==> OrderedSelect(s + [x], keep, key) == OrderedSelect(s, keep, key)
    ensures keep(x) ==> multiset(OrderedSelect(s + [x], keep, key)) == multiset(OrderedSelect(s, keep, key)) + multiset{key(x)}
    ensures keep(x) ==> |OrderedSelect(s + [x], keep, key)| == |OrderedSelect(s, keep, key)| + 1
  {
    SelectAppend(s, [x], keep, key);
    assert Select([x], keep, key) == if keep(x) then [key(x)] else [];
    if keep(x) {
      assert |multiset(OrderedSelect(s + [x], keep, key))| == |multiset(OrderedSelect(s, keep, key))| + 1;
    } else {
      SortedUnique(OrderedSelect(s + [x], keep, key), OrderedSelect(s, keep, key));
    }
  }

  /** The order in which the directory lists its files does not matter. */
  lemma ResourcesIndependentOfOrder(files: seq<string>, files': seq<string>)
    requires multiset(files) == multiset(files')
    ensures RulesFromResources(files) == RulesFromResources(files')
  {
    OrderedSelectPermutation(files, files', IsHtmlFile, RuleFromResource);
  }

  /** A file that is not an html file adds nothing; an html file adds exactly one entry, its rule id (possibly null). */
  lemma ResourcesOneEntryPerHtmlFile(files: seq<string>, f: string)
    ensures !IsHtmlFile(f) ==> RulesFromResources(files + [f]) == RulesFromResources(files)
    ensures IsHtmlFile(f) ==> multiset(RulesFromResources(files + [f])) == multiset(RulesFromResources(files)) + multiset{RuleFromResource(f)}
    ensures IsHtmlFile(f) ==> |RulesFromResources(files + [f])| == |RulesFromResources(files)| + 1
  {
    OrderedSelectAppend(files, f, IsHtmlFile, RuleFromResource);
  }

  /** The order in which reflection lists the types does not matter. */
  lemma ClassesIndependentOfOrder(types: seq<AnalyzerType>, types': seq<AnalyzerType>)
    requires multiset(types) == multiset(types')
    ensures RulesFromClasses(types) == RulesFromClasses(types')
  {
    OrderedSelectPermutation(types, types', IsRuleClass, RuleNameFromAttributes);
  }

  /** An abstract, utility or non-analyzer type adds nothing; a rule class adds exactly its rule key (possibly null). */
  lemma ClassesOneEntryPerRuleClass(types: seq<AnalyzerType>, t: AnalyzerType)
    ensures !IsRuleClass(t) ==> RulesFromClasses(types + [t]) == RulesFromClasses(types)
    ensures IsRuleClass(t) ==> multiset(RulesFromClasses(types + [t])) == multiset(RulesFromClasses(types)) + multiset{RuleNameFromAttributes(t)}
    ensures IsRuleClass(t) ==> |RulesFromClasses(types + [t])| == |RulesFromClasses(types)| + 1
  {
    OrderedSelectAppend(types, t, IsRuleClass, RuleNameFromAttributes);
  }

  /** A documentation page named after its rule and language, under any directory, yields that rule id. */
  lemma DocumentationPageYieldsRule(dir: string, id: string, tag: string, ext: string)
    requires dir == [] || IsSeparator(dir[|dir| - 1])
    requires IsRuleId(id)
    requires forall k :: 0 <= k < |tag| ==> !IsSeparator(tag[k])
    requires |ext| >= 2 && ext[0] == '.'
    requires forall k :: 0 < k < |ext| ==> !IsDot(ext[k]) && !IsSeparator(ext[k])
    ensures RuleFromResource(dir + (id + "_" + tag) + ext) == Some(id)
  {
    var stem := id + "_" + tag;
    forall k | 0 <= k < |stem| ensures !IsSeparator(stem[k]) {
      if k < |id| {
        if k > 0 { assert id[1..][k - 1] == id[k]; }
      } else if k > |id| {
        assert stem[k] == tag[k - |id| - 1];
      }
    }
    FileNameWithoutExtensionOfPath(dir, stem, ext);
    RuleFromFileNameRoundTrip(id, tag);
  }
}
