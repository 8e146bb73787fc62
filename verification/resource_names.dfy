/**
 File names of the rule documentation resources: the path functions the
 resource pipeline uses (file name, extension, file name without extension,
 with the Windows separators '\\', '/' and ':'), the case-insensitive ".html"
 test, and the rule id found in a file name by the pattern (S\d+)_.* with
 \d taken as an ASCII digit.
 */
module ResourceNames {
  import opened Common

  predicate IsSeparator(c: char) {
    c == '\\' || c == '/' || c == ':'
  }

  predicate IsDot(c: char) {
    c == '.'
  }

  predicate IsDigit(c: char) {
    '0' <= c <= '9'
  }

  /** The index of the last character of `s` satisfying `f`, or -1 when there is none. */
  function LastIndexWhere(s: string, f: char -> bool): (r: int)
    ensures -1 <= r < |s|
    ensures r >= 0 ==> f(s[r])
    ensures forall k :: r < k < |s| ==> !f(s[k])
  {
    if |s| == 0 then -1
    else if f(s[|s| - 1]) then |s| - 1
    else LastIndexWhere(s[..|s| - 1], f)
  }

  /** The last index satisfying `f` is the one after which no character does. */
  lemma LastIndexWhereIs(s: string, f: char -> bool, k: int)
    requires -1 <= k < |s|
    requires k >= 0 ==> f(s[k])
    requires forall j :: k < j < |s| ==> !f(s[j])
    ensures LastIndexWhere(s, f) == k
  {
  }

  /** The last path component: what follows the last separator. */
  function FileName(path: string): (r: string)
    ensures forall k :: 0 <= k < |r| ==> !IsSeparator(r[k])
    ensures |r| <= |path| && r == path[|path| - |r|..]
    ensures |r| < |path| ==> IsSeparator(path[|path| - |r| - 1])
  {
    path[LastIndexWhere(path, IsSeparator) + 1..]
  }

  /** The extension, from the last dot of the file name, or "" when there is none or the dot ends the name. */
  function Extension(path: string): (r: string)
    ensures r == [] || (|r| >= 2 && r[0] == '.')
    ensures forall k :: 0 < k < |r| ==> !IsDot(r[k]) && !IsSeparator(r[k])
    ensures |r| <= |path| && r == path[|path| - |r|..]
  {
    var name := FileName(path);
    var i := LastIndexWhere(name, IsDot);
    if i < 0 || i == |name| - 1 then ""
    else
      ExtensionIsTail(path, name, i);
      name[i..]
  }

  /** A tail of a suffix of `path` is a suffix of `path`. */
  lemma SuffixOfSuffix(path: string, n: nat, i: nat)
    requires i <= n <= |path|
    ensures path[|path| - n..][i..] == path[|path| - n + i..]
  {
  }

  /** The tail of the file name from its last dot, when that dot is not the last character. */
  lemma ExtensionIsTail(path: string, name: string, i: nat)
    requires |name| <= |path| && name == path[|path| - |name|..]
    requires forall k :: 0 <= k < |name| ==> !IsSeparator(name[k])
    requires i < |name| - 1 && IsDot(name[i])
    requires forall k :: i < k < |name| ==> !IsDot(name[k])
    ensures |name[i..]| >= 2 && name[i..][0] == '.'
    ensures forall k :: 0 < k < |name[i..]| ==> !IsDot(name[i..][k]) && !IsSeparator(name[i..][k])
    ensures name[i..] == path[|path| - |name[i..]|..]
  {
    var r := name[i..];
    forall k | 0 < k < |r| ensures !IsDot(r[k]) && !IsSeparator(r[k]) {
      assert r[k] == name[i + k];
    }
    SuffixOfSuffix(path, |name|, i);
  }

  /** The file name up to (not including) its last dot. */
  function FileNameWithoutExtension(path: string): (r: string)
    ensures forall k :: 0 <= k < |r| ==> !IsSeparator(r[k])
    ensures |r| <= |FileName(path)| && r == FileName(path)[..|r|]
    ensures (forall k :: 0 <= k < |FileName(path)| ==> !IsDot(FileName(path)[k])) ==> r == FileName(path)
    ensures (exists k :: 0 <= k < |FileName(path)| && IsDot(FileName(path)[k])) ==> |r| < |FileName(path)|
    ensures |r| < |FileName(path)| ==>
      IsDot(FileName(path)[|r|]) && forall k :: |r| < k < |FileName(path)| ==> !IsDot(FileName(path)[k])
  {
    var name := FileName(path);
    var i := LastIndexWhere(name, IsDot);
    if i < 0 then name
    else
      assert forall k :: 0 <= k < i ==> !IsSeparator(name[..i][k]) by {
        forall k | 0 <= k < i ensures !IsSeparator(name[..i][k]) {
          assert name[..i][k] == name[k];
        }
      }
      name[..i]
  }

  function ToUpperAscii(c: char): (r: char)
    ensures 'a' <= c <= 'z' ==> 'A' <= r <= 'Z' && r as int == c as int - 32
    ensures !('a' <= c <= 'z') ==> r == c
  {
    if 'a' <= c <= 'z' then (c as int - 32) as char else c
  }

  function ToLowerAscii(c: char): char {
    if 'A' <= c <= 'Z' then (c as int + 32) as char else c
  }

  /** Case-insensitive ordinal equality, comparing upper-cased characters. */
  function EqualsIgnoreCase(a: string, b: string): (r: bool)
    ensures r <==> |a| == |b| && forall k :: 0 <= k < |a| ==> ToUpperAscii(a[k]) == ToUpperAscii(b[k])
  {
    if |a| != |b| then false
    else if |a| == 0 then true
    else ToUpperAscii(a[0]) == ToUpperAscii(b[0]) && EqualsIgnoreCase(a[1..], b[1..])
  }

  const HtmlExtension := ".html"

  /** Whether the path names an html file: its extension is ".html" ignoring case. */
  function IsHtmlFile(path: string): (r: bool)
    ensures r <==> ToLowerAsciiString(Extension(path)) == HtmlExtension
  {
    EqualsHtmlIgnoreCaseIffLower(Extension(path));
    EqualsIgnoreCase(Extension(path), HtmlExtension)
  }

  /** The string with its ASCII capitals lower-cased. */
  function ToLowerAsciiString(s: string): (r: string)
    ensures |r| == |s|
    ensures forall k :: 0 <= k < |s| ==> r[k] == ToLowerAscii(s[k])
  {
    seq(|s|, k requires 0 <= k < |s| => ToLowerAscii(s[k]))
  }

  /** Against a lower-case letter or a dot, comparing upper-cased characters is comparing the lower-cased one. */
  lemma UpperEqualIffLower(c: char, h: char)
    requires 'a' <= h <= 'z' || h == '.'
    ensures ToUpperAscii(c) == ToUpperAscii(h) <==> ToLowerAscii(c) == h
  {
  }

  /** A string equals ".html" ignoring case exactly when, lower-cased, it is ".html". */
  lemma EqualsHtmlIgnoreCaseIffLower(e: string)
    ensures EqualsIgnoreCase(e, HtmlExtension) <==> ToLowerAsciiString(e) == HtmlExtension
  {
    var lower := ToLowerAsciiString(e);
    if |e| == |HtmlExtension| {
      forall k | 0 <= k < |e| ensures ToUpperAscii(e[k]) == ToUpperAscii(HtmlExtension[k]) <==> lower[k] == HtmlExtension[k] {
        UpperEqualIffLower(e[k], HtmlExtension[k]);
      }
    }
  }

  /** Suffixes free of separators stay in the file name. */
  lemma FileNameKeepsTail(stem: string, ext: string)
    requires forall k :: 0 <= k < |ext| ==> !IsSeparator(ext[k])
    ensures |FileName(stem + ext)| >= |ext|
    ensures FileName(stem + ext)[|FileName(stem + ext)| - |ext|..] == ext
  {
    var path := stem + ext;
    forall j | |stem| <= j < |path| ensures !IsSeparator(path[j]) {
      assert path[j] == ext[j - |stem|];
    }
    var name := FileName(path);
    SuffixOfSuffix(path, |name|, |name| - |ext|);
    assert path[|stem|..] == ext;
  }

  /** A path ending in a dot, then a non-empty tail without dot or separator, has that extension. */
  lemma ExtensionOfSuffix(stem: string, ext: string)
    requires |ext| >= 2 && ext[0] == '.'
    requires forall k :: 0 < k < |ext| ==> !IsDot(ext[k]) && !IsSeparator(ext[k])
    ensures Extension(stem + ext) == ext
  {
    FileNameKeepsTail(stem, ext);
    var name := FileName(stem + ext);
    var n := |name| - |ext|;
    assert name[n..] == ext;
    forall k | n < k < |name| ensures !IsDot(name[k]) {
      assert name[k] == name[n..][k - n];
    }
    assert name[n] == name[n..][0];
    LastIndexWhereIs(name, IsDot, n);
  }

  /** Under a directory ending in a separator, a name without separator is the file name. */
  lemma FileNameOfPath(dir: string, name: string)
    requires dir == [] || IsSeparator(dir[|dir| - 1])
    requires forall k :: 0 <= k < |name| ==> !IsSeparator(name[k])
    ensures FileName(dir + name) == name
  {
    var path := dir + name;
    forall j | |dir| <= j < |path| ensures !IsSeparator(path[j]) {
      assert path[j] == name[j - |dir|];
    }
    if dir == [] {
      LastIndexWhereIs(path, IsSeparator, -1);
    } else {
      LastIndexWhereIs(path, IsSeparator, |dir| - 1);
    }
    assert path[|dir|..] == name;
  }

  const UpperHtmlExtension := ".HTML"

  lemma UpperHtmlExtensionIsTail()
    ensures |UpperHtmlExtension| >= 2 && UpperHtmlExtension[0] == '.'
    ensures forall k :: 0 < k < |UpperHtmlExtension| ==> !IsDot(UpperHtmlExtension[k]) && !IsSeparator(UpperHtmlExtension[k])
  {
  }

  lemma UpperHtmlExtensionLowersToHtml()
    ensures ToLowerAsciiString(UpperHtmlExtension) == HtmlExtension
  {
    var lower := ToLowerAsciiString(UpperHtmlExtension);
    forall k | 0 <= k < |lower| ensures lower[k] == HtmlExtension[k] { }
  }

  /** Any file name ending in ".HTML", such as "S1234_vb.net.HTML", is still an html file. */
  lemma UpperCaseExtensionIsHtml(stem: string)
    ensures IsHtmlFile(stem + UpperHtmlExtension)
  {
    UpperHtmlExtensionIsTail();
    ExtensionOfSuffix(stem, UpperHtmlExtension);
    UpperHtmlExtensionLowersToHtml();
  }

  /** A file stem without separator, under any directory, followed by an extension, is given back by FileNameWithoutExtension. */
  lemma FileNameWithoutExtensionOfPath(dir: string, stem: string, ext: string)
    requires dir == [] || IsSeparator(dir[|dir| - 1])
    requires forall k :: 0 <= k < |stem| ==> !IsSeparator(stem[k])
    requires |ext| >= 1 && ext[0] == '.'
    requires forall k :: 0 < k < |ext| ==> !IsDot(ext[k]) && !IsSeparator(ext[k])
    ensures FileNameWithoutExtension(dir + stem + ext) == stem
  {
    var name := stem + ext;
    assert dir + stem + ext == dir + name;
    forall j | 0 <= j < |name| ensures !IsSeparator(name[j]) && (j > |stem| ==> !IsDot(name[j])) {
      if j >= |stem| {
        assert name[j] == ext[j - |stem|];
      } else {
        assert name[j] == stem[j];
      }
    }
    FileNameOfPath(dir, name);
    LastIndexWhereIs(name, IsDot, |stem|);
    assert name[..|stem|] == stem;
  }

  ghost predicate AllDigits(t: string) {
    forall k :: 0 <= k < |t| ==> IsDigit(t[k])
  }

  /** A rule id: 'S' followed by one or more digits. */
  ghost predicate IsRuleId(t: string) {
    |t| >= 2 && t[0] == 'S' && AllDigits(t[1..])
  }

  /** The pattern S\d+_ matches at `i`, its group (S\d+) ending at `j`. */
  ghost predicate OccursAt(s: string, i: int, j: int) {
    0 <= i < j < |s| && IsRuleId(s[i..j]) && s[j] == '_'
  }

  /** The end of the run of digits that starts at `i`. */
  function DigitRunEnd(s: string, i: nat): (j: nat)
    requires i <= |s|
    ensures i <= j <= |s|
    ensures forall k :: i <= k < j ==> IsDigit(s[k])
    ensures j == |s| || !IsDigit(s[j])
    decreases |s| - i
  {
    if i < |s| && IsDigit(s[i]) then DigitRunEnd(s, i + 1) else i
  }

  /** A run of digits ending at `j` (end of input or a non-digit) is the run DigitRunEnd finds. */
  lemma {:induction false} DigitRunEndIs(s: string, i: nat, j: nat)
    requires i <= j <= |s|
    requires forall k :: i <= k < j ==> IsDigit(s[k])
    requires j == |s| || !IsDigit(s[j])
    ensures DigitRunEnd(s, i) == j
    decreases j - i
  {
    if i < j {
      DigitRunEndIs(s, i + 1, j);
    }
  }

  /** The pattern matches at `i` exactly when `i` holds an 'S' whose digit run is non-empty and followed by '_'. */
  lemma OccursAtIff(s: string, i: nat, j: int)
    requires i <= |s|
    ensures OccursAt(s, i, j) <==>
      i < |s| && s[i] == 'S' && j == DigitRunEnd(s, i + 1) && i + 1 < j < |s| && s[j] == '_'
  {
    if OccursAt(s, i, j) {
      forall k | i + 1 <= k < j ensures IsDigit(s[k]) {
        assert s[i..j][1..][k - i - 1] == s[k];
      }
      DigitRunEndIs(s, i + 1, j);
    }
    if i < |s| && s[i] == 'S' && j == DigitRunEnd(s, i + 1) && i + 1 < j < |s| && s[j] == '_' {
      assert s[i..j][1..] == s[i + 1..j];
    }
  }

  /** For a given start, the group can end in only one place: the '_' cannot be a digit. */
  lemma OccursAtUnique(s: string, i: nat, j1: int, j2: int)
    requires i <= |s|
    requires OccursAt(s, i, j1) && OccursAt(s, i, j2)
    ensures j1 == j2
  {
    OccursAtIff(s, i, j1);
    OccursAtIff(s, i, j2);
  }

  /** Tries the pattern at `i`; \d+ is greedy and the '_' that must follow cannot be a digit. */
  function MatchAt(s: string, i: nat): (r: Option<nat>)
    requires i <= |s|
    ensures r.Some? ==> OccursAt(s, i, r.value)
    ensures r.None? ==> forall j :: !OccursAt(s, i, j)
  {
    assert forall j :: OccursAt(s, i, j) <==>
      i < |s| && s[i] == 'S' && j == DigitRunEnd(s, i + 1) && i + 1 < j < |s| && s[j] == '_' by {
      forall j ensures OccursAt(s, i, j) <==>
        i < |s| && s[i] == 'S' && j == DigitRunEnd(s, i + 1) && i + 1 < j < |s| && s[j] == '_' {
        OccursAtIff(s, i, j);
      }
    }
    if i < |s| && s[i] == 'S' then
      var j := DigitRunEnd(s, i + 1);
      if j > i + 1 && j < |s| && s[j] == '_' then Some(j) else None
    else
      None
  }

  /** The leftmost match at or after `i`. */
  function FindFrom(s: string, i: nat): (r: Option<string>)
    requires i <= |s|
    ensures r.None? ==> forall k, j :: i <= k ==> !OccursAt(s, k, j)
    ensures r.Some? ==> exists k, j :: i <= k && OccursAt(s, k, j) && r.value == s[k..j]
                                     && forall k', j' :: i <= k' < k ==> !OccursAt(s, k', j')
    decreases |s| - i
  {
    if i == |s| then None
    else
      match MatchAt(s, i)
      case Some(j) => Some(s[i..j])
      case None => FindFrom(s, i + 1)
  }

  /** The rule id of a documentation file name: the group of the leftmost match of (S\d+)_.*, or None (null). */
  function RuleFromFileName(fileName: string): (r: Option<string>)
    ensures r.None? <==> forall i, j :: !OccursAt(fileName, i, j)
    ensures r.Some? ==> IsRuleId(r.value)
    ensures r.Some? ==> exists i, j :: OccursAt(fileName, i, j) && r.value == fileName[i..j]
                                     && forall i', j' :: OccursAt(fileName, i', j') ==> i <= i'
  {
    FindFromStartIsLeftmost(fileName);
    FindFrom(fileName, 0)
  }

  lemma FindFromStartIsLeftmost(s: string)
    ensures FindFrom(s, 0).Some? ==> exists i, j :: OccursAt(s, i, j) && FindFrom(s, 0).value == s[i..j]
                                                   && forall i', j' :: OccursAt(s, i', j') ==> i <= i'
  {
    var r := FindFrom(s, 0);
    if r.Some? {
      var i, j :| 0 <= i && OccursAt(s, i, j) && r.value == s[i..j]
                  && forall k', j' :: 0 <= k' < i ==> !OccursAt(s, k', j');
      assert forall i', j' :: OccursAt(s, i', j') ==> i <= i';
    }
  }

  /** Round trip: an id followed by '_' and any tag gives the id back, as for S1234_c# and S1234_vb.net. */
  lemma {:induction false} RuleFromFileNameRoundTrip(id: string, tag: string)
    requires IsRuleId(id)
    ensures RuleFromFileName(id + "_" + tag) == Some(id)
  {
    var s := id + "_" + tag;
    assert s[0..|id|] == id;
    assert OccursAt(s, 0, |id|);
    var r := RuleFromFileName(s);
    var i, j :| OccursAt(s, i, j) && r.value == s[i..j] && forall i', j' :: OccursAt(s, i', j') ==> i <= i';
    assert i == 0;
    OccursAtUnique(s, 0, j, |id|);
  }
}
