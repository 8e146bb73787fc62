/**
 Shared vocabulary of the analyzer rules: optional values, source locations,
 diagnostics as they reach the diagnostic sink, and the one-argument message
 formatting the rules use.
 */
module Common {

  /** Some/None, standing for a reference that may be null. */
  datatype Option<+T> = None | Some(value: T)

  /** A span of the analysed file: the line and column where it starts, and its length. */
  datatype Location = Location(line: nat, column: nat, length: nat)

  /** A diagnostic as reported to the sink: rule id, primary location and formatted message. */
  datatype Diagnostic = Diagnostic(ruleId: string, location: Location, message: string)

  /** Substitutes `arg` for every "{0}" placeholder of `fmt`; every other character is copied. */
  function FormatOne(fmt: string, arg: string): (r: string)
    ensures forall c :: c in r ==> c in fmt || c in arg
  {
    if |fmt| == 0 then ""
    else if |fmt| >= 3 && fmt[..3] == "{0}" then arg + FormatOne(fmt[3..], arg)
    else [fmt[0]] + FormatOne(fmt[1..], arg)
  }

  /** A format without any opening brace is copied unchanged. */
  lemma {:induction false} FormatOneNoPlaceholder(s: string, arg: string)
    requires '{' !in s
    ensures FormatOne(s, arg) == s
  {
    if |s| > 0 {
      assert s[0] != '{';
      assert '{' !in s[1..] by {
        forall k | 0 <= k < |s[1..]| ensures s[1..][k] != '{' {
          assert s[1..][k] == s[k + 1];
        }
      }
      FormatOneNoPlaceholder(s[1..], arg);
    }
  }

  /** Two strings without an opening brace concatenate to one without. */
  lemma NoBraceConcat(a: string, b: string)
    requires '{' !in a && '{' !in b
    ensures '{' !in a + b
  {
  }

  /** A format with exactly one placeholder, and no other brace, splices the argument in. */
  lemma {:induction false} FormatOneSplice(prefix: string, suffix: string, arg: string)
    requires '{' !in prefix && '{' !in suffix
    ensures FormatOne(prefix + "{0}" + suffix, arg) == prefix + arg + suffix
  {
    if |prefix| == 0 {
      var f := "{0}" + suffix;
      assert prefix + "{0}" + suffix == f;
      assert f[..3] == "{0}";
      assert f[3..] == suffix;
      FormatOneNoPlaceholder(suffix, arg);
    } else {
      var f := prefix + "{0}" + suffix;
      assert f[0] == prefix[0] && prefix[0] != '{';
      assert f[1..] == prefix[1..] + "{0}" + suffix;
      assert '{' !in prefix[1..] by {
        forall k | 0 <= k < |prefix[1..]| ensures prefix[1..][k] != '{' {
          assert prefix[1..][k] == prefix[k + 1];
        }
      }
      assert !(|f| >= 3 && f[..3] == "{0}") by {
        if |f| >= 3 { assert f[..3][0] == f[0]; }
      }
      assert FormatOne(f, arg) == [f[0]] + FormatOne(f[1..], arg);
      FormatOneSplice(prefix[1..], suffix, arg);
      assert [prefix[0]] + (prefix[1..] + arg + suffix) == prefix + arg + suffix;
    }
  }
}
