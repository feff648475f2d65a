/** The text cleaner of src/text_cleanup.rs: removes configured regular-expression matches
    from track, artist and album names, then trims surrounding whitespace.
    The regular-expression engine is not modelled: a compiled pattern is an opaque
    "remove every match" function, and compilation is a partial function supplied by the caller. */
module TextCleanup {
  import opened Wrappers
  import Config

  /** A compiled regular expression, seen only through `replace_all(text, "")`. */
  datatype Regex = Regex(removeAll: string -> string)

  /** `Regex::new`: `None` when the pattern does not compile. */
  type Compiler = string -> Option<Regex>

  // ---------------------------------------------------------------------------
  // Whitespace and `str::trim`

  /** Rust's `char::is_whitespace`: the Unicode White_Space property. */
  predicate IsWhitespace(c: char) {
    || '\t' <= c <= '\r'
    || c == ' '
    || c == '\U{85}'
    || c == '\U{A0}'
    || c == '\U{1680}'
    || '\U{2000}' <= c <= '\U{200A}'
    || c == '\U{2028}'
    || c == '\U{2029}'
    || c == '\U{202F}'
    || c == '\U{205F}'
    || c == '\U{3000}'
  }

  /** How many characters `str::trim_start` drops: the length of the all-whitespace prefix. */
  function LeadingWhitespace(s: string): (n: nat)
    ensures n <= |s|
    ensures forall k :: 0 <= k < n ==> IsWhitespace(s[k])
    ensures n < |s| ==> !IsWhitespace(s[n])
  {
    if |s| > 0 && IsWhitespace(s[0]) then 1 + LeadingWhitespace(s[1..]) else 0
  }

  /** Where `str::trim_end` cuts: the start of the all-whitespace suffix. */
  function TrailingWhitespaceStart(s: string): (n: nat)
    ensures n <= |s|
    ensures forall k :: n <= k < |s| ==> IsWhitespace(s[k])
    ensures n > 0 ==> !IsWhitespace(s[n - 1])
  {
    if |s| > 0 && IsWhitespace(s[|s| - 1]) then TrailingWhitespaceStart(s[..|s| - 1]) else |s|
  }

  /** `str::trim`: the result is a slice of the input, everything cut off is whitespace,
      and the result neither starts nor ends with whitespace. */
  function Trim(s: string): (r: string)
    ensures exists i, j :: 0 <= i <= j <= |s| && r == s[i..j]
                           && (forall k :: 0 <= k < i ==> IsWhitespace(s[k]))
                           && (forall k :: j <= k < |s| ==> IsWhitespace(s[k]))
    ensures |r| > 0 ==> !IsWhitespace(r[0]) && !IsWhitespace(r[|r| - 1])
  {
    var i := LeadingWhitespace(s);
    var j := if i == |s| then i else TrailingWhitespaceStart(s);
    assert i <= j;
    s[i..j]
  }

  // ---------------------------------------------------------------------------
  // Applying patterns

  /** The result of removing the matches of each pattern in turn, first pattern first. */
  function ApplyAll(patterns: seq<Regex>, text: string): string
    decreases |patterns|
  {
    if |patterns| == 0 then text
    else patterns[|patterns| - 1].removeAll(ApplyAll(patterns[..|patterns| - 1], text))
  }

  /** Patterns apply strictly in list order: a list split in two is the first half, then the second. */
  lemma {:induction false} ApplyAllInOrder(first: seq<Regex>, second: seq<Regex>, text: string)
    ensures ApplyAll(first + second, text) == ApplyAll(second, ApplyAll(first, text))
    decreases |second|
  {
    if |second| == 0 {
      assert first + second == first;
    } else {
      var n := |second| - 1;
      assert (first + second)[..|first + second| - 1] == first + second[..n];
      ApplyAllInOrder(first, second[..n], text);
    }
  }

  /** The first pattern removes its matches from the raw text; the others work on what is left. */
  lemma FirstPatternFirst(patterns: seq<Regex>, text: string)
    requires |patterns| > 0
    ensures ApplyAll(patterns, text) == ApplyAll(patterns[1..], patterns[0].removeAll(text))
  {
    assert patterns == [patterns[0]] + patterns[1..];
    ApplyAllInOrder([patterns[0]], patterns[1..], text);
    assert ApplyAll([patterns[0]], text) == patterns[0].removeAll(ApplyAll([], text));
  }

  // ---------------------------------------------------------------------------
  // Compiling patterns

  /** The `filter_map` over the configured patterns: those that fail to compile are dropped. */
  function CompileAll(sources: seq<string>, compile: Compiler): (r: seq<Regex>)
    ensures |r| <= |sources|
  {
    if |sources| == 0 then []
    else
      var head := match compile(sources[0]) { case Some(re) => [re] case None => [] };
      head + CompileAll(sources[1..], compile)
  }

  /** Every surviving pattern is the compilation of a configured one. */
  lemma {:induction false} CompileAllSurvivors(sources: seq<string>, compile: Compiler)
    ensures forall k :: 0 <= k < |CompileAll(sources, compile)| ==>
      exists i :: 0 <= i < |sources| && compile(sources[i]) == Some(CompileAll(sources, compile)[k])
  {
    if |sources| > 0 {
      var tail := sources[1..];
      CompileAllSurvivors(tail, compile);
      var r, rest := CompileAll(sources, compile), CompileAll(tail, compile);
      var head := match compile(sources[0]) { case Some(re) => [re] case None => [] };
      assert r == head + rest;
      forall k | 0 <= k < |r| ensures exists i :: 0 <= i < |sources| && compile(sources[i]) == Some(r[k]) {
        if k < |head| {
          assert compile(sources[0]) == Some(r[k]);
        } else {
          var k' := k - |head|;
          assert 0 <= k' < |rest| && r[k] == rest[k'];
          assert exists i :: 0 <= i < |tail| && compile(tail[i]) == Some(rest[k']);
          var i :| 0 <= i < |tail| && compile(tail[i]) == Some(rest[k']);
          assert compile(sources[i + 1]) == Some(r[k]);
        }
      }
      assert r == CompileAll(sources, compile);
    } else {
      assert CompileAll(sources, compile) == [];
    }
  }

  /** Survivors keep their configured order: compiling a concatenation concatenates the results. */
  lemma {:induction false} CompileAllKeepsOrder(first: seq<string>, second: seq<string>, compile: Compiler)
    ensures CompileAll(first + second, compile) == CompileAll(first, compile) + CompileAll(second, compile)
  {
    if |first| == 0 {
      assert first + second == second;
    } else {
      assert (first + second)[0] == first[0];
      assert (first + second)[1..] == first[1..] + second;
      CompileAllKeepsOrder(first[1..], second, compile);
    }
  }

  /** A pattern that fails to compile is skipped; one that compiles is kept as compiled. */
  lemma CompileOne(source: string, compile: Compiler)
    ensures compile(source).None? ==> CompileAll([source], compile) == []
    ensures compile(source).Some? ==> CompileAll([source], compile) == [compile(source).value]
  {
    assert [source][1..] == [];
  }

  /** When every pattern compiles, none is dropped and each keeps its position. */
  lemma {:induction false} CompileAllValid(sources: seq<string>, compile: Compiler)
    requires forall i :: 0 <= i < |sources| ==> compile(sources[i]).Some?
    ensures |CompileAll(sources, compile)| == |sources|
    ensures forall i :: 0 <= i < |sources| ==> CompileAll(sources, compile)[i] == compile(sources[i]).value
  {
    if |sources| > 0 {
      var tail := sources[1..];
      assert forall i :: 0 <= i < |tail| ==> compile(tail[i]).Some? by {
        forall i | 0 <= i < |tail| ensures compile(tail[i]).Some? { assert tail[i] == sources[i + 1]; }
      }
      CompileAllValid(tail, compile);
      var r, rest := CompileAll(sources, compile), CompileAll(tail, compile);
      assert r == [compile(sources[0]).value] + rest;
      forall i | 0 <= i < |sources| ensures r[i] == compile(sources[i]).value {
        if i > 0 { assert r[i] == rest[i - 1] && sources[i] == tail[i - 1]; }
      }
    }
  }

  // ---------------------------------------------------------------------------
  // The cleaner

  datatype TextCleaner = TextCleaner(enabled: bool, patterns: seq<Regex>) {

    /** What `clean` returns: the text itself when disabled; otherwise every pattern applied, then trimmed. */
    function Cleaned(text: string): string {
      if !enabled then text else Trim(ApplyAll(patterns, text))
    }

    /** `TextCleaner::clean`: the loop over the compiled patterns. */
    method Clean(text: string) returns (r: string)
      ensures r == Cleaned(text)
    {
      if !enabled {
        return text;
      }
      var result := text;
      for i := 0 to |patterns|
        invariant result == ApplyAll(patterns[..i], text)
      {
        assert patterns[..i + 1][..i] == patterns[..i];
        result := patterns[i].removeAll(result);
      }
      assert patterns[..|patterns|] == patterns;
      r := Trim(result);
    }

    /** `TextCleaner::clean_option`: `clean` mapped over an optional string. */
    function CleanOption(text: Option<string>): (r: Option<string>)
      ensures r.None? <==> text.None?
      ensures r.Some? ==> r.value == Cleaned(text.value)
    {
      match text
      case None => None
      case Some(s) => Some(Cleaned(s))
    }
  }

  /** `TextCleaner::new`: patterns are compiled only when cleanup is enabled. */
  function NewCleaner(config: Config.CleanupConfig, compile: Compiler): (c: TextCleaner)
    ensures c.enabled == config.enabled
    ensures !config.enabled ==> c.patterns == []
    ensures config.enabled ==> |c.patterns| <= |config.patterns|
  {
    TextCleaner(config.enabled, if config.enabled then CompileAll(config.patterns, compile) else [])
  }

  // ---------------------------------------------------------------------------
  // Properties of cleaning

  /** A disabled cleaner returns its input unchanged: no pattern removal and no trimming. */
  lemma DisabledIsIdentity(config: Config.CleanupConfig, compile: Compiler, text: string)
    requires !config.enabled
    ensures NewCleaner(config, compile).Cleaned(text) == text
  {
  }

  /** An enabled cleaner always returns trimmed text; with no patterns it is exactly `trim`. */
  lemma EnabledResultIsTrimmed(cleaner: TextCleaner, text: string)
    requires cleaner.enabled
    ensures var r := cleaner.Cleaned(text); |r| > 0 ==> !IsWhitespace(r[0]) && !IsWhitespace(r[|r| - 1])
    ensures cleaner.patterns == [] ==> cleaner.Cleaned(text) == Trim(text)
  {
  }

  /** The cleaner built from a configuration applies the compiling patterns in configured order. */
  lemma CleanerFollowsConfig(config: Config.CleanupConfig, compile: Compiler, text: string)
    requires config.enabled
    ensures NewCleaner(config, compile).Cleaned(text) == Trim(ApplyAll(CompileAll(config.patterns, compile), text))
  {
  }
}
