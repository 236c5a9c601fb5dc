/**
 * The library's entry point: a glob pattern together with its options and, once compiled, the
 * cached regex. `compileCount` is a ghost counter of how often the compile step has run, so the
 * caching can be stated.
 */
module Globby {
  import opened Wrappers
  import opened GlobTokenizer
  import opened RegexBuilder
  import opened Compiler

  /** The option that postpones compiling from construction to the first `GetRegex`. */
  const LazyCompile: string := "lazy_compile"

  /**
   * The options a pattern keeps: the caller's, with the default `lazy_compile => false` added
   * when the caller does not set it. A key the caller gives always keeps the caller's value.
   */
  function MergeOptions(options: map<string, bool>): (m: map<string, bool>)
    ensures m.Keys == options.Keys + {LazyCompile}
    ensures forall k :: k in options ==> m[k] == options[k]
    ensures LazyCompile !in options ==> !m[LazyCompile]
  {
    map[LazyCompile := false] + options
  }

  class Pattern {
    const pattern: string
    const options: map<string, bool>
    var regex: Option<string>
    ghost var compileCount: nat

    /** The options hold the lazy flag, and a cached regex is the pattern's compiled regex. */
    ghost predicate Valid()
      reads this
    {
      && NoNewline(pattern)
      && LazyCompile in options
      && (regex.Some? ==> Compile(DefaultBuilder(), pattern) == Success(regex.value))
    }

    /** Stores the pattern and the merged options; nothing is compiled yet. */
    constructor(pattern: string, options: map<string, bool>)
      requires NoNewline(pattern)
      ensures this.pattern == pattern && this.options == MergeOptions(options)
      ensures regex == None && compileCount == 0
      ensures Valid()
    {
      this.pattern := pattern;
      this.options := MergeOptions(options);
      regex := None;
      compileCount := 0;
    }

    /**
     * Construction as the library does it: a pattern whose `lazy_compile` option is false is
     * compiled at once, and a compile error is raised to the caller instead of a pattern.
     */
    static method Create(pattern: string, options: map<string, bool>) returns (r: Result<Pattern, CompileError>)
      requires NoNewline(pattern)
      ensures r.Success? ==> fresh(r.value) && r.value.Valid()
      ensures r.Success? ==> r.value.pattern == pattern && r.value.options == MergeOptions(options)
      ensures MergeOptions(options)[LazyCompile] ==>
        r.Success? && r.value.regex == None && r.value.compileCount == 0
      ensures !MergeOptions(options)[LazyCompile] ==>
        && (r.Success? <==> Compile(DefaultBuilder(), pattern).Success?)
        && (r.Failure? ==> r.error == Compile(DefaultBuilder(), pattern).error)
        && (r.Success? ==> r.value.regex == Some(Compile(DefaultBuilder(), pattern).value) && r.value.compileCount == 1)
    {
      var p := new Pattern(pattern, options);
      if !p.options[LazyCompile] {
        var compiled := p.CompileRegex();
        if compiled.Failure? {
          return Failure(compiled.error);
        }
        p.regex := Some(compiled.value);
      }
      return Success(p);
    }

    /** The compile step: the default compiler applied to the pattern. */
    method CompileRegex() returns (r: Result<string, CompileError>)
      requires Valid()
      modifies this`compileCount
      ensures r == Compile(DefaultBuilder(), pattern)
      ensures compileCount == old(compileCount) + 1
      ensures Valid()
    {
      r := CompilePattern(DefaultBuilder(), pattern);
      compileCount := compileCount + 1;
    }

    /** The pattern this object was made with. */
    function GetPattern(): (s: string)
      ensures s == pattern
    {
      pattern
    }

    /**
     * The regex for the pattern, compiled on the first call that finds none cached. A cached
     * regex is returned without compiling again; a failed compile leaves nothing cached.
     */
    method GetRegex() returns (r: Result<string, CompileError>)
      requires Valid()
      modifies this`regex, this`compileCount
      ensures Valid()
      ensures r == Compile(DefaultBuilder(), pattern)
      ensures old(regex).Some? ==> regex == old(regex) && compileCount == old(compileCount)
      ensures old(regex).None? ==> compileCount == old(compileCount) + 1
      ensures old(regex).None? ==> regex == (if r.Success? then Some(r.value) else None)
    {
      if regex.Some? {
        CompiledIsTruthy(DefaultBuilder(), pattern);
      }
      if regex.None? || !Truthy(regex.value) {
        var compiled := CompileRegex();
        if compiled.Failure? {
          return compiled;
        }
        regex := Some(compiled.value);
      }
      return Success(regex.value);
    }
  }

  /**
   * Asking twice gives the same regex, and once a compile has succeeded the pattern is not
   * compiled again: two calls compile at most once between them.
   */
  method GetRegexTwice(p: Pattern) returns (first: Result<string, CompileError>, second: Result<string, CompileError>)
    requires p.Valid()
    modifies p`regex, p`compileCount
    ensures p.Valid()
    ensures first == second == Compile(DefaultBuilder(), p.pattern)
    ensures first.Success? ==> p.compileCount <= old(p.compileCount) + 1
    ensures old(p.regex).Some? ==> p.compileCount == old(p.compileCount)
  {
    first := p.GetRegex();
    second := p.GetRegex();
  }
}
