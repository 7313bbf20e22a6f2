/** Compiling expressions, with three caches. */
module CelCompiler {
  import opened Wrappers
  import opened CelParsing
  import opened CelParser
  import opened CelTokens
  import opened CelEvaluation

  datatype Settings = Settings(alphabet: Alphabet, safe: string -> bool)

  /** A compiled expression or option map; the static check is done where it is one. */
  datatype Program = Program(source: string, expression: Expression)

  datatype CompileError = Empty | Lexing(lexError: LexError) | Parsing(error: Error) | NotAnObject(offset: nat)

  const VARIABLES: set<string> := {"reasoningLevel", "maxOutputTokens"}

  // ---------- Compiling without caches ----------

  function TrimStart(alphabet: Alphabet, s: string): string {
    if s != "" && alphabet.isSpace(s[0]) then TrimStart(alphabet, s[1..]) else s
  }

  function Trim(alphabet: Alphabet, s: string): string
    decreases |s|
  {
    if s != "" && alphabet.isSpace(s[|s| - 1]) then Trim(alphabet, s[..|s| - 1]) else TrimStart(alphabet, s)
  }

  function Analysed(settings: Settings, variable: string, source: string): Result<Expression, CompileError>
    requires variable in VARIABLES
  {
    var tokens := TokensFrom(settings.alphabet, source, 0, []);
    if tokens.Err? then Err(Lexing(tokens.error))
    else
      TokensAreReady(settings.alphabet, source, variable, settings.safe);
      var e := ParseAll(Source(Bare(tokens.value), variable, settings.safe));
      if e.Err? then Err(Parsing(e.error)) else Ok(e.value)
  }

  /** assertObjectResultExpression. */
  function ObjectError(e: Expression): (r: Option<CompileError>)
    ensures r.None? <==> MustBeObject(e)
  {
    if e.Object? then None
    else if e.Conditional? then (if ObjectError(e.whenTrue).Some? then ObjectError(e.whenTrue) else ObjectError(e.whenFalse))
    else Some(NotAnObject(e.offset))
  }

  /** The expressions that a conditional can come down to, in the order they are written. */
  function Branches(e: Expression): (r: seq<Expression>)
    ensures r != []
  {
    if e.Conditional? then Branches(e.whenTrue) + Branches(e.whenFalse) else [e]
  }

  /** The static check accepts an expression exactly if all it can come down to is object literals, and otherwise names
      the first branch that is none. */
  lemma {:induction false} TheCheckLooksAtEveryBranch(e: Expression)
    ensures match ObjectError(e)
      case None => forall k :: 0 <= k < |Branches(e)| ==> Branches(e)[k].Object?
      case Some(error) =>
        exists k :: 0 <= k < |Branches(e)| && !Branches(e)[k].Object? && error == NotAnObject(Branches(e)[k].offset)
          && forall i :: 0 <= i < k ==> Branches(e)[i].Object?
    decreases e
  {
    if e.Conditional? {
      TheCheckLooksAtEveryBranch(e.whenTrue);
      TheCheckLooksAtEveryBranch(e.whenFalse);
      var first, second := Branches(e.whenTrue), Branches(e.whenFalse);
      if ObjectError(e.whenTrue).Some? {
        var k :| 0 <= k < |first| && !first[k].Object? && ObjectError(e) == Some(NotAnObject(first[k].offset))
          && forall i :: 0 <= i < k ==> first[i].Object?;
        assert Branches(e)[k] == first[k];
      } else if ObjectError(e.whenFalse).Some? {
        var k :| 0 <= k < |second| && !second[k].Object? && ObjectError(e) == Some(NotAnObject(second[k].offset))
          && forall i :: 0 <= i < k ==> second[i].Object?;
        assert Branches(e)[|first| + k] == second[k];
      }
    } else {
      assert Branches(e)[0] == e;
    }
  }

  function Compiled(settings: Settings, variable: string, source: string): Result<Program, CompileError>
    requires variable in VARIABLES
  {
    var text := Trim(settings.alphabet, source);
    if text == "" then Err(Empty)
    else
      var e := Analysed(settings, variable, text);
      if e.Err? then Err(e.error) else Ok(Program(text, e.value))
  }

  function CompiledMap(settings: Settings, variable: string, source: string): Result<Program, CompileError>
    requires variable in VARIABLES
  {
    var p := Compiled(settings, variable, source);
    if p.Err? then p
    else
      var error := ObjectError(p.value.expression);
      if error.Some? then Err(error.value) else p
  }

  /** An option map that compiles evaluates to an object, or not at all. */
  lemma OptionMapsYieldObjects<N>(settings: Settings, variable: string, source: string, m: Arithmetic<N>,
          input: Json<N>)
    requires variable in VARIABLES && CompiledMap(settings, variable, source).Ok?
    ensures var r := EvaluateRestrictedCel(m, CompiledMap(settings, variable, source).value.expression, input);
      r.Ok? ==> r.value.Obj?
  {
    hide Compiled, Evaluate;
    var e := CompiledMap(settings, variable, source).value.expression;
    if Evaluate(m, e, input).Ok? {
      StaticCheckSuffices(m, e, input);
    }
  }

  /** What a compiled expression yields holds safe numbers only. */
  lemma ProgramsYieldSafeNumbers<N(!new)>(settings: Settings, variable: string, source: string, m: Arithmetic<N>,
          input: Json<N>)
    requires variable in VARIABLES && Compiled(settings, variable, source).Ok? && SafeTexts(m, settings.safe)
    ensures var r := EvaluateRestrictedCel(m, Compiled(settings, variable, source).value.expression, input);
      r.Ok? ==> Sound(m, r.value)
  {
    hide Evaluate, ParseConditional, TokensFrom, Trim;
    var text := Trim(settings.alphabet, source);
    var e := Compiled(settings, variable, source).value.expression;
    var tokens := TokensFrom(settings.alphabet, text, 0, []).value;
    TokensAreReady(settings.alphabet, text, variable, settings.safe);
    ConditionalIsWellFormed(Source(Bare(tokens), variable, settings.safe), 0);
    if EvaluateRestrictedCel(m, e, input).Ok? {
      EvaluationIsSound(m, settings.safe, e, input);
    }
  }

  // ---------- The caches ----------

  function CacheKey(source: string, variable: string): string {
    variable + "\0" + source
  }

  /** Different requests have different keys: no variable's name holds the separator. */
  lemma KeysDiffer(s: string, v: string, t: string, w: string)
    requires v in VARIABLES && w in VARIABLES && CacheKey(s, v) == CacheKey(t, w)
    ensures s == t && v == w
  {
    var k := CacheKey(s, v);
    assert k[|v|] == '\0' && k[|w|] == '\0';
    assert forall i :: 0 <= i < |v| ==> k[i] == v[i] != '\0';
    assert forall i :: 0 <= i < |w| ==> k[i] == w[i] != '\0';
    assert |v| == |w|;
    assert k[..|v|] == v && k[..|w|] == w;
    assert k[|v| + 1..] == s && k[|w| + 1..] == t;
  }

  class Compiler {
    const settings: Settings
    var programCache: map<string, Program>
    var optionMapCache: map<string, Program>
    var expressionCache: map<string, Expression>

    /** What is cached is what compiling afresh would give. */
    ghost predicate Valid()
      reads this
    {
      && (forall v, s :: v in VARIABLES && CacheKey(s, v) in expressionCache ==> Analysed(settings, v, s) == Ok(expressionCache[CacheKey(s, v)]))
      && (forall v, s :: v in VARIABLES && s != "" && CacheKey(s, v) in programCache ==>
            programCache[CacheKey(s, v)].source == s && Analysed(settings, v, s) == Ok(programCache[CacheKey(s, v)].expression))
      && (forall v, s :: v in VARIABLES && s != "" && CacheKey(s, v) in optionMapCache ==>
            optionMapCache[CacheKey(s, v)].source == s && Analysed(settings, v, s) == Ok(optionMapCache[CacheKey(s, v)].expression)
            && ObjectError(optionMapCache[CacheKey(s, v)].expression).None?)
    }

    constructor (settings: Settings)
      ensures Valid() && this.settings == settings
    {
      this.settings := settings;
      programCache, optionMapCache, expressionCache := map[], map[], map[];
    }

    method NormalizeSource(source: string) returns (r: Result<string, CompileError>)
      ensures var text := Trim(settings.alphabet, source); r == if text == "" then Err(Empty) else Ok(text)
    {
      var text := Trim(settings.alphabet, source);
      if text == "" {
        return Err(Empty);
      }
      return Ok(text);
    }

    method ParseAfresh(source: string, variable: string) returns (r: Result<Expression, CompileError>)
      requires variable in VARIABLES
      ensures r == Analysed(settings, variable, source)
    {
      var tokens := TokenizeRestrictedCel(settings.alphabet, source);
      if tokens.Err? {
        return Err(Lexing(tokens.error));
      }
      TokensAreReady(settings.alphabet, source, variable, settings.safe);
      var parser := new Parser(Source(Bare(tokens.value), variable, settings.safe));
      var e := parser.Parse();
      if e.Err? {
        return Err(Parsing(e.error));
      }
      return Ok(e.value);
    }

    /** parseExpression: cached or not, the same. */
    method ParseExpression(source: string, variable: string) returns (r: Result<Expression, CompileError>)
      requires Valid() && variable in VARIABLES
      modifies this`expressionCache
      ensures Valid() && r == Analysed(settings, variable, source)
    {
      hide Analysed;
      var key := CacheKey(source, variable);
      if key in expressionCache {
        return Ok(expressionCache[key]);
      }
      r := ParseAfresh(source, variable);
      if r.Ok? {
        OneKey(source, variable);
        expressionCache := expressionCache[key := r.value];
      }
    }

    lemma OneKey(source: string, variable: string)
      requires variable in VARIABLES
      ensures forall v, s :: v in VARIABLES && CacheKey(s, v) == CacheKey(source, variable) ==>
        v == variable && s == source
    {
      forall v, s | v in VARIABLES && CacheKey(s, v) == CacheKey(source, variable)
        ensures v == variable && s == source
      {
        KeysDiffer(s, v, source, variable);
      }
    }

    method CompileRestrictedCel(source: string, variable: string) returns (r: Result<Program, CompileError>)
      requires Valid() && variable in VARIABLES
      modifies this
      ensures Valid() && r == Compiled(settings, variable, source)
    {
      hide Analysed, Trim, CacheKey;
      var text := NormalizeSource(source);
      if text.Err? {
        return Err(text.error);
      }
      var key := CacheKey(text.value, variable);
      if key in programCache {
        return Ok(programCache[key]);
      }
      var e := ParseExpression(text.value, variable);
      if e.Err? {
        return Err(e.error);
      }
      OneKey(text.value, variable);
      programCache := programCache[key := Program(text.value, e.value)];
      return Ok(Program(text.value, e.value));
    }

    method CompileModelOptionMap(source: string, variable: string) returns (r: Result<Program, CompileError>)
      requires Valid() && variable in VARIABLES
      modifies this
      ensures Valid() && r == CompiledMap(settings, variable, source)
    {
      hide Analysed, Trim, CacheKey, ObjectError;
      var text := NormalizeSource(source);
      if text.Err? {
        return Err(text.error);
      }
      var key := CacheKey(text.value, variable);
      if key in optionMapCache {
        return Ok(optionMapCache[key]);
      }
      var e := ParseExpression(text.value, variable);
      if e.Err? {
        return Err(e.error);
      }
      var error := ObjectError(e.value);
      if error.Some? {
        return Err(error.value);
      }
      OneKey(text.value, variable);
      optionMapCache := optionMapCache[key := Program(text.value, e.value)];
      return Ok(Program(text.value, e.value));
    }
  }
}
